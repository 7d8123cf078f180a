/** Runs of whole collection cycles: what the two maps remember, and what a cycle reports. */
module DockerCycles {
  import opened Wrappers
  import opened Bytes
  import opened DockerModel
  import opened DockerFanout
  import opened InspectSchedule

  const MAX_STOPPED_INSPECT := 50

  /** What the client keeps over the cycles. */
  datatype Memory = Memory(cycle: int, prev: map<Text, CpuSample>, restart: map<Text, RestartSample>)

  const FRESH := Memory(0, map[], map[])

  /** The settings: the inspect gap as configured, and the hash of a container ID. */
  datatype Settings = Settings(inspectEvery: int, hash: Text -> nat)

  function Every(c: Settings): (n: nat)
    ensures n > 0
    ensures n == c.inspectEvery || (c.inspectEvery <= 0 && n == 1)
  {
    if c.inspectEvery < 1 then 1 else c.inspectEvery
  }

  /** A stable offset in [0, every) for each container. */
  function SlotOf(c: Settings, id: Text): (n: nat)
    ensures n < Every(c)
  {
    c.hash(id) % Every(c)
  }

  /** The offset is what is left of the hash after whole gaps. */
  lemma SlotIsRemainder(c: Settings, id: Text) returns (gaps: nat)
    ensures c.hash(id) == gaps * Every(c) + SlotOf(c, id)
  {
    gaps := c.hash(id) / Every(c);
  }

  /** The answers of the runtime in one cycle, by container ID. */
  datatype Host = Host(stats: Text -> Option<StatsReply>, inspect: Text -> Option<int>, stopped: Text -> StoppedReply)

  /** One call of Collect: the listing fails, or it gives containers. `newest` is the order in which
      the sort by age leaves the stopped ones. */
  datatype Round = Unlisted | Listed(containers: seq<Container>, newest: seq<Container>, host: Host)

  function RunningOf(cs: seq<Container>): (r: seq<Container>)
    ensures forall c | c in r :: c in cs && c.running
  {
    if cs == [] then []
    else
      var n := |cs| - 1;
      RunningOf(cs[..n]) + if cs[n].running then [cs[n]] else []
  }

  function StoppedOf(cs: seq<Container>): (r: seq<Container>)
    ensures forall c | c in r :: c in cs && !c.running
  {
    if cs == [] then []
    else
      var n := |cs| - 1;
      StoppedOf(cs[..n]) + if cs[n].running then [] else [cs[n]]
  }

  predicate NewestFirst(cs: seq<Container>) {
    forall i, j | 0 <= i < j < |cs| :: cs[i].created >= cs[j].created
  }

  predicate DistinctContainers(cs: seq<Container>) {
    forall i, j | 0 <= i < j < |cs| :: cs[i].id != cs[j].id
  }

  predicate ProperRound(r: Round) {
    r.Listed? ==>
      && DistinctContainers(r.containers)
      && NewestFirst(r.newest) && multiset(r.newest) == multiset(StoppedOf(r.containers))
  }

  function Kept(newest: seq<Container>): seq<Container> {
    if |newest| > MAX_STOPPED_INSPECT then newest[..MAX_STOPPED_INSPECT] else newest
  }

  /** pruneDead: only running containers keep their entries. */
  function Prune(m: Memory, cs: seq<Container>): Memory {
    var live := set c | c in cs && c.running :: c.id;
    m.(prev := map id | id in m.prev && id in live :: m.prev[id],
       restart := map id | id in m.restart && id in live :: m.restart[id])
  }

  /** plan, for one running container. */
  function Due(c: Settings, m: Memory, id: Text): bool {
    NeedsInspect(Lookup(m.restart, id), m.cycle, Every(c), SlotOf(c, id))
  }

  function TaskFor(c: Settings, m: Memory, host: Host, ct: Container): Task {
    if ct.running then RunningTask(ct, host.stats(ct.id), Due(c, m, ct.id), host.inspect(ct.id))
    else StoppedTask(ct, host.stopped(ct.id))
  }

  function TasksFor(c: Settings, m: Memory, host: Host, cts: seq<Container>): (ts: seq<Task>)
    ensures |ts| == |cts| && forall i | 0 <= i < |cts| :: ts[i] == TaskFor(c, m, host, cts[i])
  {
    seq(|cts|, i requires 0 <= i < |cts| => TaskFor(c, m, host, cts[i]))
  }

  /** The state before the goroutines start. */
  function Ready0(m: Memory, n: nat): (s: Fan)
    ensures |s.pcs| == |s.out| == |s.errs| == n
  {
    Fan(seq(n, _ => Outside), m.prev, m.restart, seq(n, _ => ZERO_SAMPLE), seq(n, _ => NoError), 0)
  }

  /** The containers that get a goroutine. */
  function Chosen(r: Round): seq<Container>
    requires r.Listed?
  {
    RunningOf(r.containers) + Kept(r.newest)
  }

  /** The memory with which the goroutines of a round start. */
  function Planned(m: Memory, r: Round): Memory
    requires r.Listed?
  {
    var p := Prune(m, r.containers);
    if r.containers == [] then p else p.(cycle := p.cycle + 1)
  }

  /** The end of the goroutines of a round. */
  function FanEnd(c: Settings, m: Memory, r: Round): (s: Fan)
    requires r.Listed?
    ensures |s.out| == |s.errs| == |Chosen(r)|
  {
    var p := Planned(m, r);
    var tasks := TasksFor(c, p, r.host, Chosen(r));
    InOrder(tasks, p.cycle, Ready0(p, |tasks|), |tasks|)
  }

  function After(c: Settings, m: Memory, r: Round): Memory {
    if r.Unlisted? then m
    else if r.containers == [] then Planned(m, r)
    else Planned(m, r).(prev := FanEnd(c, m, r).prev, restart := FanEnd(c, m, r).restart)
  }

  function Run(c: Settings, rounds: seq<Round>): Memory {
    if rounds == [] then FRESH else After(c, Run(c, rounds[..|rounds| - 1]), rounds[|rounds| - 1])
  }

  // ---- one goroutine in closed form ----

  lemma AloneRunning(t: Task, cycle: int, p: Part)
    requires t.RunningTask? && p.pc.Outside?
    ensures var r := Alone(t, cycle, p);
            if t.stats.None? then r == p.(pc := Gone, err := Failure)
            else
              var entry := if t.due then Some(PutRestart(p.restart, t.inspect, cycle)) else p.restart;
              && r.restart == entry && r.err == p.err
              && r.out == SampleOf(t.ct, t.stats.value, p.prev).(restarts := GetRestart(entry))
              && r.prev == Some(CpuSample(t.stats.value.total, t.stats.value.system, t.stats.value.seen))
  {
    var p2 := Move(t, cycle, Move(t, cycle, p));
    assert Alone(t, cycle, p) == Alone(t, cycle, p2);
    if t.stats.Some? {
      assert p2.pc.Sampled?;
      var p4 := Move(t, cycle, Move(t, cycle, p2));
      assert p4.pc.Ready? && Alone(t, cycle, p2) == Alone(t, cycle, p4);
      var p6 := Move(t, cycle, Move(t, cycle, p4));
      assert p6.pc.Gone? && Alone(t, cycle, p4) == Alone(t, cycle, p6);
      AloneOfGone(t, cycle, p6);
    } else {
      assert p2.pc.Leaving?;
      AloneOfGone(t, cycle, Move(t, cycle, p2));
      assert Alone(t, cycle, p2) == Move(t, cycle, p2);
    }
  }

  lemma AloneStopped(t: Task, cycle: int, p: Part)
    requires t.StoppedTask? && p.pc.Outside?
    ensures var r := Alone(t, cycle, p);
            && r.prev == p.prev && r.restart == p.restart
            && r.err == match t.reply
                        case InspectFailed => Failure
                        case TooOld => Skipped
                        case Recent(_, _) => p.err
  {
    var p2 := Move(t, cycle, Move(t, cycle, p));
    assert p2.pc.Leaving? && Alone(t, cycle, p) == Alone(t, cycle, p2);
    AloneOfGone(t, cycle, Move(t, cycle, p2));
    assert Alone(t, cycle, p2) == Move(t, cycle, p2);
  }

  // ---- a listing has every container once ----

  lemma {:induction false} PartsDistinct(cs: seq<Container>)
    requires DistinctContainers(cs)
    ensures DistinctContainers(RunningOf(cs)) && DistinctContainers(StoppedOf(cs))
  {
    if cs != [] {
      PartsDistinct(cs[..|cs| - 1]);
    }
  }

  lemma {:induction false} RunningMembers(cs: seq<Container>, c: Container)
    ensures c in RunningOf(cs) <==> c in cs && c.running
    ensures c in StoppedOf(cs) <==> c in cs && !c.running
  {
    if cs != [] {
      RunningMembers(cs[..|cs| - 1], c);
    }
  }

  lemma {:induction false} OnceEach(cs: seq<Container>, x: Container)
    requires DistinctContainers(cs)
    ensures multiset(cs)[x] <= 1
  {
    if cs != [] {
      OnceEach(cs[1..], x);
      assert cs == [cs[0]] + cs[1..];
      if x == cs[0] {
        assert x !in cs[1..];
      }
    }
  }

  lemma TwoPlaces(cs: seq<Container>, i: nat, j: nat)
    requires i < j < |cs| && cs[i] == cs[j]
    ensures multiset(cs)[cs[i]] >= 2
  {
    assert cs == cs[..j] + cs[j..];
    assert cs[..j][i] == cs[i] && cs[j..][0] == cs[i];
  }

  lemma PermutationDistinct(a: seq<Container>, b: seq<Container>)
    requires multiset(a) == multiset(b) && DistinctContainers(b)
    ensures DistinctContainers(a)
  {
    forall i, j | 0 <= i < j < |a|
      ensures a[i].id != a[j].id
    {
      assert a[i] in multiset(a) && a[j] in multiset(a);
      assert a[i] in b && a[j] in b;
      if a[i] == a[j] {
        TwoPlaces(a, i, j);
        OnceEach(b, a[i]);
      }
    }
  }

  lemma ChosenMembers(r: Round, c: Container)
    requires r.Listed? && ProperRound(r)
    ensures c in RunningOf(r.containers) ==> c in r.containers && c.running
    ensures c in Kept(r.newest) ==> c in r.containers && !c.running
  {
    RunningMembers(r.containers, c);
    if c in Kept(r.newest) {
      assert c in multiset(r.newest);
      assert c in StoppedOf(r.containers);
    }
  }

  lemma ChosenDistinct(r: Round)
    requires r.Listed? && ProperRound(r)
    ensures DistinctContainers(Chosen(r))
    ensures forall c | c in Chosen(r) :: c in r.containers
  {
    PartsDistinct(r.containers);
    PermutationDistinct(r.newest, StoppedOf(r.containers));
    forall c | c in Chosen(r)
      ensures c in r.containers
    {
      ChosenMembers(r, c);
    }
    forall c, d | c in RunningOf(r.containers) && d in Kept(r.newest)
      ensures c.id != d.id
    {
      ChosenMembers(r, c);
      ChosenMembers(r, d);
    }
    DistinctConcat(RunningOf(r.containers), Kept(r.newest));
  }

  lemma DistinctConcat(a: seq<Container>, b: seq<Container>)
    requires DistinctContainers(a) && DistinctContainers(b)
    requires forall c, d | c in a && d in b :: c.id != d.id
    ensures DistinctContainers(a + b)
  {
  }

  // ---- what a round does to one container ----

  /** The end of a round is, for each goroutine, its own run alone. */
  lemma EndOfTask(c: Settings, m: Memory, r: Round, i: nat)
    requires r.Listed? && ProperRound(r) && i < |Chosen(r)|
    ensures var p := Planned(m, r);
            var t := TaskFor(c, p, r.host, Chosen(r)[i]);
            var id := Chosen(r)[i].id;
            var end := FanEnd(c, m, r);
            var q := Alone(t, p.cycle, Part(Outside, Lookup(p.prev, id), Lookup(p.restart, id), ZERO_SAMPLE, NoError));
            && Lookup(end.prev, id) == q.prev && Lookup(end.restart, id) == q.restart
            && end.out[i] == q.out && end.errs[i] == q.err
  {
    var p := Planned(m, r);
    var tasks := TasksFor(c, p, r.host, Chosen(r));
    ChosenDistinct(r);
    var start := Ready0(p, |tasks|);
    InOrderKeeps(tasks, p.cycle, start, |tasks|);
    var end := InOrder(tasks, p.cycle, start, |tasks|);
    AloneOfGone(tasks[i], p.cycle, PartOf(tasks, end, i));
    assert Alone(tasks[i], p.cycle, PartOf(tasks, start, i)) == PartOf(tasks, end, i);
  }

  lemma EndOfOthers(c: Settings, m: Memory, r: Round, id: Text)
    requires r.Listed? && ProperRound(r)
    requires forall ct | ct in Chosen(r) :: ct.id != id
    ensures var p, end := Planned(m, r), FanEnd(c, m, r);
            Lookup(end.prev, id) == Lookup(p.prev, id) && Lookup(end.restart, id) == Lookup(p.restart, id)
  {
    var p := Planned(m, r);
    var tasks := TasksFor(c, p, r.host, Chosen(r));
    ChosenDistinct(r);
    InOrderKeeps(tasks, p.cycle, Ready0(p, |tasks|), |tasks|);
    forall i | 0 <= i < |tasks|
      ensures tasks[i].ct.id != id
    {
      assert Chosen(r)[i] in Chosen(r);
    }
  }

  predicate RunsIn(r: Round, id: Text) {
    r.Listed? && exists ct :: ct in r.containers && ct.running && ct.id == id
  }

  lemma PlannedEntry(m: Memory, r: Round, id: Text)
    requires r.Listed?
    ensures Lookup(Planned(m, r).restart, id) == if RunsIn(r, id) then Lookup(m.restart, id) else None
    ensures Lookup(Planned(m, r).prev, id) == if RunsIn(r, id) then Lookup(m.prev, id) else None
  {
  }

  function DayOf(r: Round, id: Text): Day
    requires r.Listed?
  {
    Day(r.host.stats(id).Some?, r.host.inspect(id))
  }

  lemma ChosenOfRunning(r: Round, id: Text) returns (i: nat)
    requires RunsIn(r, id)
    ensures i < |Chosen(r)| && Chosen(r)[i].id == id && Chosen(r)[i].running
  {
    var ct :| ct in r.containers && ct.running && ct.id == id;
    RunningMembers(r.containers, ct);
    i :| 0 <= i < |RunningOf(r.containers)| && RunningOf(r.containers)[i] == ct;
  }

  /** What a round leaves of its goroutines. */
  lemma AfterIsEnd(c: Settings, m: Memory, r: Round, id: Text)
    requires RunsIn(r, id)
    ensures After(c, m, r).restart == FanEnd(c, m, r).restart && After(c, m, r).prev == FanEnd(c, m, r).prev
    ensures After(c, m, r).cycle == m.cycle + 1 == Planned(m, r).cycle
  {
  }

  /** The entry that goroutine i leaves, and the count it reports. */
  lemma RunningEnd(c: Settings, m: Memory, r: Round, id: Text, i: nat, entry: Option<RestartSample>)
    requires ProperRound(r) && RunsIn(r, id)
    requires i < |Chosen(r)| && Chosen(r)[i].id == id && Chosen(r)[i].running
    requires entry == NextEntry(Lookup(m.restart, id), m.cycle + 1, Every(c), SlotOf(c, id), DayOf(r, id))
    ensures var end := FanEnd(c, m, r);
            && Lookup(end.restart, id) == entry
            && (r.host.stats(id).Some? ==>
                  end.errs[i].NoError? && end.out[i].restarts == GetRestart(entry) && end.out[i].container == Chosen(r)[i])
  {
    var p := Planned(m, r);
    var t := TaskFor(c, p, r.host, Chosen(r)[i]);
    PlannedEntry(m, r, id);
    AfterIsEnd(c, m, r, id);
    EndOfTask(c, m, r, i);
    AloneRunning(t, p.cycle, Part(Outside, Lookup(p.prev, id), Lookup(p.restart, id), ZERO_SAMPLE, NoError));
  }

  /** A container that runs: its entry changes as one day of its schedule says, and a successful
      stats read is reported with the count that the new entry holds. */
  lemma RunningInRound(c: Settings, m: Memory, r: Round, id: Text) returns (i: nat)
    requires ProperRound(r) && RunsIn(r, id)
    ensures var entry := NextEntry(Lookup(m.restart, id), m.cycle + 1, Every(c), SlotOf(c, id),
                                   DayOf(r, id));
            && Lookup(After(c, m, r).restart, id) == entry
            && After(c, m, r).cycle == m.cycle + 1
            && i < |Chosen(r)| && Chosen(r)[i].id == id && Chosen(r)[i].running
            && (r.host.stats(id).Some? ==>
                  FanEnd(c, m, r).errs[i].NoError? && FanEnd(c, m, r).out[i].restarts == GetRestart(entry)
                  && FanEnd(c, m, r).out[i].container == Chosen(r)[i])
  {
    i := ChosenOfRunning(r, id);
    var entry := NextEntry(Lookup(m.restart, id), m.cycle + 1, Every(c), SlotOf(c, id), DayOf(r, id));
    RunningEnd(c, m, r, id, i, entry);
    AfterIsEnd(c, m, r, id);
  }

  function ReadingOf(r: StatsReply): CpuSample { CpuSample(r.total, r.system, r.seen) }

  /** And its CPU reading replaces the kept one, against which the sample is measured. */
  lemma RunningSample(c: Settings, m: Memory, r: Round, id: Text, i: nat)
    requires ProperRound(r) && RunsIn(r, id)
    requires i < |Chosen(r)| && Chosen(r)[i].id == id && Chosen(r)[i].running
    ensures var stats, before := r.host.stats(id), Lookup(m.prev, id);
            && Lookup(After(c, m, r).prev, id) == (if stats.Some? then Some(ReadingOf(stats.value)) else before)
            && (stats.Some? ==>
                  var out := FanEnd(c, m, r).out[i];
                  out == SampleOf(Chosen(r)[i], stats.value, before).(restarts := out.restarts))
  {
    var ct := Chosen(r)[i];
    var p := Planned(m, r);
    PlannedEntry(m, r, id);
    EndOfTask(c, m, r, i);
    AloneRunning(TaskFor(c, p, r.host, ct), p.cycle,
                 Part(Outside, Lookup(p.prev, id), Lookup(p.restart, id), ZERO_SAMPLE, NoError));
  }

  lemma RunningEntry(c: Settings, m: Memory, r: Round, id: Text)
    requires ProperRound(r) && RunsIn(r, id)
    ensures After(c, m, r).cycle == m.cycle + 1
    ensures Lookup(After(c, m, r).restart, id)
         == NextEntry(Lookup(m.restart, id), m.cycle + 1, Every(c), SlotOf(c, id),
                      DayOf(r, id))
  {
    var i := RunningInRound(c, m, r, id);
  }

  /** A container that does not run loses its entries. */
  lemma AbsentInRound(c: Settings, m: Memory, r: Round, id: Text)
    requires r.Listed? && ProperRound(r) && !RunsIn(r, id)
    ensures Lookup(After(c, m, r).restart, id) == None && Lookup(After(c, m, r).prev, id) == None
  {
    PlannedEntry(m, r, id);
    if i :| 0 <= i < |Chosen(r)| && Chosen(r)[i].id == id {
      ChosenDistinct(r);
      var ct := Chosen(r)[i];
      assert ct in Chosen(r) && !ct.running;
      EndOfTask(c, m, r, i);
      var p := Planned(m, r);
      AloneStopped(TaskFor(c, p, r.host, ct), p.cycle,
                   Part(Outside, Lookup(p.prev, id), Lookup(p.restart, id), ZERO_SAMPLE, NoError));
    } else if r.containers != [] {
      EndOfOthers(c, m, r, id);
    }
  }

  // ---- the restart cache against the history of inspect calls ----

  /** What one round shows of a container. */
  datatype Seen = NoListing | NotRunning | NoInspect | InspectError | Inspected(count: int)

  function Observe(c: Settings, m: Memory, r: Round, id: Text): Seen {
    if r.Unlisted? then NoListing
    else if !RunsIn(r, id) then NotRunning
    else if r.host.stats(id).None? || !NeedsInspect(Lookup(m.restart, id), m.cycle + 1, Every(c), SlotOf(c, id)) then
      NoInspect
    else if r.host.inspect(id).None? then InspectError
    else Inspected(r.host.inspect(id).value)
  }

  function History(c: Settings, rounds: seq<Round>, id: Text): seq<Seen> {
    if rounds == [] then []
    else
      var n := |rounds| - 1;
      History(c, rounds[..n], id) + [Observe(c, Run(c, rounds[..n]), rounds[n], id)]
  }

  /** How one observation changes what is known. */
  function KnownAfter(known: Option<int>, o: Seen): Option<int> {
    match o
    case Inspected(n) => Some(n)
    case NotRunning => None
    case _ => known
  }

  /** The last count that an inspect call gave, since the container was last seen not running. */
  function LastKnown(h: seq<Seen>): Option<int> {
    if h == [] then None else KnownAfter(LastKnown(h[..|h| - 1]), h[|h| - 1])
  }

  ghost predicate AllProper(rounds: seq<Round>) {
    forall r | r in rounds :: ProperRound(r)
  }

  lemma CacheWhileRunning(c: Settings, m: Memory, r: Round, id: Text)
    requires ProperRound(r) && RunsIn(r, id)
    ensures GetRestart(Lookup(After(c, m, r).restart, id))
         == KnownAfter(GetRestart(Lookup(m.restart, id)), Observe(c, m, r, id))
  {
    RunningEntry(c, m, r, id);
  }

  lemma CacheInRound(c: Settings, m: Memory, r: Round, id: Text)
    requires ProperRound(r)
    ensures GetRestart(Lookup(After(c, m, r).restart, id))
         == KnownAfter(GetRestart(Lookup(m.restart, id)), Observe(c, m, r, id))
  {
    if RunsIn(r, id) {
      CacheWhileRunning(c, m, r, id);
    } else if r.Listed? {
      AbsentInRound(c, m, r, id);
    }
  }

  /** After every run, the cached count of every container is the last one that was inspected
      successfully since the container was last absent from the running list. */
  lemma {:induction false} CacheAgreesWithHistory(c: Settings, rounds: seq<Round>, id: Text)
    requires AllProper(rounds)
    ensures GetRestart(Lookup(Run(c, rounds).restart, id)) == LastKnown(History(c, rounds, id))
  {
    if rounds != [] {
      var n := |rounds| - 1;
      CacheAgreesWithHistory(c, rounds[..n], id);
      assert rounds[n] in rounds;
      CacheInRound(c, Run(c, rounds[..n]), rounds[n], id);
      assert History(c, rounds, id)[..n] == History(c, rounds[..n], id) by {
        HistoryLength(c, rounds[..n], id);
      }
    }
  }

  lemma {:induction false} HistoryLength(c: Settings, rounds: seq<Round>, id: Text)
    ensures |History(c, rounds, id)| == |rounds|
  {
    if rounds != [] {
      HistoryLength(c, rounds[..|rounds| - 1], id);
    }
  }

  /** And that count, or none, is what the sample of the container carries in every round in which
      its stats read succeeds. */
  lemma SampleCarriesLastKnown(c: Settings, rounds: seq<Round>, id: Text) returns (i: nat)
    requires AllProper(rounds) && rounds != []
    requires RunsIn(rounds[|rounds| - 1], id) && rounds[|rounds| - 1].host.stats(id).Some?
    ensures var r := rounds[|rounds| - 1];
            var end := FanEnd(c, Run(c, rounds[..|rounds| - 1]), r);
            && i < |end.out| && Chosen(r)[i].id == id && end.errs[i].NoError?
            && end.out[i].restarts == LastKnown(History(c, rounds, id))
  {
    var n := |rounds| - 1;
    assert rounds[n] in rounds;
    i := RunningInRound(c, Run(c, rounds[..n]), rounds[n], id);
    CacheAgreesWithHistory(c, rounds, id);
  }

  /** The last stats reply of a container since it was last seen not running. */
  function LastReading(rounds: seq<Round>, id: Text): Option<CpuSample> {
    if rounds == [] then None
    else
      var n := |rounds| - 1;
      var r := rounds[n];
      if r.Unlisted? then LastReading(rounds[..n], id)
      else if !RunsIn(r, id) then None
      else if r.host.stats(id).None? then LastReading(rounds[..n], id)
      else Some(ReadingOf(r.host.stats(id).value))
  }

  lemma {:induction false} PrevAgreesWithHistory(c: Settings, rounds: seq<Round>, id: Text)
    requires AllProper(rounds)
    ensures Lookup(Run(c, rounds).prev, id) == LastReading(rounds, id)
  {
    if rounds != [] {
      var n := |rounds| - 1;
      var r := rounds[n];
      PrevAgreesWithHistory(c, rounds[..n], id);
      assert r in rounds;
      if RunsIn(r, id) {
        var i := RunningInRound(c, Run(c, rounds[..n]), r, id);
        RunningSample(c, Run(c, rounds[..n]), r, id, i);
      } else if r.Listed? {
        AbsentInRound(c, Run(c, rounds[..n]), r, id);
      }
    }
  }

  /** The sample of a running container measures its CPU time since the last reply that was read
      while it kept running, however many rounds ago, and shows none on the first reply. */
  lemma SampleMeasuresSinceLast(c: Settings, rounds: seq<Round>, id: Text) returns (i: nat)
    requires AllProper(rounds) && rounds != []
    requires RunsIn(rounds[|rounds| - 1], id) && rounds[|rounds| - 1].host.stats(id).Some?
    ensures var n, r := |rounds| - 1, rounds[|rounds| - 1];
            var end := FanEnd(c, Run(c, rounds[..n]), r);
            && i < |end.out| && Chosen(r)[i].id == id && end.errs[i].NoError?
            && end.out[i].cpuPercent == CpuPercent(r.host.stats(id).value, LastReading(rounds[..n], id))
  {
    var n := |rounds| - 1;
    assert rounds[n] in rounds;
    i := RunningInRound(c, Run(c, rounds[..n]), rounds[n], id);
    RunningSample(c, Run(c, rounds[..n]), rounds[n], id, i);
    PrevAgreesWithHistory(c, rounds[..n], id);
  }

  /** After every successful listing, both maps know running containers only. */
  lemma MapsKnowRunningOnly(c: Settings, m: Memory, r: Round, id: Text)
    requires r.Listed? && ProperRound(r)
    requires id in After(c, m, r).restart || id in After(c, m, r).prev
    ensures RunsIn(r, id)
  {
    if !RunsIn(r, id) {
      AbsentInRound(c, m, r, id);
    }
  }

  /** The cycle number counts the rounds with a listing that is not empty. */
  function Counted(rounds: seq<Round>): nat {
    if rounds == [] then 0
    else Counted(rounds[..|rounds| - 1])
         + if rounds[|rounds| - 1].Listed? && rounds[|rounds| - 1].containers != [] then 1 else 0
  }

  lemma {:induction false} CycleCounts(c: Settings, rounds: seq<Round>)
    ensures Run(c, rounds).cycle == Counted(rounds)
  {
    if rounds != [] {
      CycleCounts(c, rounds[..|rounds| - 1]);
    }
  }

  predicate StampInPast(m: Memory, id: Text) {
    Lookup(m.restart, id).Some? ==> Lookup(m.restart, id).value.cycle <= m.cycle
  }

  lemma RoundKeepsStamp(c: Settings, m: Memory, r: Round, id: Text)
    requires ProperRound(r) && StampInPast(m, id)
    ensures StampInPast(After(c, m, r), id)
  {
    if RunsIn(r, id) {
      RunningEntry(c, m, r, id);
    } else if r.Listed? {
      AbsentInRound(c, m, r, id);
    }
  }

  /** No stamp lies in the future. */
  lemma {:induction false} StampsAreInPast(c: Settings, rounds: seq<Round>, id: Text)
    requires AllProper(rounds)
    ensures StampInPast(Run(c, rounds), id)
  {
    if rounds != [] {
      var n := |rounds| - 1;
      StampsAreInPast(c, rounds[..n], id);
      assert rounds[n] in rounds;
      RoundKeepsStamp(c, Run(c, rounds[..n]), rounds[n], id);
    }
  }

  // ---- what a round reports ----

  /** The error-free results, in order. */
  function Samples(out: seq<Sample>, errs: seq<Error>): (r: seq<Sample>)
    requires |out| == |errs|
  {
    if out == [] then []
    else
      var n := |out| - 1;
      Samples(out[..n], errs[..n]) + if errs[n].NoError? then [out[n]] else []
  }

  function CountOf(errs: seq<Error>, e: Error): nat {
    if errs == [] then 0
    else CountOf(errs[..|errs| - 1], e) + if errs[|errs| - 1] == e then 1 else 0
  }

  lemma SamplesStep(out: seq<Sample>, errs: seq<Error>, i: nat)
    requires |out| == |errs| && i < |out|
    ensures Samples(out[..i + 1], errs[..i + 1])
         == Samples(out[..i], errs[..i]) + if errs[i].NoError? then [out[i]] else []
  {
    assert out[..i + 1][..i] == out[..i] && errs[..i + 1][..i] == errs[..i];
  }

  lemma {:induction false} EveryResultCounts(out: seq<Sample>, errs: seq<Error>)
    requires |out| == |errs|
    ensures |Samples(out, errs)| + CountOf(errs, Skipped) + CountOf(errs, Failure) == |errs|
  {
    if out != [] {
      EveryResultCounts(out[..|out| - 1], errs[..|out| - 1]);
    }
  }

  /** The report of a cycle: one cell per chosen container, and the error-free ones are the
      samples. */
  ghost predicate IsReport(end: Fan, r: Round, samples: seq<Sample>, failed: nat)
    requires r.Listed?
  {
    && |end.out| == |end.errs| == |Chosen(r)|
    && samples == Samples(end.out, end.errs) && failed == CountOf(end.errs, Failure)
  }

  /** The limit cuts off the oldest end. */
  lemma LimitKeepsNewest(newest: seq<Container>)
    requires NewestFirst(newest)
    ensures var kept, rest := Kept(newest), newest[|Kept(newest)|..];
            && multiset(kept) + multiset(rest) == multiset(newest)
            && |kept| <= 50
            && (rest != [] ==> |kept| == 50)
            && (forall x, y | x in kept && y in rest :: x.created >= y.created)
  {
    assert newest == Kept(newest) + newest[|Kept(newest)|..];
  }

  /** Every container of a listing is accounted for, even when an ID comes twice: it gives a sample,
      a skip or an error, or it is a stopped one beyond the limit, and then no kept one is older. */
  lemma RoundAccounts(end: Fan, r: Round, samples: seq<Sample>, failed: nat)
    requires r.Listed? && IsReport(end, r, samples, failed)
    requires NewestFirst(r.newest) && multiset(r.newest) == multiset(StoppedOf(r.containers))
    ensures |samples| + CountOf(end.errs, Skipped) + failed == |RunningOf(r.containers)| + |Kept(r.newest)|
    ensures |Kept(r.newest)| <= 50
    ensures var rest := r.newest[|Kept(r.newest)|..];
            && multiset(Kept(r.newest)) + multiset(rest) == multiset(StoppedOf(r.containers))
            && (rest != [] ==> |Kept(r.newest)| == 50)
            && (forall x, y | x in Kept(r.newest) && y in rest :: x.created >= y.created)
  {
    EveryResultCounts(end.out, end.errs);
    LimitKeepsNewest(r.newest);
  }
}

/** The container client: its maps, and the methods of one collection cycle. */
module DockerClient {
  import opened Wrappers
  import opened Bytes
  import opened DockerModel
  import opened DockerFanout
  import opened InspectSchedule
  import opened DockerCycles

  /** sort.Slice by age, newest first. The order of containers of one age is not promised. */
  method RecentFirst(cs: seq<Container>) returns (r: seq<Container>)
    ensures NewestFirst(r) && multiset(r) == multiset(cs)
  {
    r := [];
    for i := 0 to |cs|
      invariant NewestFirst(r) && multiset(r) == multiset(cs[..i])
    {
      assert cs[..i + 1] == cs[..i] + [cs[i]];
      r := InsertByAge(r, cs[i]);
    }
    assert cs[..|cs|] == cs;
  }

  method InsertByAge(cs: seq<Container>, c: Container) returns (r: seq<Container>)
    requires NewestFirst(cs)
    ensures NewestFirst(r) && multiset(r) == multiset(cs) + multiset{c}
  {
    var k := |cs|;
    while k > 0 && cs[k - 1].created < c.created
      invariant 0 <= k <= |cs|
      invariant forall m | k <= m < |cs| :: cs[m].created < c.created
    {
      k := k - 1;
    }
    InsertNewest(cs, c, k);
    r := cs[..k] + [c] + cs[k..];
  }

  lemma InsertNewest(r: seq<Container>, c: Container, k: nat)
    requires NewestFirst(r) && k <= |r|
    requires k > 0 ==> r[k - 1].created >= c.created
    requires forall m | k <= m < |r| :: r[m].created < c.created
    ensures NewestFirst(r[..k] + [c] + r[k..])
    ensures multiset(r[..k] + [c] + r[k..]) == multiset(r) + multiset{c}
  {
    assert r == r[..k] + r[k..];
    InsertOrder(r, c, k);
  }

  lemma InsertOrder(r: seq<Container>, c: Container, k: nat)
    requires NewestFirst(r) && k <= |r|
    requires k > 0 ==> r[k - 1].created >= c.created
    requires forall m | k <= m < |r| :: r[m].created < c.created
    ensures NewestFirst(r[..k] + [c] + r[k..])
  {
    var s := r[..k] + [c] + r[k..];
    forall i, j | 0 <= i < j < |s|
      ensures s[i].created >= s[j].created
    {
      var x := if i < k then i else i - 1;
      var y := if j < k then j else j - 1;
      assert i != k ==> s[i] == r[x];
      assert j != k ==> s[j] == r[y];
    }
  }

  /** Moves the error-free results to the front of their own array. */
  method Compact(out: array<Sample>, errs: seq<Error>) returns (n: nat)
    requires out.Length == |errs|
    modifies out
    ensures n <= out.Length
    ensures out[..n] == Samples(old(out[..]), errs)
  {
    n := 0;
    ghost var before := out[..];
    for i := 0 to out.Length
      invariant n <= i
      invariant out[..n] == Samples(before[..i], errs[..i])
      invariant forall k | i <= k < out.Length :: out[k] == before[k]
    {
      SamplesStep(before, errs, i);
      if errs[i].NoError? {
        ghost var kept := out[..n];
        out[n] := out[i];
        n := n + 1;
        assert out[..n] == kept + [before[i]];
      }
    }
    assert before[..out.Length] == before && errs[..out.Length] == errs;
  }

  method Split(cs: seq<Container>) returns (running: seq<Container>, stopped: seq<Container>)
    ensures running == RunningOf(cs) && stopped == StoppedOf(cs)
  {
    running, stopped := [], [];
    for i := 0 to |cs|
      invariant running == RunningOf(cs[..i]) && stopped == StoppedOf(cs[..i])
    {
      assert cs[..i + 1][..i] == cs[..i];
      if cs[i].running {
        running := running + [cs[i]];
      } else {
        stopped := stopped + [cs[i]];
      }
    }
    assert cs[..|cs|] == cs;
  }

  /** Starts every goroutine and waits for all of them. Which one steps next is left open. */
  method FanOut(tasks: seq<Task>, cycle: int, batch: nat, start: Fan) returns (end: Fan)
    requires Inv(tasks, batch, start) && batch > 0
    ensures Fits(tasks, end) && AllGone(end) && end.held == 0
    ensures DistinctIds(tasks) ==>
              var one := InOrder(tasks, cycle, start, |tasks|);
              end.out == one.out && end.errs == one.errs && end.prev == one.prev && end.restart == one.restart
  {
    end := start;
    while exists i :: 0 <= i < |tasks| && Enabled(end, batch, i)
      invariant Inv(tasks, batch, end)
      invariant DistinctIds(tasks) ==> SameEnd(tasks, cycle, start, end)
      decreases TotalRank(end.pcs)
    {
      var i :| 0 <= i < |tasks| && Enabled(end, batch, i);
      StepKeepsInv(tasks, cycle, batch, end, i);
      if DistinctIds(tasks) {
        StepKeepsEnd(tasks, cycle, end, i);
        SameEndTransitive(tasks, cycle, start, end, Step(tasks, cycle, end, i));
      }
      end := Step(tasks, cycle, end, i);
    }
    if !AllGone(end) {
      SomeoneCanStep(tasks, batch, end);
    }
    NoHolders(end.pcs);
    if DistinctIds(tasks) {
      InOrderKeeps(tasks, cycle, start, |tasks|);
      SameEndSymmetric(tasks, cycle, start, end);
      SameEndTransitive(tasks, cycle, end, start, InOrder(tasks, cycle, start, |tasks|));
      EndsAgree(tasks, cycle, end, InOrder(tasks, cycle, start, |tasks|));
    }
  }

  lemma {:induction false} AllOutside(n: nat)
    ensures Holders(seq(n, _ => Outside)) == 0
  {
    NoHolders(seq(n, _ => Outside));
  }

  ghost predicate SameResults(a: Fan, b: Fan) { a.out == b.out && a.errs == b.errs }

  /** The end of the goroutines of a round is that of running them in order. */
  ghost predicate EndsInOrder(tasks: seq<Task>, p: Memory, end: Fan) {
    DistinctIds(tasks) ==>
      var one := InOrder(tasks, p.cycle, Ready0(p, |tasks|), |tasks|);
      end.out == one.out && end.errs == one.errs && end.prev == one.prev && end.restart == one.restart
  }

  /** So its results and its maps are those of the specification. */
  lemma EndOfRound(c: Settings, m: Memory, r: Round, tasks: seq<Task>, end: Fan)
    requires r.Listed? && r.containers != [] && ProperRound(r)
    requires tasks == TasksFor(c, Planned(m, r), r.host, Chosen(r))
    requires EndsInOrder(tasks, Planned(m, r), end)
    ensures After(c, m, r) == Memory(Planned(m, r).cycle, end.prev, end.restart)
    ensures SameResults(end, FanEnd(c, m, r))
  {
    ChosenDistinct(r);
  }

  class Client {
    const batch: nat
    const settings: Settings
    var cycle: int
    var prev: map<Text, CpuSample>
    var restart: map<Text, RestartSample>

    ghost function Kept(): Memory
      reads this
    {
      Memory(cycle, prev, restart)
    }

    constructor (batch: nat, settings: Settings)
      ensures this.batch == batch && this.settings == settings && Kept() == FRESH
    {
      this.batch, this.settings := batch, settings;
      cycle, prev, restart := 0, map[], map[];
    }

    /** Drops the entries of containers that do not run. */
    method PruneDead(cs: seq<Container>)
      modifies `prev, `restart
      ensures Kept() == Prune(old(Kept()), cs)
    {
      if |prev| == 0 && |restart| == 0 {
        return;
      }
      var live: set<Text> := {};
      for i := 0 to |cs|
        invariant live == set c | c in cs[..i] && c.running :: c.id
      {
        assert cs[..i + 1] == cs[..i] + [cs[i]];
        if cs[i].running {
          live := live + {cs[i].id};
        }
      }
      assert cs[..|cs|] == cs;
      prev := KeepOnly(prev, live);
      restart := KeepOnly(restart, live);
    }

    /** plan: counts the cycle and asks for every running container whether it is due. */
    method Plan(running: seq<Container>) returns (inspect: seq<bool>)
      modifies `cycle
      ensures cycle == old(cycle) + 1
      ensures |inspect| == |running|
      ensures forall i | 0 <= i < |running| :: inspect[i] == Due(settings, Kept(), running[i].id)
    {
      cycle := cycle + 1;
      inspect := [];
      for i := 0 to |running|
        invariant |inspect| == i
        invariant forall j | 0 <= j < i :: inspect[j] == Due(settings, Kept(), running[j].id)
      {
        var id := running[i].id;
        inspect := inspect + [NeedsInspect(Lookup(restart, id), cycle, Every(settings), SlotOf(settings, id))];
      }
    }

    /** One collection cycle. For any listing and any interleaving of the goroutines, every chosen
        container has one result cell and the samples are the error-free cells, in order. When the
        listing has every ID once, the cells and the new maps are those of the specification. */
    method Collect(listing: Option<seq<Container>>, host: Host)
      returns (failure: bool, samples: seq<Sample>, failed: nat, ghost round: Round, ghost end: Fan)
      requires batch > 0
      modifies this
      ensures failure <==> listing.None?
      ensures failure ==> round.Unlisted? && samples == [] && Kept() == old(Kept())
      ensures !failure ==>
                && round.Listed? && round.containers == listing.value && round.host == host
                && NewestFirst(round.newest) && multiset(round.newest) == multiset(StoppedOf(listing.value))
      ensures !failure && listing.value == [] ==> samples == [] && failed == 0
      ensures !failure && listing.value != [] ==> round.Listed? && IsReport(end, round, samples, failed)
      ensures listing.None? || DistinctContainers(listing.value) ==>
                && ProperRound(round)
                && Kept() == After(settings, old(Kept()), round)
                && (round.Listed? && round.containers != [] ==> SameResults(end, FanEnd(settings, old(Kept()), round)))
    {
      samples, failed, end := [], 0, Ready0(Kept(), 0);
      if listing.None? {
        round := Unlisted;
        return true, samples, failed, round, end;
      }
      var containers := listing.value;
      PruneDead(containers);
      var running, stopped := Split(containers);
      stopped := RecentFirst(stopped);
      round := Listed(containers, stopped, host);
      forall c | c in stopped
        ensures !c.running
      {
        assert c in multiset(stopped);
        assert c in StoppedOf(containers);
      }
      if |containers| == 0 {
        return false, samples, failed, round, end;
      }
      if |stopped| > MAX_STOPPED_INSPECT {
        stopped := stopped[..MAX_STOPPED_INSPECT];
      }
      samples, failed, end := CollectChosen(running, stopped, host, round, old(Kept()));
      return false, samples, failed, round, end;
    }

    /** The part of a cycle after the choice of containers: plan, goroutines and report. */
    method CollectChosen(running: seq<Container>, stopped: seq<Container>, host: Host, ghost r: Round, ghost before: Memory)
      returns (samples: seq<Sample>, failed: nat, ghost end: Fan)
      requires batch > 0 && r.Listed? && r.containers != [] && r.host == host
      requires Kept() == Prune(before, r.containers)
      requires running == RunningOf(r.containers) && stopped == DockerCycles.Kept(r.newest)
      requires forall c | c in stopped :: !c.running
      modifies this
      ensures IsReport(end, r, samples, failed)
      ensures ProperRound(r) ==>
                && Kept() == After(settings, before, r)
                && SameResults(end, FanEnd(settings, before, r))
    {
      var inspect := Plan(running);
      var tasks := Tasks(running, stopped, inspect, host);
      ghost var p := Planned(before, r);
      assert Kept() == p && tasks == TasksFor(settings, p, host, Chosen(r));
      var done := RunAll(tasks);
      end := done;
      samples, failed := Report(done.out, done.errs);
      if ProperRound(r) {
        EndOfRound(settings, before, r, tasks, done);
      }
    }

    /** Runs the goroutines on the maps of the client. */
    method RunAll(tasks: seq<Task>) returns (end: Fan)
      requires batch > 0
      modifies `prev, `restart
      ensures Fits(tasks, end) && prev == end.prev && restart == end.restart
      ensures EndsInOrder(tasks, old(Kept()), end)
    {
      AllOutside(|tasks|);
      end := FanOut(tasks, cycle, batch, Ready0(Memory(cycle, prev, restart), |tasks|));
      prev, restart := end.prev, end.restart;
    }

    method Tasks(running: seq<Container>, stopped: seq<Container>, inspect: seq<bool>, host: Host) returns (tasks: seq<Task>)
      requires |inspect| == |running|
      requires forall i | 0 <= i < |running| :: inspect[i] == Due(settings, Kept(), running[i].id)
      requires (forall c | c in running :: c.running) && (forall c | c in stopped :: !c.running)
      ensures tasks == TasksFor(settings, Kept(), host, running + stopped)
    {
      tasks := [];
      for i := 0 to |running|
        invariant |tasks| == i
        invariant forall j | 0 <= j < i :: tasks[j] == TaskFor(settings, Kept(), host, running[j])
      {
        var ct := running[i];
        assert ct in running;
        tasks := tasks + [RunningTask(ct, host.stats(ct.id), inspect[i], host.inspect(ct.id))];
      }
      for i := 0 to |stopped|
        invariant |tasks| == |running| + i
        invariant forall j | 0 <= j < |running| + i :: tasks[j] == TaskFor(settings, Kept(), host, (running + stopped)[j])
      {
        var ct := stopped[i];
        assert ct in stopped;
        tasks := tasks + [StoppedTask(ct, host.stopped(ct.id))];
      }
    }
  }

  method KeepOnly<V>(m: map<Text, V>, live: set<Text>) returns (r: map<Text, V>)
    ensures r == map id | id in m && id in live :: m[id]
  {
    r := m;
    var todo := m.Keys;
    while todo != {}
      invariant todo <= r.Keys <= m.Keys
      invariant forall id | id in r :: r[id] == m[id]
      invariant forall id | id in m && id !in todo :: id in r <==> id in live
      decreases |todo|
    {
      var id :| id in todo;
      todo := todo - {id};
      if id !in live {
        r := r - {id};
      }
    }
  }

  method Report(out: seq<Sample>, errs: seq<Error>) returns (samples: seq<Sample>, failed: nat)
    requires |out| == |errs|
    ensures samples == Samples(out, errs) && failed == CountOf(errs, Failure)
  {
    var cells := new Sample[|out|](i requires 0 <= i < |out| => out[i]);
    assert cells[..] == out;
    var n := Compact(cells, errs);
    samples := cells[..n];
    failed := 0;
    for i := 0 to |errs|
      invariant failed == CountOf(errs[..i], Failure)
    {
      assert errs[..i + 1][..i] == errs[..i];
      if errs[i].Failure? {
        failed := failed + 1;
      }
    }
    assert errs[..|errs|] == errs;
  }
}

/** While a container stays in the running list, the client follows its inspect schedule. */
module DockerStays {
  import opened Wrappers
  import opened Bytes
  import opened DockerModel
  import opened InspectSchedule
  import opened DockerCycles

  /** What a round does to the cycle number and to the restart entry of a running container. */
  ghost predicate Effect(every: nat, slot: nat, id: Text, m: Memory, r: Round, m': Memory)
    requires every > 0
  {
    && (r.Unlisted? ==> m' == m)
    && (RunsIn(r, id) ==>
          && m'.cycle == m.cycle + 1
          && Lookup(m'.restart, id) == NextEntry(Lookup(m.restart, id), m.cycle + 1, every, slot, DayOf(r, id)))
  }

  lemma RoundHasEffect(c: Settings, id: Text, m: Memory, r: Round)
    requires ProperRound(r)
    ensures Effect(Every(c), SlotOf(c, id), id, m, r, After(c, m, r))
  {
    if RunsIn(r, id) {
      RunningEntry(c, m, r, id);
    }
  }

  /** The memories of a run: one before the first round, and one after each. */
  ghost predicate IsRun(c: Settings, ms: seq<Memory>, rounds: seq<Round>) {
    |ms| == |rounds| + 1 && forall k | 0 <= k < |rounds| :: ms[k + 1] == After(c, ms[k], rounds[k])
  }

  /** The container stays in the running list; a listing may fail in between. */
  ghost predicate Stays(every: nat, slot: nat, id: Text, ms: seq<Memory>, rounds: seq<Round>) {
    && every > 0 && |ms| == |rounds| + 1
    && forall k | 0 <= k < |rounds| ::
         (rounds[k].Unlisted? || RunsIn(rounds[k], id)) && Effect(every, slot, id, ms[k], rounds[k], ms[k + 1])
  }

  lemma RunStays(c: Settings, id: Text, ms: seq<Memory>, rounds: seq<Round>)
    requires IsRun(c, ms, rounds)
    requires forall r | r in rounds :: ProperRound(r) && (r.Unlisted? || RunsIn(r, id))
    ensures Stays(Every(c), SlotOf(c, id), id, ms, rounds)
  {
    forall k | 0 <= k < |rounds|
      ensures (rounds[k].Unlisted? || RunsIn(rounds[k], id))
              && Effect(Every(c), SlotOf(c, id), id, ms[k], rounds[k], ms[k + 1])
    {
      assert rounds[k] in rounds;
      RoundHasEffect(c, id, ms[k], rounds[k]);
    }
  }

  /** The days of the container over the first n rounds. */
  function DaysTo(rounds: seq<Round>, id: Text, n: nat): seq<Day>
    requires n <= |rounds|
  {
    if n == 0 then []
    else DaysTo(rounds, id, n - 1) + if rounds[n - 1].Unlisted? then [] else [DayOf(rounds[n - 1], id)]
  }

  function Daily(days: seq<Day>, start: int): int -> Day {
    k => if 0 <= k - start - 1 < |days| then days[k - start - 1] else Day(false, None)
  }

  /** The schedule that the rounds give the container, from a memory on. */
  function StayOf(every: nat, slot: nat, id: Text, m: Memory, rounds: seq<Round>): Stay {
    Stay(every, slot, m.cycle, Lookup(m.restart, id), Daily(DaysTo(rounds, id, |rounds|), m.cycle))
  }

  lemma {:induction false} DaysPrefix(rounds: seq<Round>, id: Text, n: nat, k: nat)
    requires n <= k <= |rounds|
    ensures DaysTo(rounds, id, n) <= DaysTo(rounds, id, k)
    decreases k
  {
    if n < k {
      DaysPrefix(rounds, id, n, k - 1);
    }
  }

  lemma DayInStay(rounds: seq<Round>, id: Text, n: nat, start: int)
    requires n < |rounds| && rounds[n].Listed?
    ensures Daily(DaysTo(rounds, id, |rounds|), start)(start + |DaysTo(rounds, id, n)| + 1) == DayOf(rounds[n], id)
    ensures |DaysTo(rounds, id, n + 1)| == |DaysTo(rounds, id, n)| + 1
  {
    DaysPrefix(rounds, id, n + 1, |rounds|);
    assert DaysTo(rounds, id, n + 1)[|DaysTo(rounds, id, n)|] == DayOf(rounds[n], id);
  }

  lemma RoundIsDay(id: Text, s: Stay, m: Memory, r: Round, m': Memory)
    requires s.every > 0 && RunsIn(r, id) && Effect(s.every, s.slot, id, m, r, m')
    requires m.cycle >= s.start && s.day(m.cycle + 1) == DayOf(r, id) && Lookup(m.restart, id) == Entry(s, m.cycle)
    ensures m'.cycle == m.cycle + 1 && Lookup(m'.restart, id) == Entry(s, m'.cycle)
  {
    EntryFollows(s, m.cycle + 1, Lookup(m.restart, id), Lookup(m'.restart, id), DayOf(r, id));
  }

  /** The cycle number after n rounds counts the days; failed listings do not count. */
  lemma {:induction false} CyclesAreDays(every: nat, slot: nat, id: Text, ms: seq<Memory>, rounds: seq<Round>, n: nat)
    requires Stays(every, slot, id, ms, rounds) && n <= |rounds|
    ensures ms[n].cycle == ms[0].cycle + |DaysTo(rounds, id, n)|
    decreases n
  {
    if n > 0 {
      CyclesAreDays(every, slot, id, ms, rounds, n - 1);
      assert Effect(every, slot, id, ms[n - 1], rounds[n - 1], ms[n]);
    }
  }

  /** And the entry after n rounds is that of the schedule. */
  lemma {:induction false} StayIsSchedule(every: nat, slot: nat, id: Text, ms: seq<Memory>, rounds: seq<Round>, n: nat)
    requires Stays(every, slot, id, ms, rounds) && n <= |rounds|
    ensures ms[n].cycle == ms[0].cycle + |DaysTo(rounds, id, n)|
    ensures Lookup(ms[n].restart, id) == Entry(StayOf(every, slot, id, ms[0], rounds), ms[n].cycle)
    decreases n
  {
    var s := StayOf(every, slot, id, ms[0], rounds);
    CyclesAreDays(every, slot, id, ms, rounds, n);
    if n > 0 {
      var m, r, m' := ms[n - 1], rounds[n - 1], ms[n];
      StayIsSchedule(every, slot, id, ms, rounds, n - 1);
      assert Effect(every, slot, id, m, r, m') && (r.Unlisted? || RunsIn(r, id));
      if r.Listed? {
        DayInStay(rounds, id, n - 1, ms[0].cycle);
        RoundIsDay(id, s, m, r, m');
      }
    }
  }

  /** The round makes an inspect call for the container. */
  predicate MakesInspect(every: nat, slot: nat, id: Text, m: Memory, r: Round)
    requires every > 0
  {
    RunsIn(r, id) && DayOf(r, id).statsOk && NeedsInspect(Lookup(m.restart, id), m.cycle + 1, every, slot)
  }

  /** This is the call that the history of the container shows. */
  lemma InspectIsObserved(c: Settings, id: Text, m: Memory, r: Round)
    ensures MakesInspect(Every(c), SlotOf(c, id), id, m, r)
       <==> Observe(c, m, r, id).Inspected? || Observe(c, m, r, id).InspectError?
  {
  }

  /** And the client makes it in exactly the cycles that the schedule stamps. */
  lemma InspectIsStamp(every: nat, slot: nat, id: Text, ms: seq<Memory>, rounds: seq<Round>, n: nat)
    requires Stays(every, slot, id, ms, rounds) && n < |rounds| && rounds[n].Listed?
    ensures MakesInspect(every, slot, id, ms[n], rounds[n])
       <==> Stamped(StayOf(every, slot, id, ms[0], rounds), ms[n].cycle + 1)
  {
    StayIsSchedule(every, slot, id, ms, rounds, n);
    DayInStay(rounds, id, n, ms[0].cycle);
    StampMeans(StayOf(every, slot, id, ms[0], rounds), ms[n].cycle + 1, Lookup(ms[n].restart, id), DayOf(rounds[n], id));
  }

  lemma {:induction false} CyclesGrow(every: nat, slot: nat, id: Text, ms: seq<Memory>, rounds: seq<Round>, i: nat, j: nat)
    requires Stays(every, slot, id, ms, rounds) && i <= j <= |rounds|
    ensures ms[i].cycle <= ms[j].cycle
    ensures i < j && rounds[i].Listed? ==> ms[i].cycle < ms[j].cycle
    decreases j
  {
    if i < j {
      CyclesGrow(every, slot, id, ms, rounds, i, j - 1);
      assert Effect(every, slot, id, ms[j - 1], rounds[j - 1], ms[j]);
    }
  }

  lemma GapInStay(every: nat, slot: nat, id: Text, ms: seq<Memory>, rounds: seq<Round>, i: nat, j: nat)
    requires Stays(every, slot, id, ms, rounds) && Proper(StayOf(every, slot, id, ms[0], rounds))
    requires i < j < |rounds|
    requires MakesInspect(every, slot, id, ms[i], rounds[i]) && MakesInspect(every, slot, id, ms[j], rounds[j])
    ensures ms[j].cycle - ms[i].cycle >= every
  {
    InspectIsStamp(every, slot, id, ms, rounds, i);
    InspectIsStamp(every, slot, id, ms, rounds, j);
    CyclesGrow(every, slot, id, ms, rounds, i, j);
    InspectsAreSpaced(StayOf(every, slot, id, ms[0], rounds), ms[i].cycle + 1, ms[j].cycle + 1);
  }

  /** Every cycle number that a run of rounds passes belongs to one of them. */
  lemma {:induction false} RoundOfCycle(every: nat, slot: nat, id: Text, ms: seq<Memory>, rounds: seq<Round>, i: nat, j: nat,
                                        d: int) returns (k: nat)
    requires Stays(every, slot, id, ms, rounds) && i <= j <= |rounds|
    requires ms[i].cycle < d <= ms[j].cycle
    ensures i <= k < j && rounds[k].Listed? && ms[k].cycle + 1 == d
    ensures StayOf(every, slot, id, ms[0], rounds).day(d) == DayOf(rounds[k], id)
    decreases j
  {
    assert Effect(every, slot, id, ms[j - 1], rounds[j - 1], ms[j]);
    if d <= ms[j - 1].cycle {
      k := RoundOfCycle(every, slot, id, ms, rounds, i, j - 1, d);
    } else {
      k := j - 1;
      StayIsSchedule(every, slot, id, ms, rounds, k);
      DayInStay(rounds, id, k, ms[0].cycle);
    }
  }

  /** The cycle after this one is on the slot. */
  predicate SlotNext(cycle: int, every: nat, slot: nat)
    requires every > 0
  {
    (cycle + 1 + slot) % every == 0
  }

  /** The stats reads of the container succeed on its slot cycles, over the first n rounds. */
  ghost predicate SlotsAnswer(every: nat, slot: nat, id: Text, ms: seq<Memory>, rounds: seq<Round>, n: nat)
    requires every > 0 && |ms| == |rounds| + 1 && n <= |rounds|
  {
    forall k | 0 < k < n && rounds[k].Listed? && SlotNext(ms[k].cycle, every, slot) :: DayOf(rounds[k], id).statsOk
  }

  lemma SlotDayAnswers(every: nat, slot: nat, id: Text, ms: seq<Memory>, rounds: seq<Round>, n: nat, d: int)
    requires Stays(every, slot, id, ms, rounds) && 0 < n <= |rounds| && rounds[0].Listed?
    requires SlotsAnswer(every, slot, id, ms, rounds, n)
    requires ms[0].cycle + 1 < d <= ms[n].cycle && SlotCycle(StayOf(every, slot, id, ms[0], rounds), d)
    ensures StayOf(every, slot, id, ms[0], rounds).day(d).statsOk
  {
    assert Effect(every, slot, id, ms[0], rounds[0], ms[1]);
    var k := RoundOfCycle(every, slot, id, ms, rounds, 1, n, d);
  }

  /** From an inspect call in round 0 on: one follows within 2*every-1 cycles. */
  lemma CeilingInStay(every: nat, slot: nat, id: Text, ms: seq<Memory>, rounds: seq<Round>, n: nat) returns (k: nat)
    requires Stays(every, slot, id, ms, rounds) && Proper(StayOf(every, slot, id, ms[0], rounds))
    requires 0 < n <= |rounds| && MakesInspect(every, slot, id, ms[0], rounds[0])
    requires SlotsAnswer(every, slot, id, ms, rounds, n) && ms[n].cycle >= ms[0].cycle + 2 * every
    ensures 0 < k < n && MakesInspect(every, slot, id, ms[k], rounds[k])
    ensures ms[k].cycle - ms[0].cycle <= 2 * every - 1
  {
    var s, a := StayOf(every, slot, id, ms[0], rounds), ms[0].cycle + 1;
    InspectIsStamp(every, slot, id, ms, rounds, 0);
    NextInspect(s, a);
    var t := NextSlot(s, a);
    SlotDayAnswers(every, slot, id, ms, rounds, n, t);
    assert Effect(every, slot, id, ms[0], rounds[0], ms[1]);
    k := RoundOfCycle(every, slot, id, ms, rounds, 1, n, t);
    InspectIsStamp(every, slot, id, ms, rounds, k);
  }

  /** From an inspect call on a slot cycle in round 0 on: a window of `every` cycles holds a call. */
  lemma WindowInStay(every: nat, slot: nat, id: Text, ms: seq<Memory>, rounds: seq<Round>, w: nat, n: nat) returns (k: nat)
    requires Stays(every, slot, id, ms, rounds) && Proper(StayOf(every, slot, id, ms[0], rounds))
    requires 0 < w <= n <= |rounds| && MakesInspect(every, slot, id, ms[0], rounds[0])
    requires SlotNext(ms[0].cycle, every, slot)
    requires SlotsAnswer(every, slot, id, ms, rounds, n) && ms[n].cycle == ms[w].cycle + every
    ensures w <= k < n && MakesInspect(every, slot, id, ms[k], rounds[k])
  {
    var s, a := StayOf(every, slot, id, ms[0], rounds), ms[0].cycle + 1;
    InspectIsStamp(every, slot, id, ms, rounds, 0);
    CyclesGrow(every, slot, id, ms, rounds, 0, w);
    forall d | a < d <= ms[n].cycle && SlotCycle(s, d)
      ensures s.day(d).statsOk
    {
      SlotDayAnswers(every, slot, id, ms, rounds, n, d);
    }
    ExactlyOncePerWindow(s, a, ms[w].cycle);
    var c :| ms[w].cycle < c <= ms[w].cycle + every && Stamped(s, c);
    k := RoundOfCycle(every, slot, id, ms, rounds, w, n, c);
    InspectIsStamp(every, slot, id, ms, rounds, k);
  }

  // ---- the inspect calls of a history ----

  predicate IsCall(o: Seen) { o.Inspected? || o.InspectError? }

  /** Round k of the run makes an inspect call for the container. */
  predicate InspectAt(c: Settings, rounds: seq<Round>, id: Text, k: nat)
    requires k < |rounds|
  {
    k < |History(c, rounds, id)| && IsCall(History(c, rounds, id)[k])
  }

  /** In rounds i to j the container is never listed as not running. A listing may fail. */
  predicate StaysOn(c: Settings, rounds: seq<Round>, id: Text, i: nat, j: nat)
    requires j < |rounds|
  {
    |History(c, rounds, id)| == |rounds| && forall k | i <= k <= j :: !History(c, rounds, id)[k].NotRunning?
  }

  /** The cycle number after the first k rounds. */
  function CycleAfter(c: Settings, rounds: seq<Round>, k: nat): int
    requires k <= |rounds|
  {
    Run(c, rounds[..k]).cycle
  }

  /** Round k falls on the slot of the container. */
  predicate OnSlot(c: Settings, rounds: seq<Round>, id: Text, k: nat)
    requires k < |rounds|
  {
    rounds[k].Listed? && SlotNext(CycleAfter(c, rounds, k), Every(c), SlotOf(c, id))
  }

  lemma {:induction false} HistoryAt(c: Settings, rounds: seq<Round>, id: Text, k: nat)
    requires k < |rounds|
    ensures |History(c, rounds, id)| == |rounds|
    ensures History(c, rounds, id)[k] == Observe(c, Run(c, rounds[..k]), rounds[k], id)
  {
    var n := |rounds| - 1;
    HistoryLength(c, rounds, id);
    HistoryLength(c, rounds[..n], id);
    if k < n {
      HistoryAt(c, rounds[..n], id, k);
      assert rounds[..n][..k] == rounds[..k];
    }
  }

  /** The memories from round i on. */
  function MemoriesFrom(c: Settings, rounds: seq<Round>, i: nat): (ms: seq<Memory>)
    requires i <= |rounds|
    ensures |ms| == |rounds| - i + 1
    ensures forall k | 0 <= k < |ms| :: ms[k] == Run(c, rounds[..i + k])
  {
    seq(|rounds| - i + 1, k requires 0 <= k <= |rounds| - i => Run(c, rounds[..i + k]))
  }

  lemma RunStep(c: Settings, rounds: seq<Round>, k: nat)
    requires k < |rounds|
    ensures Run(c, rounds[..k + 1]) == After(c, Run(c, rounds[..k]), rounds[k])
  {
    assert rounds[..k + 1][..k] == rounds[..k];
  }

  /** Round i + k of a part that begins with round i. */
  lemma PartAt(c: Settings, rounds: seq<Round>, i: nat, j: nat, k: nat)
    requires i + k <= j < |rounds|
    ensures var ms, part := MemoriesFrom(c, rounds[..j + 1], i), rounds[i..j + 1];
            part[k] == rounds[i + k] && ms[k] == Run(c, rounds[..i + k]) && ms[k + 1] == After(c, ms[k], part[k])
  {
    assert rounds[..j + 1][..i + k] == rounds[..i + k] && rounds[..j + 1][..i + k + 1] == rounds[..i + k + 1];
    RunStep(c, rounds, i + k);
  }

  lemma ListedRuns(c: Settings, rounds: seq<Round>, id: Text, k: nat)
    requires AllProper(rounds) && k < |rounds| && StaysOn(c, rounds, id, k, k)
    ensures ProperRound(rounds[k]) && (rounds[k].Unlisted? || RunsIn(rounds[k], id))
  {
    assert rounds[k] in rounds;
    HistoryAt(c, rounds, id, k);
  }

  lemma PartIsRun(c: Settings, rounds: seq<Round>, i: nat, j: nat)
    requires i <= j < |rounds|
    ensures IsRun(c, MemoriesFrom(c, rounds[..j + 1], i), rounds[i..j + 1])
  {
    var ms, part := MemoriesFrom(c, rounds[..j + 1], i), rounds[i..j + 1];
    forall k | 0 <= k < |part|
      ensures ms[k + 1] == After(c, ms[k], part[k])
    {
      PartAt(c, rounds, i, j, k);
    }
  }

  lemma PartIsListed(c: Settings, rounds: seq<Round>, id: Text, i: nat, j: nat)
    requires AllProper(rounds) && i <= j < |rounds| && StaysOn(c, rounds, id, i, j)
    ensures forall r | r in rounds[i..j + 1] :: ProperRound(r) && (r.Unlisted? || RunsIn(r, id))
  {
    forall r | r in rounds[i..j + 1]
      ensures ProperRound(r) && (r.Unlisted? || RunsIn(r, id))
    {
      var k :| i <= k <= j && rounds[k] == r;
      ListedRuns(c, rounds, id, k);
    }
  }

  lemma PartIsProper(c: Settings, rounds: seq<Round>, id: Text, i: nat, j: nat, ms: seq<Memory>, part: seq<Round>)
    requires AllProper(rounds) && i <= j < |rounds| && ms != [] && ms[0] == Run(c, rounds[..i])
    ensures Proper(StayOf(Every(c), SlotOf(c, id), id, ms[0], part))
  {
    StampsAreInPast(c, rounds[..i], id);
  }

  /** Rounds i to j of a history in which the container stays are a stay of the schedule. */
  lemma HistoryStays(c: Settings, rounds: seq<Round>, id: Text, i: nat, j: nat)
    requires AllProper(rounds) && i <= j < |rounds| && StaysOn(c, rounds, id, i, j)
    ensures var ms, part := MemoriesFrom(c, rounds[..j + 1], i), rounds[i..j + 1];
            && Stays(Every(c), SlotOf(c, id), id, ms, part)
            && Proper(StayOf(Every(c), SlotOf(c, id), id, ms[0], part))
  {
    var ms, part := MemoriesFrom(c, rounds[..j + 1], i), rounds[i..j + 1];
    PartIsRun(c, rounds, i, j);
    PartIsListed(c, rounds, id, i, j);
    RunStays(c, id, ms, part);
    PartAt(c, rounds, i, j, 0);
    PartIsProper(c, rounds, id, i, j, ms, part);
  }

  /** Round k of a run, against its memory and its round in a part that begins with round i. */
  ghost predicate AgreesAt(c: Settings, rounds: seq<Round>, id: Text, i: nat, ms: seq<Memory>, part: seq<Round>, k: nat)
    requires i <= k < |rounds| && |ms| == |part| + 1
  {
    && k - i < |part| && part[k - i] == rounds[k]
    && ms[k - i].cycle == CycleAfter(c, rounds, k) && ms[k - i + 1].cycle == CycleAfter(c, rounds, k + 1)
    && (InspectAt(c, rounds, id, k) <==> MakesInspect(Every(c), SlotOf(c, id), id, ms[k - i], part[k - i]))
  }

  lemma CallsAgree(c: Settings, rounds: seq<Round>, id: Text, i: nat, j: nat, k: nat)
    requires i <= k <= j < |rounds|
    ensures AgreesAt(c, rounds, id, i, MemoriesFrom(c, rounds[..j + 1], i), rounds[i..j + 1], k)
  {
    assert rounds[..j + 1][..k] == rounds[..k] && rounds[..j + 1][..k + 1] == rounds[..k + 1];
    HistoryAt(c, rounds, id, k);
    InspectIsObserved(c, id, Run(c, rounds[..k]), rounds[k]);
  }

  /** Rounds i to j of a run, as a stay: its memories and rounds say what the run and the history
      say. */
  ghost predicate IsPart(c: Settings, rounds: seq<Round>, id: Text, i: nat, j: nat, ms: seq<Memory>, part: seq<Round>)
    requires i <= j < |rounds|
  {
    && |part| == j + 1 - i && |ms| == |part| + 1
    && forall k | i <= k <= j :: AgreesAt(c, rounds, id, i, ms, part, k)
  }

  lemma PartOfRun(c: Settings, rounds: seq<Round>, id: Text, i: nat, j: nat) returns (ms: seq<Memory>, part: seq<Round>)
    requires AllProper(rounds) && i <= j < |rounds| && StaysOn(c, rounds, id, i, j)
    ensures IsPart(c, rounds, id, i, j, ms, part)
    ensures Stays(Every(c), SlotOf(c, id), id, ms, part)
    ensures Proper(StayOf(Every(c), SlotOf(c, id), id, ms[0], part))
  {
    ms, part := MemoriesFrom(c, rounds[..j + 1], i), rounds[i..j + 1];
    HistoryStays(c, rounds, id, i, j);
    forall k | i <= k <= j
      ensures AgreesAt(c, rounds, id, i, ms, part, k)
    {
      CallsAgree(c, rounds, id, i, j, k);
    }
  }

  lemma CallOfPart(c: Settings, rounds: seq<Round>, id: Text, i: nat, j: nat, ms: seq<Memory>, part: seq<Round>, k: nat)
    requires i <= k <= j < |rounds| && IsPart(c, rounds, id, i, j, ms, part)
    ensures part[k - i] == rounds[k]
    ensures ms[k - i].cycle == CycleAfter(c, rounds, k) && ms[k - i + 1].cycle == CycleAfter(c, rounds, k + 1)
    ensures InspectAt(c, rounds, id, k) <==> MakesInspect(Every(c), SlotOf(c, id), id, ms[k - i], part[k - i])
  {
    assert AgreesAt(c, rounds, id, i, ms, part, k);
  }

  /** Over every run, while a container stays in the running list, two inspect calls that its history
      shows are at least `every` cycles apart. */
  lemma ClientInspectsAreSpaced(c: Settings, rounds: seq<Round>, id: Text, i: nat, j: nat)
    requires AllProper(rounds) && i < j < |rounds| && StaysOn(c, rounds, id, i, j)
    requires InspectAt(c, rounds, id, i) && InspectAt(c, rounds, id, j)
    ensures CycleAfter(c, rounds, j) - CycleAfter(c, rounds, i) >= Every(c)
  {
    var ms, part := PartOfRun(c, rounds, id, i, j);
    CallOfPart(c, rounds, id, i, j, ms, part, i);
    CallOfPart(c, rounds, id, i, j, ms, part, j);
    GapInStay(Every(c), SlotOf(c, id), id, ms, part, 0, j - i);
  }

  /** The stats reads of the container succeed on its slots in rounds i + 1 to j. */
  ghost predicate SlotsRead(c: Settings, rounds: seq<Round>, id: Text, i: nat, j: nat)
    requires j < |rounds|
  {
    forall k | i < k <= j && OnSlot(c, rounds, id, k) :: DayOf(rounds[k], id).statsOk
  }

  lemma SlotsOfPart(c: Settings, rounds: seq<Round>, id: Text, i: nat, j: nat, ms: seq<Memory>, part: seq<Round>)
    requires i <= j < |rounds| && IsPart(c, rounds, id, i, j, ms, part) && SlotsRead(c, rounds, id, i, j)
    ensures SlotsAnswer(Every(c), SlotOf(c, id), id, ms, part, j + 1 - i)
  {
    forall k | 0 < k < j + 1 - i && part[k].Listed? && SlotNext(ms[k].cycle, Every(c), SlotOf(c, id))
      ensures DayOf(part[k], id).statsOk
    {
      CallOfPart(c, rounds, id, i, j, ms, part, i + k);
      assert OnSlot(c, rounds, id, i + k);
    }
  }

  /** And after an inspect call the next one comes within 2*every-1 cycles, when the stats reads on
      the slots of the container succeed. */
  lemma ClientInspectsComeBack(c: Settings, rounds: seq<Round>, id: Text, i: nat, j: nat) returns (k: nat)
    requires AllProper(rounds) && i < j < |rounds| && StaysOn(c, rounds, id, i, j)
    requires InspectAt(c, rounds, id, i) && SlotsRead(c, rounds, id, i, j)
    requires CycleAfter(c, rounds, j + 1) - CycleAfter(c, rounds, i) >= 2 * Every(c)
    ensures i < k <= j && InspectAt(c, rounds, id, k)
    ensures CycleAfter(c, rounds, k) - CycleAfter(c, rounds, i) <= 2 * Every(c) - 1
  {
    var ms, part := PartOfRun(c, rounds, id, i, j);
    CallOfPart(c, rounds, id, i, j, ms, part, i);
    CallOfPart(c, rounds, id, i, j, ms, part, j);
    SlotsOfPart(c, rounds, id, i, j, ms, part);
    var d := CeilingInStay(Every(c), SlotOf(c, id), id, ms, part, j + 1 - i);
    k := i + d;
    CallOfPart(c, rounds, id, i, j, ms, part, k);
  }

  /** The window of a part, against that of the run. */
  lemma WindowOfPart(c: Settings, rounds: seq<Round>, id: Text, i: nat, w: nat, j: nat, ms: seq<Memory>, part: seq<Round>)
    requires i < w <= j < |rounds| && IsPart(c, rounds, id, i, j, ms, part)
    requires InspectAt(c, rounds, id, i) && OnSlot(c, rounds, id, i)
    requires CycleAfter(c, rounds, j + 1) == CycleAfter(c, rounds, w) + Every(c)
    ensures MakesInspect(Every(c), SlotOf(c, id), id, ms[0], part[0])
    ensures SlotNext(ms[0].cycle, Every(c), SlotOf(c, id))
    ensures ms[j + 1 - i].cycle == ms[w - i].cycle + Every(c)
  {
    CallOfPart(c, rounds, id, i, j, ms, part, i);
    CallOfPart(c, rounds, id, i, j, ms, part, w);
    CallOfPart(c, rounds, id, i, j, ms, part, j);
  }

  lemma MadeIsCall(c: Settings, rounds: seq<Round>, id: Text, i: nat, j: nat, ms: seq<Memory>, part: seq<Round>, d: nat)
    requires i <= j < |rounds| && IsPart(c, rounds, id, i, j, ms, part) && d < |part|
    requires MakesInspect(Every(c), SlotOf(c, id), id, ms[d], part[d])
    ensures i + d <= j && InspectAt(c, rounds, id, i + d)
  {
    assert AgreesAt(c, rounds, id, i, ms, part, i + d);
  }

  /** A part that begins with a call on the slot, with successful reads on the slots, and whose rounds
      from w on span the gap. */
  ghost predicate WindowReady(every: nat, slot: nat, id: Text, ms: seq<Memory>, part: seq<Round>, w: nat) {
    && Stays(every, slot, id, ms, part) && Proper(StayOf(every, slot, id, ms[0], part)) && 0 < w < |part|
    && MakesInspect(every, slot, id, ms[0], part[0]) && SlotNext(ms[0].cycle, every, slot)
    && SlotsAnswer(every, slot, id, ms, part, |part|) && ms[|part|].cycle == ms[w].cycle + every
  }

  lemma CallInPart(every: nat, slot: nat, id: Text, ms: seq<Memory>, part: seq<Round>, w: nat) returns (d: nat)
    requires WindowReady(every, slot, id, ms, part, w)
    ensures w <= d < |part| && MakesInspect(every, slot, id, ms[d], part[d])
  {
    d := WindowInStay(every, slot, id, ms, part, w, |part|);
  }

  lemma PartIsReady(c: Settings, rounds: seq<Round>, id: Text, i: nat, w: nat, j: nat, ms: seq<Memory>, part: seq<Round>)
    requires i < w <= j < |rounds| && IsPart(c, rounds, id, i, j, ms, part)
    requires Stays(Every(c), SlotOf(c, id), id, ms, part) && Proper(StayOf(Every(c), SlotOf(c, id), id, ms[0], part))
    requires InspectAt(c, rounds, id, i) && OnSlot(c, rounds, id, i) && SlotsRead(c, rounds, id, i, j)
    requires CycleAfter(c, rounds, j + 1) == CycleAfter(c, rounds, w) + Every(c)
    ensures WindowReady(Every(c), SlotOf(c, id), id, ms, part, w - i)
  {
    WindowOfPart(c, rounds, id, i, w, j, ms, part);
    SlotsOfPart(c, rounds, id, i, j, ms, part);
  }

  lemma CallInReadyPart(c: Settings, rounds: seq<Round>, id: Text, i: nat, w: nat, j: nat, ms: seq<Memory>,
                        part: seq<Round>)
    returns (k: nat)
    requires i < w <= j < |rounds| && IsPart(c, rounds, id, i, j, ms, part)
    requires WindowReady(Every(c), SlotOf(c, id), id, ms, part, w - i)
    ensures w <= k <= j && InspectAt(c, rounds, id, k)
  {
    var d := CallInPart(Every(c), SlotOf(c, id), id, ms, part, w - i);
    MadeIsCall(c, rounds, id, i, j, ms, part, d);
    k := i + d;
  }

  lemma CallInWindow(c: Settings, rounds: seq<Round>, id: Text, i: nat, w: nat, j: nat) returns (k: nat)
    requires AllProper(rounds) && i < w <= j < |rounds| && StaysOn(c, rounds, id, i, j)
    requires InspectAt(c, rounds, id, i) && OnSlot(c, rounds, id, i) && SlotsRead(c, rounds, id, i, j)
    requires CycleAfter(c, rounds, j + 1) == CycleAfter(c, rounds, w) + Every(c)
    ensures w <= k <= j && InspectAt(c, rounds, id, k)
  {
    var ms, part := PartOfRun(c, rounds, id, i, j);
    PartIsReady(c, rounds, id, i, w, j, ms, part);
    k := CallInReadyPart(c, rounds, id, i, w, j, ms, part);
  }

  lemma SpanInStay(every: nat, slot: nat, id: Text, ms: seq<Memory>, rounds: seq<Round>, a: nat, b: nat)
    requires Stays(every, slot, id, ms, rounds) && Proper(StayOf(every, slot, id, ms[0], rounds)) && a < b < |rounds|
    requires MakesInspect(every, slot, id, ms[a], rounds[a]) && MakesInspect(every, slot, id, ms[b], rounds[b])
    ensures ms[|rounds|].cycle > ms[0].cycle + every
  {
    GapInStay(every, slot, id, ms, rounds, a, b);
    CyclesGrow(every, slot, id, ms, rounds, 0, a);
    CyclesGrow(every, slot, id, ms, rounds, b, |rounds|);
  }

  lemma CallIsMade(c: Settings, rounds: seq<Round>, id: Text, i: nat, j: nat, ms: seq<Memory>, part: seq<Round>, k: nat)
    requires i <= k <= j < |rounds| && IsPart(c, rounds, id, i, j, ms, part) && InspectAt(c, rounds, id, k)
    ensures MakesInspect(Every(c), SlotOf(c, id), id, ms[k - i], part[k - i])
  {
    assert AgreesAt(c, rounds, id, i, ms, part, k);
  }

  lemma EdgesOfPart(c: Settings, rounds: seq<Round>, id: Text, i: nat, j: nat, ms: seq<Memory>, part: seq<Round>)
    requires i <= j < |rounds| && IsPart(c, rounds, id, i, j, ms, part)
    ensures ms[0].cycle == CycleAfter(c, rounds, i) && ms[|part|].cycle == CycleAfter(c, rounds, j + 1)
  {
    assert AgreesAt(c, rounds, id, i, ms, part, i) && AgreesAt(c, rounds, id, i, ms, part, j);
  }

  lemma CallsSpanMore(c: Settings, rounds: seq<Round>, id: Text, w: nat, j: nat, a: nat, b: nat)
    requires AllProper(rounds) && w <= a < b <= j < |rounds| && StaysOn(c, rounds, id, w, j)
    requires InspectAt(c, rounds, id, a) && InspectAt(c, rounds, id, b)
    ensures CycleAfter(c, rounds, j + 1) > CycleAfter(c, rounds, w) + Every(c)
  {
    var ms, part := PartOfRun(c, rounds, id, w, j);
    CallIsMade(c, rounds, id, w, j, ms, part, a);
    CallIsMade(c, rounds, id, w, j, ms, part, b);
    SpanInStay(Every(c), SlotOf(c, id), id, ms, part, a - w, b - w);
    EdgesOfPart(c, rounds, id, w, j, ms, part);
  }

  /** Once an inspect call fell on a slot, and while the stats reads on the slots succeed, any rounds
      w to j that span `every` cycles, failed listings among them or not, hold exactly one inspect
      call for the container. */
  lemma ClientInspectsOncePerWindow(c: Settings, rounds: seq<Round>, id: Text, i: nat, w: nat, j: nat) returns (k: nat)
    requires AllProper(rounds) && i < w <= j < |rounds| && StaysOn(c, rounds, id, i, j)
    requires InspectAt(c, rounds, id, i) && OnSlot(c, rounds, id, i) && SlotsRead(c, rounds, id, i, j)
    requires CycleAfter(c, rounds, j + 1) == CycleAfter(c, rounds, w) + Every(c)
    ensures w <= k <= j && InspectAt(c, rounds, id, k)
    ensures forall m | w <= m <= j && InspectAt(c, rounds, id, m) :: m == k
  {
    k := CallInWindow(c, rounds, id, i, w, j);
    forall m | w <= m <= j && InspectAt(c, rounds, id, m) && m != k
      ensures false
    {
      CallsSpanMore(c, rounds, id, w, j, if m < k then m else k, if m < k then k else m);
    }
  }
}

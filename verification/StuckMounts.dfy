/** The deadline guard and the mounts together: what happens when the read of one mount never
    returns. */
module StuckMounts {
  import opened Bytes
  import opened Disks
  import D = DeadlineGuard

  const DISK_PREFIX: Text := [100, 105, 115, 107, 58]

  /** The name under which the guard runs the read of a mount. */
  function DiskName(mount: Text): Text { DISK_PREFIX + mount }

  /** How the collector takes what the guard returns. A worker answers with a reading or an error. */
  function ReadOf(r: D.Reply<Read>): Read {
    match r
    case Value(_, v) => v
    case TimedOut(_) => NoAnswer
    case Refused(_) => NoAnswer
    case Stopped(_) => Broken
  }

  /** Worker i is in its read of the mount. */
  predicate Reads(s: D.State<Read>, i: nat, x: Text) {
    D.InPhase(s, i, D.Running) && s.workers[i].name == DiskName(x)
  }

  predicate NeverReturns(steps: seq<D.Step<Read>>, i: nat) {
    forall k | 0 <= k < |steps| :: !(steps[k].FnReturns? && steps[k].id == i)
  }

  // ---- the guard ----

  ghost predicate Stuck(s: D.State<Read>, i: nat, x: Text) { D.Inv(s) && Reads(s, i, x) }

  lemma StepKeepsReading(s: D.State<Read>, step: D.Step<Read>, i: nat, x: Text)
    requires Stuck(s, i, x) && D.Enabled(s, step) && !(step.FnReturns? && step.id == i)
    ensures Stuck(D.Apply(s, step), i, x)
  {
    D.StepKeepsInv(s, step);
  }

  /** The states of a run: after its first p steps. */
  ghost function StateAt(s: D.State<Read>, steps: seq<D.Step<Read>>, p: nat): D.State<Read>
    requires D.Legal(s, steps) && p <= |steps|
    decreases p
  {
    if p == 0 then s else StateAt(D.Apply(s, steps[0]), steps[1..], p - 1)
  }

  lemma {:induction false} ReadingLasts(s: D.State<Read>, steps: seq<D.Step<Read>>, p: nat, i: nat, x: Text)
    requires Stuck(s, i, x) && D.Legal(s, steps) && NeverReturns(steps, i) && p <= |steps|
    ensures Stuck(StateAt(s, steps, p), i, x)
    decreases p
  {
    if p > 0 {
      assert !(steps[0].FnReturns? && steps[0].id == i);
      assert NeverReturns(steps[1..], i);
      StepKeepsReading(s, steps[0], i, x);
      ReadingLasts(D.Apply(s, steps[0]), steps[1..], p - 1, i, x);
    }
  }

  /** While the read runs, the next call for the mount is refused at once, and starts no worker. */
  lemma NextReadIsRefused(s: D.State<Read>, i: nat, x: Text)
    requires Stuck(s, i, x) && s.caller.Idle?
    ensures D.Apply(s, D.Begin(DiskName(x))) == s.(replies := s.replies + [D.Refused(DiskName(x))])
    ensures forall j | 0 <= j < |s.workers| && s.workers[j].name == DiskName(x) :: j <= i
  {
    assert s.workers[i].Active();
  }

  /** No reply of call i is an answer. */
  ghost predicate OwnSilent(s: D.State<Read>, i: nat) {
    forall k | 0 <= k < |s.replies| && D.Answers(s.replies[k], i) :: ReadOf(s.replies[k]).NoAnswer? || i in s.ended
  }

  /** And what the stuck call itself returns is never an answer: it is a timeout, unless the context
      of its caller ended. */
  lemma OwnReplyIsSilent(s: D.State<Read>, i: nat, x: Text)
    requires Stuck(s, i, x)
    ensures OwnSilent(s, i)
  {
    forall k | 0 <= k < |s.replies| && D.Answers(s.replies[k], i)
      ensures ReadOf(s.replies[k]).NoAnswer? || i in s.ended
    {
      assert s.replies[k] in s.replies;
    }
  }

  /** The read of this line begins in this state of the guard: when its call returns at once, the
      line has what that call gives; else a worker decides. */
  predicate FollowsGuard(row: Row, s: D.State<Read>) {
    s.caller.Idle? &&
    var begun := D.Apply(s, D.Begin(DiskName(row.part.mount)));
    begun.caller.Idle? ==> begun.replies != [] && row.result == ReadOf(begun.replies[|begun.replies| - 1])
  }

  /** The lines of the tables take their results from the guard, each in a state of the run. */
  ghost predicate FollowRun(tables: seq<Table>, at: (nat, nat) -> nat, s: D.State<Read>, steps: seq<D.Step<Read>>)
    requires D.Legal(s, steps)
  {
    forall t, k | 0 <= t < |tables| && tables[t].Listed? && 0 <= k < |tables[t].rows| ::
      at(t, k) <= |steps| && FollowsGuard(tables[t].rows[k], StateAt(s, steps, at(t, k)))
  }

  predicate OfMount(r: Row, x: Text) { r.part.mount == x && !r.part.skipped }

  /** A read that never returns: on the whole run after it, whether the mount stays in the table or
      leaves and comes back, no further worker is started for the mount, every further read of it
      counts as a timeout, and so does its own, unless the context of its caller ended. */
  lemma StuckReadIsAlone(s: D.State<Read>, steps: seq<D.Step<Read>>, i: nat, x: Text, tables: seq<Table>,
                         at: (nat, nat) -> nat)
    requires D.Reachable(s) && Reads(s, i, x) && D.Legal(s, steps) && NeverReturns(steps, i)
    requires FollowRun(tables, at, s, steps)
    ensures forall p, j | 0 <= p <= |steps| && 0 <= j < |StateAt(s, steps, p).workers| ::
              StateAt(s, steps, p).workers[j].name == DiskName(x) ==> j <= i
    ensures forall t | 0 <= t < |tables| && tables[t].Listed? :: AllSilent(tables[t].rows, x)
    ensures forall p | 0 <= p <= |steps| :: OwnSilent(StateAt(s, steps, p), i)
  {
    D.ReachableInv(s);
    forall p | 0 <= p <= |steps|
      ensures OwnSilent(StateAt(s, steps, p), i)
    {
      ReadingLasts(s, steps, p, i, x);
      OwnReplyIsSilent(StateAt(s, steps, p), i, x);
    }
    forall p, j | 0 <= p <= |steps| && 0 <= j < |StateAt(s, steps, p).workers|
      ensures StateAt(s, steps, p).workers[j].name == DiskName(x) ==> j <= i
    {
      ReadingLasts(s, steps, p, i, x);
      assert StateAt(s, steps, p).workers[i].Active();
    }
    forall t, k | 0 <= t < |tables| && tables[t].Listed? && 0 <= k < |tables[t].rows| && OfMount(tables[t].rows[k], x)
      ensures tables[t].rows[k].result.NoAnswer?
    {
      ReadingLasts(s, steps, at(t, k), i, x);
      var now := StateAt(s, steps, at(t, k));
      assert FollowsGuard(tables[t].rows[k], now);
      NextReadIsRefused(now, i, x);
    }
  }

  // ---- the mount ----

  predicate AllSilent(rows: seq<Row>, x: Text) {
    forall k | 0 <= k < |rows| && OfMount(rows[k], x) :: rows[k].result.NoAnswer?
  }

  predicate Lists(rows: seq<Row>, x: Text) {
    exists k :: 0 <= k < |rows| && OfMount(rows[k], x)
  }

  lemma VisitOfSilent(a: Progress, row: Row, x: Text)
    requires OfMount(row, x) ==> row.result.NoAnswer?
    requires TimeoutsOf(a.mounts, x) <= MAX_MOUNT_TIMEOUTS
    ensures var b := Visit(a, row.part, row.result);
            && TimeoutsOf(a.mounts, x) <= TimeoutsOf(b.mounts, x) <= MAX_MOUNT_TIMEOUTS
            && (OfMount(row, x) && TimeoutsOf(a.mounts, x) < MAX_MOUNT_TIMEOUTS ==>
                  TimeoutsOf(b.mounts, x) == TimeoutsOf(a.mounts, x) + 1)
            && a.live <= b.live && (OfMount(row, x) ==> x in b.live)
  {
  }

  lemma {:induction false} VisitAllOfSilent(a: Progress, rows: seq<Row>, x: Text)
    requires AllSilent(rows, x) && TimeoutsOf(a.mounts, x) <= MAX_MOUNT_TIMEOUTS
    ensures var b := VisitAll(a, rows);
            && TimeoutsOf(a.mounts, x) <= TimeoutsOf(b.mounts, x) <= MAX_MOUNT_TIMEOUTS
            && (Lists(rows, x) ==> x in b.live)
            && (Lists(rows, x) && TimeoutsOf(a.mounts, x) < MAX_MOUNT_TIMEOUTS ==>
                  TimeoutsOf(a.mounts, x) < TimeoutsOf(b.mounts, x))
  {
    if rows != [] {
      var n := |rows| - 1;
      VisitAllOfSilent(a, rows[..n], x);
      VisitOfSilent(VisitAll(a, rows[..n]), rows[n], x);
      if !OfMount(rows[n], x) && Lists(rows, x) {
        var k :| 0 <= k < |rows| && OfMount(rows[k], x);
        assert OfMount(rows[..n][k], x);
      }
    }
  }

  lemma CycleOfSilent(m: MountState, rows: seq<Row>, x: Text)
    requires AllSilent(rows, x) && Lists(rows, x) && TimeoutsOf(m, x) <= MAX_MOUNT_TIMEOUTS
    ensures var m' := Cycle(m, rows).mounts;
            && TimeoutsOf(m, x) <= TimeoutsOf(m', x) <= MAX_MOUNT_TIMEOUTS
            && (TimeoutsOf(m, x) < MAX_MOUNT_TIMEOUTS ==> TimeoutsOf(m, x) < TimeoutsOf(m', x))
  {
    VisitAllOfSilent(Start(m), rows, x);
  }

  ghost predicate StaysListed(tables: seq<Table>, x: Text) {
    forall t | 0 <= t < |tables| :: tables[t].Listed? && Lists(tables[t].rows, x)
  }

  lemma {:induction false} RunOfSilent(m: MountState, tables: seq<Table>, x: Text)
    requires StaysListed(tables, x) && forall t | 0 <= t < |tables| :: AllSilent(tables[t].rows, x)
    requires TimeoutsOf(m, x) <= MAX_MOUNT_TIMEOUTS
    ensures TimeoutsOf(Run(m, tables), x) <= MAX_MOUNT_TIMEOUTS
    ensures TimeoutsOf(m, x) + |tables| >= MAX_MOUNT_TIMEOUTS ==> TimeoutsOf(Run(m, tables), x) == MAX_MOUNT_TIMEOUTS
    ensures TimeoutsOf(m, x) + |tables| <= MAX_MOUNT_TIMEOUTS ==>
              TimeoutsOf(Run(m, tables), x) >= TimeoutsOf(m, x) + |tables|
  {
    if tables != [] {
      var n := |tables| - 1;
      RunOfSilent(m, tables[..n], x);
      CycleOfSilent(Run(m, tables[..n]), tables[n].rows, x);
    }
  }

  // ---- the record of the run ----

  /** Nothing but additions, none of which says that the mount is gone. */
  ghost predicate Extends(log: seq<Event>, log': seq<Event>, x: Text) {
    && log <= log'
    && (forall j | |log| <= j < |log'| && log'[j].CycleEnd? :: x in log'[j].live)
  }

  lemma ExtendsBoth(a: seq<Event>, b: seq<Event>, c: seq<Event>, x: Text)
    requires Extends(a, b, x) && Extends(b, c, x)
    ensures Extends(a, c, x)
  {
  }

  lemma {:induction false} VisitAllExtends(a: Progress, rows: seq<Row>, x: Text)
    ensures Extends(a.mounts.log, VisitAll(a, rows).mounts.log, x)
  {
    if rows != [] {
      var n := |rows| - 1;
      var b := VisitAll(a, rows[..n]);
      VisitAllExtends(a, rows[..n], x);
      assert Extends(b.mounts.log, Visit(b, rows[n].part, rows[n].result).mounts.log, x);
      ExtendsBoth(a.mounts.log, b.mounts.log, VisitAll(a, rows).mounts.log, x);
    }
  }

  lemma {:induction false} RunExtends(m: MountState, tables: seq<Table>, x: Text)
    requires Truthful(m) && StaysListed(tables, x)
    requires forall t | 0 <= t < |tables| :: AllSilent(tables[t].rows, x)
    ensures Extends(m.log, Run(m, tables).log, x)
  {
    if tables != [] {
      var n := |tables| - 1;
      var before, rows := Run(m, tables[..n]), tables[n].rows;
      RunExtends(m, tables[..n], x);
      RunOnKeepsFaith(m, tables[..n]);
      assert TimeoutsOf(before, x) <= MAX_MOUNT_TIMEOUTS;
      VisitAllExtends(Start(before), rows, x);
      VisitAllOfSilent(Start(before), rows, x);
      var visited := VisitAll(Start(before), rows);
      assert Extends(visited.mounts.log, Cycle(before, rows).mounts.log, x);
      ExtendsBoth(before.log, visited.mounts.log, Cycle(before, rows).mounts.log, x);
      ExtendsBoth(m.log, before.log, Cycle(before, rows).mounts.log, x);
    }
  }

  /** Where the count comes to the limit, the report follows. */
  lemma {:induction false} LimitIsReported(log: seq<Event>, x: Text, a: nat, b: nat) returns (j: nat)
    requires Disciplined(log) && a <= b <= |log|
    requires TimeoutsSince(log[..a], x) < MAX_MOUNT_TIMEOUTS == TimeoutsSince(log[..b], x)
    ensures a <= j < |log| && log[j] == StuckReport(x)
    decreases b
  {
    assert log[..b] == log[..b - 1] + [log[b - 1]];
    LogAppend(log[..b - 1], log[b - 1], x);
    if TimeoutsSince(log[..b - 1], x) == MAX_MOUNT_TIMEOUTS {
      j := LimitIsReported(log, x, a, b - 1);
    } else {
      assert Reported(log, b - 1) && Justified(log, b - 1);
      j := b;
    }
  }

  /** A mount whose read never returns and that stays in the table: after as many cycles as are left
      to the limit it is banned, and in these cycles it is reported as stuck, exactly once. */
  lemma StuckMountIsReported(s: D.State<Read>, steps: seq<D.Step<Read>>, i: nat, x: Text, m: MountState,
                             tables: seq<Table>, at: (nat, nat) -> nat)
    returns (j: nat)
    requires D.Reachable(s) && Reads(s, i, x) && D.Legal(s, steps) && NeverReturns(steps, i)
    requires FollowRun(tables, at, s, steps) && StaysListed(tables, x)
    requires Truthful(m) && TimeoutsOf(m, x) < MAX_MOUNT_TIMEOUTS <= TimeoutsOf(m, x) + |tables|
    ensures var log := Run(m, tables).log;
            && TimeoutsSince(log, x) == 3
            && |m.log| <= j < |log| && log[j] == StuckReport(x)
            && forall k | |m.log| <= k < |log| && log[k] == StuckReport(x) :: k == j
  {
    StuckReadIsAlone(s, steps, i, x, tables, at);
    RunOfSilent(m, tables, x);
    RunExtends(m, tables, x);
    RunOnKeepsFaith(m, tables);
    j := ReportedOnce(m, Run(m, tables), x);
  }

  lemma ReportedOnce(m: MountState, m': MountState, x: Text) returns (j: nat)
    requires Truthful(m) && Truthful(m') && Extends(m.log, m'.log, x)
    requires TimeoutsOf(m, x) < MAX_MOUNT_TIMEOUTS == TimeoutsOf(m', x)
    ensures TimeoutsSince(m'.log, x) == MAX_MOUNT_TIMEOUTS
    ensures |m.log| <= j < |m'.log| && m'.log[j] == StuckReport(x)
    ensures forall k | |m.log| <= k < |m'.log| && m'.log[k] == StuckReport(x) :: k == j
  {
    var log := m'.log;
    assert TimeoutsOf(m, x) == TimeoutsSince(m.log, x) && TimeoutsOf(m', x) == TimeoutsSince(log, x);
    assert log[..|m.log|] == m.log && log[..|log|] == log;
    j := LimitIsReported(log, x, |m.log|, |log|);
    forall k | |m.log| <= k < |log| && log[k] == StuckReport(x) && k != j
      ensures false
    {
      StuckOncePerStay(log, x, if k < j then k else j, if k < j then j else k);
    }
  }
}

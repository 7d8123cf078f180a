/** Reading the mounted filesystems of one cycle: the timeout count and the ban of each mount, the
    reports, and the removal of devices that are mounted twice. */
module Disks {
  import opened Bytes
  import Cpu

  const MAX_MOUNT_TIMEOUTS := 3

  /** One line of the mount table. `skipped` is the verdict of the filesystem and mount filters. */
  datatype Partition = Partition(mount: Text, device: Text, fstype: Text, skipped: bool)

  datatype Usage = Usage(total: nat, used: nat, free: nat, usedPercent: real,
                         inodesTotal: nat, inodesUsed: nat, inodesFree: nat, inodesUsedPercent: real)

  /** What a read of a mount gives: ErrTimeout (also when an earlier read still runs), another
      error, or an answer. */
  datatype Read = NoAnswer | Broken | Answered(usage: Usage)

  /** A line of the table, with what a read of its mount gives when it is made. */
  datatype Row = Row(part: Partition, result: Read)

  /** A mount with its usage, with the raw device name. */
  datatype Reading = Reading(part: Partition, usage: Usage)

  datatype Event =
    | ReadOf(mount: Text, read: Read)
    | StuckReport(mount: Text)
    | FailedReport(mount: Text)
    | CycleEnd(live: set<Text>)

  /** The maps that the collector keeps over the cycles, and the record of what it did. */
  datatype MountState = MountState(timeouts: map<Text, nat>, failed: set<Text>, log: seq<Event>)

  const BLANK := MountState(map[], {}, [])

  function TimeoutsOf(m: MountState, mount: Text): nat {
    if mount in m.timeouts then m.timeouts[mount] else 0
  }

  /** One cycle under way: the mounts seen so far, the device keys, the readings that are kept, all
      readings with a size, and the two report lists. */
  datatype Progress = Progress(mounts: MountState, live: set<Text>, seen: set<Text>, kept: seq<Reading>,
                               sized: seq<Reading>, failed: seq<Text>, stuck: seq<Text>)

  function Start(m: MountState): Progress { Progress(m, {}, {}, [], [], [], []) }

  function DeviceKey(device: Text, total: nat): Text { device + [NUL] + Digits(total) }

  function Logged(m: MountState, e: Event): MountState { m.(log := m.log + [e]) }

  function OnTimeout(a: Progress, mount: Text): Progress {
    var n := TimeoutsOf(a.mounts, mount) + 1;
    var m := Logged(a.mounts, ReadOf(mount, NoAnswer)).(timeouts := a.mounts.timeouts[mount := n]);
    if n == MAX_MOUNT_TIMEOUTS then a.(mounts := Logged(m, StuckReport(mount)), stuck := a.stuck + [mount])
    else a.(mounts := m)
  }

  function OnError(a: Progress, mount: Text): Progress {
    var m := Logged(a.mounts, ReadOf(mount, Broken));
    if mount in m.failed then a.(mounts := m)
    else a.(mounts := Logged(m, FailedReport(mount)).(failed := m.failed + {mount}), failed := a.failed + [mount])
  }

  function OnAnswer(a: Progress, p: Partition, u: Usage): Progress {
    var m := Logged(a.mounts, ReadOf(p.mount, Answered(u))).(timeouts := a.mounts.timeouts - {p.mount});
    var key := DeviceKey(p.device, u.total);
    if u.total == 0 then a.(mounts := m)
    else if p.device != [] && key in a.seen then a.(mounts := m, sized := a.sized + [Reading(p, u)])
    else a.(mounts := m, seen := a.seen + {key}, kept := a.kept + [Reading(p, u)], sized := a.sized + [Reading(p, u)])
  }

  /** One turn of the loop over the mount table. */
  function Visit(a: Progress, p: Partition, r: Read): Progress {
    if p.skipped then a
    else
      var b := a.(live := a.live + {p.mount});
      if TimeoutsOf(a.mounts, p.mount) >= MAX_MOUNT_TIMEOUTS then b
      else OnRead(b, p, r)
  }

  /** The part of a turn after the read. */
  function OnRead(a: Progress, p: Partition, r: Read): Progress {
    match r
    case NoAnswer => OnTimeout(a, p.mount)
    case Broken => OnError(a, p.mount)
    case Answered(u) => OnAnswer(a, p, u)
  }

  function VisitAll(a: Progress, rows: seq<Row>): Progress
  {
    if rows == [] then a
    else
      var n := |rows| - 1;
      Visit(VisitAll(a, rows[..n]), rows[n].part, rows[n].result)
  }

  /** A mount that is not in the table any more loses its entries. */
  function Evict(m: MountState, live: set<Text>): MountState {
    MountState(map x | x in m.timeouts && x in live :: m.timeouts[x], m.failed * live, m.log + [CycleEnd(live)])
  }

  function EndCycle(a: Progress): Progress { a.(mounts := Evict(a.mounts, a.live)) }

  /** One cycle on a mount table. */
  function Cycle(m: MountState, rows: seq<Row>): Progress
  {
    EndCycle(VisitAll(Start(m), rows))
  }

  /** A cycle whose mount table could not be read changes nothing. */
  datatype Table = Unreadable | Listed(rows: seq<Row>)

  function Run(m: MountState, tables: seq<Table>): MountState
  {
    if tables == [] then m
    else
      var n := |tables| - 1;
      var before := Run(m, tables[..n]);
      if tables[n].Unreadable? then before else Cycle(before, tables[n].rows).mounts
  }

  // ---- the meaning of the record ----

  /** How one event changes the number of timeouts of a mount since its last answer or its last
      absence. */
  function CountAfter(count: nat, e: Event, mount: Text): nat {
    if e.ReadOf? && e.mount == mount then
      if e.read.NoAnswer? then count + 1 else if e.read.Answered? then 0 else count
    else if e.CycleEnd? && mount !in e.live then 0
    else count
  }

  function TimeoutsSince(log: seq<Event>, mount: Text): nat {
    if log == [] then 0 else CountAfter(TimeoutsSince(log[..|log| - 1], mount), log[|log| - 1], mount)
  }

  /** Whether the mount was reported as failed since its last absence. */
  predicate FailedAfter(failed: bool, e: Event, mount: Text) {
    if e == FailedReport(mount) then true
    else if e.CycleEnd? && mount !in e.live then false
    else failed
  }

  predicate FailedSince(log: seq<Event>, mount: Text) {
    log != [] && FailedAfter(FailedSince(log[..|log| - 1], mount), log[|log| - 1], mount)
  }

  /** The mount is out of the table at some cycle end between the two events. */
  ghost predicate LeftBetween(log: seq<Event>, mount: Text, i: nat, j: nat) {
    exists k :: i < k < j && k < |log| && log[k].CycleEnd? && mount !in log[k].live
  }

  /** What every single event of the record satisfies, given the events before it. */
  ghost predicate Justified(log: seq<Event>, j: nat)
    requires j < |log|
  {
    match log[j]
    case ReadOf(x, r) => TimeoutsSince(log[..j], x) < MAX_MOUNT_TIMEOUTS
    case StuckReport(x) => j > 0 && log[j - 1] == ReadOf(x, NoAnswer) && TimeoutsSince(log[..j], x) == MAX_MOUNT_TIMEOUTS
    case FailedReport(x) => j > 0 && log[j - 1] == ReadOf(x, Broken) && !FailedSince(log[..j], x)
    case CycleEnd(_) => true
  }

  /** And the other way round: the third timeout and the first error of a stay are reported at
      once. */
  ghost predicate Reported(log: seq<Event>, j: nat)
    requires j < |log|
  {
    match log[j]
    case ReadOf(x, r) =>
      && (r.NoAnswer? && TimeoutsSince(log[..j], x) + 1 == MAX_MOUNT_TIMEOUTS ==>
            j + 1 < |log| && log[j + 1] == StuckReport(x))
      && (r.Broken? && !FailedSince(log[..j], x) ==> j + 1 < |log| && log[j + 1] == FailedReport(x))
    case _ => true
  }

  ghost predicate Disciplined(log: seq<Event>) {
    forall j | 0 <= j < |log| :: Justified(log, j) && Reported(log, j)
  }

  /** The maps say what the record says. */
  ghost predicate Truthful(m: MountState) {
    && (forall x :: TimeoutsOf(m, x) == TimeoutsSince(m.log, x) <= MAX_MOUNT_TIMEOUTS)
    && (forall x :: x in m.failed <==> FailedSince(m.log, x))
    && Disciplined(m.log)
  }

  // ---- one turn ----

  lemma LogAppend(log: seq<Event>, e: Event, x: Text)
    ensures TimeoutsSince(log + [e], x) == CountAfter(TimeoutsSince(log, x), e, x)
    ensures FailedSince(log + [e], x) == FailedAfter(FailedSince(log, x), e, x)
  {
    assert (log + [e])[..|log|] == log;
  }

  /** The record of one more event. */
  lemma DisciplineOfOne(log: seq<Event>, e: Event)
    requires Disciplined(log)
    requires Justified(log + [e], |log|) && Reported(log + [e], |log|)
    ensures Disciplined(log + [e])
  {
    var log' := log + [e];
    forall j | 0 <= j < |log'|
      ensures Justified(log', j) && Reported(log', j)
    {
      if j < |log| {
        assert Justified(log, j) && Reported(log, j);
        assert log'[..j] == log[..j];
      }
    }
  }

  /** The record of a read and its report. */
  lemma DisciplineOfTwo(log: seq<Event>, e: Event, f: Event)
    requires Disciplined(log) && e.ReadOf? && !f.ReadOf?
    requires Justified(log + [e], |log|) && Reported(log + [e, f], |log|)
    requires Justified(log + [e, f], |log| + 1)
    ensures Disciplined(log + [e] + [f])
  {
    var log' := log + [e, f];
    assert log + [e] + [f] == log';
    forall j | 0 <= j < |log'|
      ensures Justified(log', j) && Reported(log', j)
    {
      if j < |log| {
        assert Justified(log, j) && Reported(log, j);
        assert log'[..j] == log[..j];
      } else if j == |log| {
        assert log'[..j] == log && (log + [e])[..j] == log;
      }
    }
  }

  lemma TimeoutKeepsFaith(a: Progress, x: Text)
    requires Truthful(a.mounts) && TimeoutsOf(a.mounts, x) < MAX_MOUNT_TIMEOUTS
    ensures Truthful(OnTimeout(a, x).mounts)
  {
    var log, e, f := a.mounts.log, ReadOf(x, NoAnswer), StuckReport(x);
    var m := OnTimeout(a, x).mounts;
    assert (log + [e])[..|log|] == log;
    forall y
      ensures TimeoutsOf(m, y) == TimeoutsSince(m.log, y) <= MAX_MOUNT_TIMEOUTS
      ensures y in m.failed <==> FailedSince(m.log, y)
    {
      LogAppend(log, e, y);
      LogAppend(log + [e], f, y);
      assert TimeoutsOf(a.mounts, y) == TimeoutsSince(log, y);
      assert y in a.mounts.failed <==> FailedSince(log, y);
    }
    if TimeoutsOf(a.mounts, x) + 1 == MAX_MOUNT_TIMEOUTS {
      LogAppend(log, e, x);
      assert (log + [e, f])[..|log| + 1] == log + [e];
      assert (log + [e, f])[..|log|] == log;
      DisciplineOfTwo(log, e, f);
    } else {
      DisciplineOfOne(log, e);
    }
  }

  lemma ErrorKeepsFaith(a: Progress, x: Text)
    requires Truthful(a.mounts) && TimeoutsOf(a.mounts, x) < MAX_MOUNT_TIMEOUTS
    ensures Truthful(OnError(a, x).mounts)
  {
    var log, e, f := a.mounts.log, ReadOf(x, Broken), FailedReport(x);
    var m := OnError(a, x).mounts;
    assert (log + [e])[..|log|] == log;
    forall y
      ensures TimeoutsOf(m, y) == TimeoutsSince(m.log, y) <= MAX_MOUNT_TIMEOUTS
      ensures y in m.failed <==> FailedSince(m.log, y)
    {
      LogAppend(log, e, y);
      LogAppend(log + [e], f, y);
      assert TimeoutsOf(a.mounts, y) == TimeoutsSince(log, y);
      assert y in a.mounts.failed <==> FailedSince(log, y);
    }
    if x !in a.mounts.failed {
      LogAppend(log, e, x);
      assert (log + [e, f])[..|log| + 1] == log + [e];
      assert (log + [e, f])[..|log|] == log;
      DisciplineOfTwo(log, e, f);
    } else {
      DisciplineOfOne(log, e);
    }
  }

  lemma AnswerKeepsFaith(a: Progress, p: Partition, u: Usage)
    requires Truthful(a.mounts) && TimeoutsOf(a.mounts, p.mount) < MAX_MOUNT_TIMEOUTS
    ensures Truthful(OnAnswer(a, p, u).mounts)
  {
    var log, e := a.mounts.log, ReadOf(p.mount, Answered(u));
    var m := OnAnswer(a, p, u).mounts;
    assert (log + [e])[..|log|] == log;
    forall y
      ensures TimeoutsOf(m, y) == TimeoutsSince(m.log, y) <= MAX_MOUNT_TIMEOUTS
      ensures y in m.failed <==> FailedSince(m.log, y)
    {
      LogAppend(log, e, y);
      assert TimeoutsOf(a.mounts, y) == TimeoutsSince(log, y);
      assert y in a.mounts.failed <==> FailedSince(log, y);
    }
    DisciplineOfOne(log, e);
  }

  lemma VisitKeepsFaith(a: Progress, p: Partition, r: Read)
    requires Truthful(a.mounts)
    ensures Truthful(Visit(a, p, r).mounts)
  {
    if !p.skipped && TimeoutsOf(a.mounts, p.mount) < MAX_MOUNT_TIMEOUTS {
      var b := a.(live := a.live + {p.mount});
      match r
      case NoAnswer => TimeoutKeepsFaith(b, p.mount);
      case Broken => ErrorKeepsFaith(b, p.mount);
      case Answered(u) => AnswerKeepsFaith(b, p, u);
    }
  }

  lemma {:induction false} VisitAllKeepsFaith(a: Progress, rows: seq<Row>)
    requires Truthful(a.mounts)
    ensures Truthful(VisitAll(a, rows).mounts)
  {
    if rows != [] {
      var n := |rows| - 1;
      VisitAllKeepsFaith(a, rows[..n]);
      VisitKeepsFaith(VisitAll(a, rows[..n]), rows[n].part, rows[n].result);
    }
  }

  lemma EvictKeepsFaith(m: MountState, live: set<Text>)
    requires Truthful(m)
    ensures Truthful(Evict(m, live))
  {
    var e, m' := CycleEnd(live), Evict(m, live);
    forall y
      ensures TimeoutsOf(m', y) == TimeoutsSince(m'.log, y) <= MAX_MOUNT_TIMEOUTS
      ensures y in m'.failed <==> FailedSince(m'.log, y)
    {
      LogAppend(m.log, e, y);
      assert TimeoutsOf(m, y) == TimeoutsSince(m.log, y);
      assert y in m.failed <==> FailedSince(m.log, y);
    }
    DisciplineOfOne(m.log, e);
  }

  // ---- main results on the ban ----

  lemma {:induction false} RunOnKeepsFaith(m: MountState, tables: seq<Table>)
    requires Truthful(m)
    ensures Truthful(Run(m, tables))
  {
    if tables != [] {
      var n := |tables| - 1;
      RunOnKeepsFaith(m, tables[..n]);
      if tables[n].Listed? {
        CycleKeepsFaith(Run(m, tables[..n]), tables[n].rows);
      }
    }
  }

  lemma CycleKeepsFaith(m: MountState, rows: seq<Row>)
    requires Truthful(m)
    ensures Truthful(Cycle(m, rows).mounts)
  {
    VisitAllKeepsFaith(Start(m), rows);
    EvictKeepsFaith(VisitAll(Start(m), rows).mounts, VisitAll(Start(m), rows).live);
  }

  /** Over every run of cycles, on every mount table and for every outcome of the reads: the count
      of a mount is the number of its timeouts since its last answer or absence and never exceeds
      the limit, a banned mount is not read, and each report comes exactly when it is due. */
  lemma RunKeepsFaith(tables: seq<Table>)
    ensures Truthful(Run(BLANK, tables))
    ensures forall x :: TimeoutsSince(Run(BLANK, tables).log, x) <= 3
  {
    assert Truthful(BLANK);
    RunOnKeepsFaith(BLANK, tables);
    forall x
      ensures TimeoutsSince(Run(BLANK, tables).log, x) <= 3
    {
      assert TimeoutsOf(Run(BLANK, tables), x) == TimeoutsSince(Run(BLANK, tables).log, x);
    }
  }

  /** While a banned mount stays in the table, its count stays at the limit. */
  lemma {:induction false} BanLasts(log: seq<Event>, x: Text, i: nat, j: nat)
    requires Disciplined(log) && i <= j <= |log|
    requires TimeoutsSince(log[..i], x) == MAX_MOUNT_TIMEOUTS
    requires forall k | i <= k < j && log[k].CycleEnd? :: x in log[k].live
    ensures TimeoutsSince(log[..j], x) == MAX_MOUNT_TIMEOUTS
    ensures forall k | i <= k < j && log[k].ReadOf? :: log[k].mount != x
    decreases j - i
  {
    if i < j {
      BanLasts(log, x, i, j - 1);
      assert log[..j] == log[..j - 1] + [log[j - 1]];
      LogAppend(log[..j - 1], log[j - 1], x);
      assert Justified(log, j - 1);
    }
  }

  /** A mount is reported as stuck at most once per stay, and after the report it is not read until
      it has left the table. */
  lemma StuckOncePerStay(log: seq<Event>, x: Text, i: nat, j: nat)
    requires Disciplined(log) && i < j < |log|
    requires log[i] == StuckReport(x)
    requires log[j] == StuckReport(x) || (log[j].ReadOf? && log[j].mount == x)
    ensures LeftBetween(log, x, i, j)
  {
    assert Justified(log, i) && Justified(log, j);
    var read := if log[j].ReadOf? then j else j - 1;
    assert log[read].ReadOf? && log[read].mount == x && i < read;
    assert Justified(log, read);
    if !LeftBetween(log, x, i, j) {
      BanLasts(log, x, i, read);
    }
  }

  lemma {:induction false} FailureLasts(log: seq<Event>, x: Text, i: nat, j: nat)
    requires i < j <= |log| && log[i] == FailedReport(x)
    requires forall k | i < k < j && log[k].CycleEnd? :: x in log[k].live
    ensures FailedSince(log[..j], x)
    decreases j - i
  {
    assert log[..j] == log[..j - 1] + [log[j - 1]];
    LogAppend(log[..j - 1], log[j - 1], x);
    if i < j - 1 {
      FailureLasts(log, x, i, j - 1);
    }
  }

  /** A mount is reported as failed at most once per stay. */
  lemma FailedOncePerStay(log: seq<Event>, x: Text, i: nat, j: nat)
    requires Disciplined(log) && i < j < |log|
    requires log[i] == FailedReport(x) && log[j] == FailedReport(x)
    ensures LeftBetween(log, x, i, j)
  {
    assert Justified(log, j);
    if !LeftBetween(log, x, i, j) {
      FailureLasts(log, x, i, j);
    }
  }

  // ---- devices that are mounted twice ----

  /** The same raw device with the same size. An unnamed device is never the same as another. */
  predicate SamePair(a: Reading, b: Reading) {
    a.part.device != [] && a.part.device == b.part.device && a.usage.total == b.usage.total
  }

  /** The reference: a reading stays unless an earlier one is of the same device and size. */
  function FirstOfPairs(rs: seq<Reading>): seq<Reading> {
    if rs == [] then []
    else
      var n := |rs| - 1;
      FirstOfPairs(rs[..n]) + if exists x :: x in rs[..n] && SamePair(x, rs[n]) then [] else [rs[n]]
  }

  function KeyOf(r: Reading): Text { DeviceKey(r.part.device, r.usage.total) }

  /** The byte keys in the `seen` set stand for the readings made so far. */
  ghost predicate KeysMatch(a: Progress) {
    && a.kept == FirstOfPairs(a.sized)
    && (forall r | r in a.sized :: KeyOf(r) in a.seen)
    && (forall k | k in a.seen :: exists r :: r in a.sized && KeyOf(r) == k)
  }

  /** The key decides the pair, for every byte string as device name. */
  lemma KeyIsInjective(a: Reading, b: Reading)
    ensures KeyOf(a) == KeyOf(b) <==> a.part.device == b.part.device && a.usage.total == b.usage.total
  {
    if KeyOf(a) == KeyOf(b) {
      NulSplitInjective(a.part.device, a.usage.total, b.part.device, b.usage.total);
    }
  }

  lemma SeenMeansSamePair(a: Progress, r: Reading)
    requires KeysMatch(a) && r.part.device != []
    ensures KeyOf(r) in a.seen <==> exists x :: x in a.sized && SamePair(x, r)
  {
    if KeyOf(r) in a.seen {
      var x :| x in a.sized && KeyOf(x) == KeyOf(r);
      KeyIsInjective(x, r);
    }
    if x :| x in a.sized && SamePair(x, r) {
      KeyIsInjective(x, r);
    }
  }

  lemma FirstOfPairsStep(rs: seq<Reading>, r: Reading)
    ensures FirstOfPairs(rs + [r]) == FirstOfPairs(rs) + if exists x :: x in rs && SamePair(x, r) then [] else [r]
  {
    assert (rs + [r])[..|rs|] == rs;
  }

  lemma SeenGrows(seen: set<Text>, rs: seq<Reading>, r: Reading)
    requires forall x | x in rs :: KeyOf(x) in seen
    requires forall k | k in seen :: exists x :: x in rs && KeyOf(x) == k
    ensures forall x | x in rs + [r] :: KeyOf(x) in seen + {KeyOf(r)}
    ensures forall k | k in seen + {KeyOf(r)} :: exists x :: x in rs + [r] && KeyOf(x) == k
  {
    forall k | k in seen + {KeyOf(r)}
      ensures exists x :: x in rs + [r] && KeyOf(x) == k
    {
      if k == KeyOf(r) {
        assert r in rs + [r];
      } else {
        var x :| x in rs && KeyOf(x) == k;
        assert x in rs + [r];
      }
    }
  }

  lemma NewReadingKeepsKeys(a: Progress, r: Reading)
    requires KeysMatch(a)
    requires r.part.device == [] || KeyOf(r) !in a.seen
    ensures KeysMatch(a.(seen := a.seen + {KeyOf(r)}, kept := a.kept + [r], sized := a.sized + [r]))
  {
    if r.part.device != [] {
      SeenMeansSamePair(a, r);
    }
    FirstOfPairsStep(a.sized, r);
    SeenGrows(a.seen, a.sized, r);
  }

  lemma SeenReadingKeepsKeys(a: Progress, r: Reading)
    requires KeysMatch(a) && r.part.device != [] && KeyOf(r) in a.seen
    ensures KeysMatch(a.(sized := a.sized + [r]))
  {
    SeenMeansSamePair(a, r);
    FirstOfPairsStep(a.sized, r);
    SeenGrows(a.seen, a.sized, r);
    assert a.seen + {KeyOf(r)} == a.seen;
  }

  lemma AnswerKeepsKeys(a: Progress, p: Partition, u: Usage)
    requires KeysMatch(a)
    ensures KeysMatch(OnAnswer(a, p, u))
  {
    var r := Reading(p, u);
    if u.total != 0 {
      if p.device != [] && KeyOf(r) in a.seen {
        SeenReadingKeepsKeys(a, r);
      } else {
        NewReadingKeepsKeys(a, r);
      }
    }
  }

  lemma VisitKeepsKeys(a: Progress, p: Partition, r: Read)
    requires KeysMatch(a)
    ensures KeysMatch(Visit(a, p, r))
  {
    var b := a.(live := a.live + {p.mount});
    assert KeysMatch(b);
    if r.Answered? {
      AnswerKeepsKeys(b, p, r.usage);
    }
    assert r.NoAnswer? ==> KeysMatch(OnTimeout(b, p.mount));
    assert r.Broken? ==> KeysMatch(OnError(b, p.mount));
  }

  lemma {:induction false} VisitAllKeepsKeys(a: Progress, rows: seq<Row>)
    requires KeysMatch(a)
    ensures KeysMatch(VisitAll(a, rows))
  {
    if rows != [] {
      var n := |rows| - 1;
      VisitAllKeepsKeys(a, rows[..n]);
      VisitKeepsKeys(VisitAll(a, rows[..n]), rows[n].part, rows[n].result);
    }
  }

  lemma {:induction false} FirstOfPairsMembers(rs: seq<Reading>, r: Reading)
    ensures r in FirstOfPairs(rs) ==> r in rs
  {
    if rs != [] {
      FirstOfPairsMembers(rs[..|rs| - 1], r);
    }
  }

  /** No two of the readings that stay are of one device and size. */
  lemma {:induction false} FirstOfPairsDistinct(rs: seq<Reading>, i: nat, j: nat)
    requires i < j < |FirstOfPairs(rs)|
    ensures !SamePair(FirstOfPairs(rs)[i], FirstOfPairs(rs)[j])
  {
    var n := |rs| - 1;
    var before := FirstOfPairs(rs[..n]);
    if j < |before| {
      FirstOfPairsDistinct(rs[..n], i, j);
    } else {
      FirstOfPairsMembers(rs[..n], before[i]);
    }
  }

  /** Every reading stays, or an earlier reading of the same device and size does. */
  lemma {:induction false} FirstOfPairsCovers(rs: seq<Reading>, k: nat)
    requires k < |rs|
    ensures rs[k] in FirstOfPairs(rs) || exists x :: x in FirstOfPairs(rs[..k]) && SamePair(x, rs[k])
  {
    var n := |rs| - 1;
    if k < n {
      FirstOfPairsCovers(rs[..n], k);
      assert rs[..n][..k] == rs[..k];
    } else if x :| x in rs[..n] && SamePair(x, rs[n]) {
      var m :| 0 <= m < n && rs[m] == x;
      FirstOfPairsCovers(rs[..n], m);
      assert rs[..n][..m] == rs[..m];
      PrefixStays(rs, m, n);
    }
  }

  lemma {:induction false} PrefixStays(rs: seq<Reading>, m: nat, n: nat)
    requires m <= n <= |rs|
    ensures forall x | x in FirstOfPairs(rs[..m]) :: x in FirstOfPairs(rs[..n])
    decreases n
  {
    if m < n {
      PrefixStays(rs, m, n - 1);
      assert rs[..n][..n - 1] == rs[..n - 1];
    }
  }

  // ---- the order of the result ----

  /** What a cycle reports of a mount. The device loses its `/dev/` prefix here. */
  datatype Disk = Disk(mount: Text, device: Text, fstype: Text, total: nat, used: nat, free: nat, usedPercent: real,
                       inodesTotal: nat, inodesUsed: nat, inodesFree: nat, inodesUsedPercent: real)

  /** round2: half away from zero, to two decimals. */
  function Rounded(v: real): real {
    if v < 0.0 then -Cpu.Round2(-v) else Cpu.Round2(v)
  }

  const DEV_PREFIX: Text := [47, 100, 101, 118, 47]

  function ShortDevice(device: Text): Text {
    if DEV_PREFIX <= device then device[|DEV_PREFIX|..] else device
  }

  function ToDisk(r: Reading): Disk {
    var u := r.usage;
    Disk(r.part.mount, ShortDevice(r.part.device), r.part.fstype, u.total, u.used, u.free, Rounded(u.usedPercent),
         u.inodesTotal, u.inodesUsed, u.inodesFree, Rounded(u.inodesUsedPercent))
  }

  /** A disk shows the sizes and the inode counts of its own reading, the percentages up to the
      rounding, and the raw device with or without the prefix. */
  lemma DiskShowsReading(r: Reading)
    ensures var d := ToDisk(r);
            && d.mount == r.part.mount && d.fstype == r.part.fstype
            && d.total == r.usage.total && d.used == r.usage.used && d.free == r.usage.free
            && d.inodesTotal == r.usage.inodesTotal && d.inodesUsed == r.usage.inodesUsed
            && d.inodesFree == r.usage.inodesFree
            && Cpu.Near(d.usedPercent, r.usage.usedPercent, 0.005)
            && Cpu.Near(d.inodesUsedPercent, r.usage.inodesUsedPercent, 0.005)
            && r.part.device == (if DEV_PREFIX <= r.part.device then DEV_PREFIX else []) + d.device
  {
    RoundedIsNear(r.usage.usedPercent);
    RoundedIsNear(r.usage.inodesUsedPercent);
  }

  lemma RoundedIsNear(v: real)
    ensures Cpu.Near(Rounded(v), v, 0.005)
  {
    Cpu.RoundingIsNear(if v < 0.0 then -v else v);
  }

  function ToDisks(rs: seq<Reading>): (ds: seq<Disk>)
    ensures |ds| == |rs| && forall i | 0 <= i < |rs| :: ds[i] == ToDisk(rs[i])
  {
    seq(|rs|, i requires 0 <= i < |rs| => ToDisk(rs[i]))
  }

  ghost predicate ByMount(ds: seq<Disk>) {
    forall i, j | 0 <= i < j < |ds| :: !Less(ds[j].mount, ds[i].mount)
  }

  /** De-duplication over a whole cycle: the reported readings are the first of each device and
      size, among all sized readings in table order. */
  lemma CycleKeepsFirstOfPairs(m: MountState, rows: seq<Row>)
    ensures Cycle(m, rows).kept == FirstOfPairs(Cycle(m, rows).sized)
  {
    VisitAllKeepsKeys(Start(m), rows);
  }

  // ---- the reports of one cycle ----

  function StuckIn(log: seq<Event>): seq<Text> {
    if log == [] then []
    else StuckIn(log[..|log| - 1]) + if log[|log| - 1].StuckReport? then [log[|log| - 1].mount] else []
  }

  function FailedIn(log: seq<Event>): seq<Text> {
    if log == [] then []
    else FailedIn(log[..|log| - 1]) + if log[|log| - 1].FailedReport? then [log[|log| - 1].mount] else []
  }

  lemma ReportsAppend(log: seq<Event>, e: Event)
    ensures StuckIn(log + [e]) == StuckIn(log) + if e.StuckReport? then [e.mount] else []
    ensures FailedIn(log + [e]) == FailedIn(log) + if e.FailedReport? then [e.mount] else []
  {
    assert (log + [e])[..|log|] == log;
  }

  ghost predicate ReportsMatch(m: MountState, a: Progress) {
    && StuckIn(a.mounts.log) == StuckIn(m.log) + a.stuck
    && FailedIn(a.mounts.log) == FailedIn(m.log) + a.failed
  }

  lemma TimeoutKeepsReports(m: MountState, a: Progress, x: Text)
    requires ReportsMatch(m, a)
    ensures ReportsMatch(m, OnTimeout(a, x))
  {
    ReportsAppend(a.mounts.log, ReadOf(x, NoAnswer));
    ReportsAppend(a.mounts.log + [ReadOf(x, NoAnswer)], StuckReport(x));
  }

  lemma ErrorKeepsReports(m: MountState, a: Progress, x: Text)
    requires ReportsMatch(m, a)
    ensures ReportsMatch(m, OnError(a, x))
  {
    ReportsAppend(a.mounts.log, ReadOf(x, Broken));
    ReportsAppend(a.mounts.log + [ReadOf(x, Broken)], FailedReport(x));
  }

  lemma AnswerKeepsReports(m: MountState, a: Progress, p: Partition, u: Usage)
    requires ReportsMatch(m, a)
    ensures ReportsMatch(m, OnAnswer(a, p, u))
  {
    ReportsAppend(a.mounts.log, ReadOf(p.mount, Answered(u)));
  }

  lemma VisitKeepsReports(m: MountState, a: Progress, p: Partition, r: Read)
    requires ReportsMatch(m, a)
    ensures ReportsMatch(m, Visit(a, p, r))
  {
    var b := a.(live := a.live + {p.mount});
    assert ReportsMatch(m, b);
    match r
    case NoAnswer => TimeoutKeepsReports(m, b, p.mount);
    case Broken => ErrorKeepsReports(m, b, p.mount);
    case Answered(u) => AnswerKeepsReports(m, b, p, u);
  }

  lemma {:induction false} VisitAllKeepsReports(m: MountState, a: Progress, rows: seq<Row>)
    requires ReportsMatch(m, a)
    ensures ReportsMatch(m, VisitAll(a, rows))
  {
    if rows != [] {
      var n := |rows| - 1;
      VisitAllKeepsReports(m, a, rows[..n]);
      VisitKeepsReports(m, VisitAll(a, rows[..n]), rows[n].part, rows[n].result);
    }
  }

  /** The two lists that a cycle returns are the reports that it adds to the record, in order. */
  lemma CycleReports(m: MountState, rows: seq<Row>)
    ensures ReportsMatch(m, Cycle(m, rows))
  {
    VisitAllKeepsReports(m, Start(m), rows);
    ReportsAppend(VisitAll(Start(m), rows).mounts.log, CycleEnd(VisitAll(Start(m), rows).live));
  }

  // ---- what a cycle reads ----

  datatype ReadDone = ReadDone(mount: Text, read: Read)

  function ReadsIn(log: seq<Event>): seq<ReadDone> {
    if log == [] then []
    else
      var e := log[|log| - 1];
      ReadsIn(log[..|log| - 1]) + if e.ReadOf? then [ReadDone(e.mount, e.read)] else []
  }

  lemma ReadsAppend(log: seq<Event>, e: Event)
    ensures ReadsIn(log + [e]) == ReadsIn(log) + if e.ReadOf? then [ReadDone(e.mount, e.read)] else []
  {
    assert (log + [e])[..|log|] == log;
  }

  /** The line is due: no filter drops it, and by the record its mount is not banned. */
  ghost predicate IsDue(m: MountState, rows: seq<Row>, k: nat)
    requires k < |rows|
  {
    && !rows[k].part.skipped
    && TimeoutsSince(VisitAll(Start(m), rows[..k]).mounts.log, rows[k].part.mount) < MAX_MOUNT_TIMEOUTS
  }

  /** The reads of the due lines, in table order. */
  ghost function DueReads(m: MountState, rows: seq<Row>): seq<ReadDone> {
    if rows == [] then []
    else
      var n := |rows| - 1;
      DueReads(m, rows[..n]) + if IsDue(m, rows, n) then [ReadDone(rows[n].part.mount, rows[n].result)] else []
  }

  /** The answers with a size on the due lines, in table order. */
  ghost function DueAnswers(m: MountState, rows: seq<Row>): seq<Reading> {
    if rows == [] then []
    else
      var n := |rows| - 1;
      var r := rows[n].result;
      DueAnswers(m, rows[..n])
      + if IsDue(m, rows, n) && r.Answered? && r.usage.total > 0 then [Reading(rows[n].part, r.usage)] else []
  }

  function MountsOf(rows: seq<Row>): set<Text> {
    set r | r in rows && !r.part.skipped :: r.part.mount
  }

  ghost predicate ReadsMatch(m: MountState, rows: seq<Row>, a: Progress) {
    && ReadsIn(a.mounts.log) == ReadsIn(m.log) + DueReads(m, rows)
    && a.sized == DueAnswers(m, rows)
    && a.live == MountsOf(rows)
  }

  /** Two records with the same reads but for what the second adds. */
  ghost predicate AddsReads(log: seq<Event>, log': seq<Event>, more: seq<ReadDone>) {
    ReadsIn(log') == ReadsIn(log) + more
  }

  lemma ReadAndReport(log: seq<Event>, e: Event, f: Event)
    requires e.ReadOf? && !f.ReadOf?
    ensures AddsReads(log, log + [e], [ReadDone(e.mount, e.read)])
    ensures AddsReads(log, log + [e] + [f], [ReadDone(e.mount, e.read)])
  {
    ReadsAppend(log, e);
    ReadsAppend(log + [e], f);
  }

  lemma DueReadIsDone(a: Progress, p: Partition, r: Read)
    requires !p.skipped && TimeoutsOf(a.mounts, p.mount) < MAX_MOUNT_TIMEOUTS
    ensures AddsReads(a.mounts.log, Visit(a, p, r).mounts.log, [ReadDone(p.mount, r)])
  {
    var log, e := a.mounts.log, ReadOf(p.mount, r);
    match r
    case NoAnswer => ReadAndReport(log, e, StuckReport(p.mount));
    case Broken => ReadAndReport(log, e, FailedReport(p.mount));
    case Answered(_) => ReadsAppend(log, e);
  }

  lemma VisitReads(a: Progress, p: Partition, r: Read)
    requires Truthful(a.mounts)
    ensures var due := !p.skipped && TimeoutsSince(a.mounts.log, p.mount) < MAX_MOUNT_TIMEOUTS;
            var b := Visit(a, p, r);
            && AddsReads(a.mounts.log, b.mounts.log, if due then [ReadDone(p.mount, r)] else [])
            && b.sized == a.sized + (if due && r.Answered? && r.usage.total > 0 then [Reading(p, r.usage)] else [])
            && b.live == a.live + (if p.skipped then {} else {p.mount})
  {
    assert TimeoutsOf(a.mounts, p.mount) == TimeoutsSince(a.mounts.log, p.mount);
    if !p.skipped && TimeoutsOf(a.mounts, p.mount) < MAX_MOUNT_TIMEOUTS {
      DueReadIsDone(a, p, r);
    }
  }

  lemma {:induction false} VisitAllReads(m: MountState, rows: seq<Row>)
    requires Truthful(m)
    ensures ReadsMatch(m, rows, VisitAll(Start(m), rows))
  {
    if rows != [] {
      var n := |rows| - 1;
      var a := VisitAll(Start(m), rows[..n]);
      VisitAllReads(m, rows[..n]);
      VisitAllKeepsFaith(Start(m), rows[..n]);
      VisitReads(a, rows[n].part, rows[n].result);
      MountsAppend(rows[..n], rows[n]);
      assert rows[..n] + [rows[n]] == rows;
    }
  }

  lemma MountsAppend(rows: seq<Row>, r: Row)
    ensures MountsOf(rows + [r]) == MountsOf(rows) + if r.part.skipped then {} else {r.part.mount}
  {
    assert forall x :: x in rows + [r] <==> x in rows || x == r;
  }

  /** A cycle reads every line that no filter and no ban drops, once, in table order, and no other;
      it considers every answer with a size; and it ends by recording which mounts the table has. */
  lemma CycleReads(m: MountState, rows: seq<Row>)
    requires Truthful(m)
    ensures var a := Cycle(m, rows);
            && ReadsIn(a.mounts.log) == ReadsIn(m.log) + DueReads(m, rows)
            && a.sized == DueAnswers(m, rows)
            && a.mounts.log != [] && a.mounts.log[|a.mounts.log| - 1] == CycleEnd(MountsOf(rows))
  {
    VisitAllReads(m, rows);
    ReadsAppend(VisitAll(Start(m), rows).mounts.log, CycleEnd(MountsOf(rows)));
  }
}

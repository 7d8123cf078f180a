/** The collector object: the maps it keeps over the cycles, and the methods that update them. */
module CollectorClass {
  import opened Wrappers
  import opened Bytes
  import opened Disks
  import N = Notes
  import C = Cpu

  datatype CpuSample = CpuError | NoTimes | Now(times: C.Times)

  datatype CpuReport = CpuReport(cores: int, times: C.Times, percents: C.Percents)

  const BOOT := C.Times(0.0, 0.0, 0.0, 0.0, 0.0, 0.0, 0.0, 0.0)

  /** sort.Slice by mount. Only what its caller can rely on is promised: the order of equal mounts
      is not. */
  method SortByMount(ds: seq<Disk>) returns (r: seq<Disk>)
    ensures ByMount(r) && multiset(r) == multiset(ds)
  {
    r := [];
    for i := 0 to |ds|
      invariant ByMount(r) && multiset(r) == multiset(ds[..i])
    {
      assert ds[..i + 1] == ds[..i] + [ds[i]];
      r := InsertByMount(r, ds[i]);
    }
    assert ds[..|ds|] == ds;
  }

  method InsertByMount(ds: seq<Disk>, d: Disk) returns (r: seq<Disk>)
    requires ByMount(ds)
    ensures ByMount(r) && multiset(r) == multiset(ds) + multiset{d}
  {
    var k := |ds|;
    while k > 0 && Less(d.mount, ds[k - 1].mount)
      invariant 0 <= k <= |ds|
      invariant forall m | k <= m < |ds| :: Less(d.mount, ds[m].mount)
    {
      k := k - 1;
    }
    InsertKeepsOrder(ds, d, k);
    assert ds == ds[..k] + ds[k..];
    r := ds[..k] + [d] + ds[k..];
  }

  lemma InsertKeepsOrder(r: seq<Disk>, d: Disk, k: nat)
    requires ByMount(r) && k <= |r|
    requires k > 0 ==> !Less(d.mount, r[k - 1].mount)
    requires forall m | k <= m < |r| :: Less(d.mount, r[m].mount)
    ensures ByMount(r[..k] + [d] + r[k..])
  {
    forall m | 0 <= m < k
      ensures !Less(d.mount, r[m].mount)
    {
      if m < k - 1 && Less(d.mount, r[m].mount) {
        LessTotal(r[m].mount, r[k - 1].mount);
        if Less(r[m].mount, r[k - 1].mount) {
          LessTransitive(d.mount, r[m].mount, r[k - 1].mount);
        }
      }
    }
    forall m | k <= m < |r|
      ensures !Less(r[m].mount, d.mount)
    {
      if Less(r[m].mount, d.mount) {
        LessTransitive(d.mount, r[m].mount, d.mount);
        LessIrreflexive(d.mount);
      }
    }
    var s := r[..k] + [d] + r[k..];
    forall i, j | 0 <= i < j < |s|
      ensures !Less(s[j].mount, s[i].mount)
    {
      var x := if i < k then i else i - 1;
      var y := if j < k then j else j - 1;
      assert i != k ==> s[i] == r[x];
      assert j != k ==> s[j] == r[y];
    }
  }

  class Collector {
    var mountTimeouts: map<Text, nat>
    var mountErr: set<Text>
    var timeoutAt: map<Text, int>
    var prevCPU: C.Times
    var haveCPU: bool
    var cores: int
    /** The record of the disk reads and reports, and of the calls of Note. */
    ghost var log: seq<Event>
    ghost var notes: seq<N.Call>
    /** The mount tables of all cycles so far. */
    ghost var tables: seq<Table>

    ghost function Mounts(): MountState
      reads this
    {
      MountState(mountTimeouts, mountErr, log)
    }

    /** The fields say what the records say. */
    ghost predicate Valid()
      reads this
    {
      Mounts() == Run(BLANK, tables) && timeoutAt == N.TimesAfter(notes)
    }

    constructor ()
      ensures Valid() && tables == [] && Mounts() == BLANK && notes == [] && !haveCPU && cores == 0
    {
      mountTimeouts, mountErr, timeoutAt := map[], {}, map[];
      prevCPU, haveCPU, cores := BOOT, false, 0;
      log, notes, tables := [], [], [];
    }

    /** One cycle over the mounts. An unreadable mount table changes nothing. */
    method CollectDisks(table: Table) returns (failure: bool, disks: seq<Disk>, failed: seq<Text>, stuck: seq<Text>)
      requires Valid()
      modifies `mountTimeouts, `mountErr, `log, `tables
      ensures Valid() && tables == old(tables) + [table]
      ensures failure <==> table.Unreadable?
      ensures failure ==> Mounts() == old(Mounts()) && disks == [] && failed == [] && stuck == []
      ensures !failure ==>
                var cycle := Cycle(old(Mounts()), table.rows);
                && Mounts() == cycle.mounts && failed == cycle.failed && stuck == cycle.stuck
                && ByMount(disks) && multiset(disks) == multiset(ToDisks(FirstOfPairs(cycle.sized)))
    {
      assert (tables + [table])[..|tables|] == tables;
      tables := tables + [table];
      if table.Unreadable? {
        return true, [], [], [];
      }
      var rows := table.rows;
      ghost var start := Mounts();
      ghost var progress := Start(start);
      var kept: seq<Reading> := [];
      var seen, live: set<Text> := {}, {};
      failed, stuck := [], [];
      for i := 0 to |rows|
        invariant progress == VisitAll(Start(start), rows[..i])
        invariant progress == Progress(Mounts(), live, seen, kept, progress.sized, failed, stuck)
        invariant timeoutAt == old(timeoutAt) && tables == old(tables) + [table]
      {
        var p := rows[i].part;
        assert rows[..i + 1][..i] == rows[..i];
        if p.skipped {
          continue;
        }
        live := live + {p.mount};
        progress := progress.(live := live);
        var count := if p.mount in mountTimeouts then mountTimeouts[p.mount] else 0;
        if count >= MAX_MOUNT_TIMEOUTS {
          continue;
        }
        seen, kept, failed, stuck, progress :=
          TakeRead(p, rows[i].result, seen, kept, failed, stuck, progress);
      }
      assert rows[..|rows|] == rows;
      EvictGone(live);
      CycleKeepsFirstOfPairs(start, rows);
      disks := SortByMount(ToDisks(kept));
      return false, disks, failed, stuck;
    }

    /** Counts and reports one read, and keeps its answer unless the device was seen. */
    method TakeRead(p: Partition, read: Read, seen: set<Text>, kept: seq<Reading>, failed: seq<Text>, stuck: seq<Text>,
                    ghost a: Progress)
      returns (seen': set<Text>, kept': seq<Reading>, failed': seq<Text>, stuck': seq<Text>, ghost b: Progress)
      requires a.mounts == Mounts() && a.seen == seen && a.kept == kept && a.failed == failed && a.stuck == stuck
      modifies `mountTimeouts, `mountErr, `log
      ensures b == OnRead(a, p, read)
      ensures b.mounts == Mounts() && b.live == a.live
      ensures b.seen == seen' && b.kept == kept' && b.failed == failed' && b.stuck == stuck'
    {
      seen', kept', failed', stuck', b := seen, kept, failed, stuck, OnRead(a, p, read);
      log := log + [ReadOf(p.mount, read)];
      match read
      case NoAnswer =>
        var count := if p.mount in mountTimeouts then mountTimeouts[p.mount] else 0;
        mountTimeouts := mountTimeouts[p.mount := count + 1];
        if mountTimeouts[p.mount] == MAX_MOUNT_TIMEOUTS {
          stuck' := stuck + [p.mount];
          log := log + [StuckReport(p.mount)];
        }
      case Broken =>
        if p.mount !in mountErr {
          mountErr := mountErr + {p.mount};
          failed' := failed + [p.mount];
          log := log + [FailedReport(p.mount)];
        }
      case Answered(u) =>
        mountTimeouts := mountTimeouts - {p.mount};
        if u.total == 0 {
          return;
        }
        var key := DeviceKey(p.device, u.total);
        if p.device != [] && key in seen {
          return;
        }
        seen' := seen + {key};
        kept' := kept + [Reading(p, u)];
    }

    /** Drops the entries of the mounts that are not in the table any more. */
    method EvictGone(live: set<Text>)
      modifies `mountTimeouts, `mountErr, `log
      ensures Mounts() == Evict(old(Mounts()), live)
    {
      var todo := mountErr;
      while todo != {}
        invariant mountTimeouts == old(mountTimeouts) && log == old(log)
        invariant todo <= mountErr <= old(mountErr)
        invariant forall m | m in old(mountErr) && m !in todo :: m in mountErr <==> m in live
        decreases |todo|
      {
        var m :| m in todo;
        todo := todo - {m};
        if m !in live {
          mountErr := mountErr - {m};
        }
      }
      assert mountErr == old(mountErr) * live;

      todo := mountTimeouts.Keys;
      while todo != {}
        invariant mountErr == old(mountErr) * live && log == old(log)
        invariant todo <= mountTimeouts.Keys <= old(mountTimeouts).Keys
        invariant forall m | m in mountTimeouts :: mountTimeouts[m] == old(mountTimeouts)[m]
        invariant forall m | m in old(mountTimeouts) && m !in todo :: m in mountTimeouts <==> m in live
        decreases |todo|
      {
        var m :| m in todo;
        todo := todo - {m};
        if m !in live {
          mountTimeouts := mountTimeouts - {m};
        }
      }
      log := log + [CycleEnd(live)];
    }

    /** Records the error of one collector. The result says whether the snapshot gets a line. */
    method Note(name: Text, problem: N.Problem, time: int) returns (reported: bool)
      requires Valid()
      modifies `timeoutAt, `notes
      ensures Valid() && notes == old(notes) + [N.Call(name, problem, time)]
      ensures reported <==> N.Reports(notes, |old(notes)|)
    {
      notes := notes + [N.Call(name, problem, time)];
      assert notes[..|notes| - 1] == old(notes);
      match problem
      case NoProblem =>
        timeoutAt := timeoutAt - {name};
        return false;
      case Plain =>
        return true;
      case Timeout =>
        if name in timeoutAt && time - timeoutAt[name] < N.TIMEOUT_LOG_EVERY {
          return false;
        }
        timeoutAt := timeoutAt[name := time];
        return true;
    }

    /** The CPU percentages since the previous sample, or since boot for the first one. The core count
        is asked for until it is known, and kept from then on. */
    method CollectCPU(sample: CpuSample, counts: Option<int>) returns (report: Option<CpuReport>)
      modifies `prevCPU, `haveCPU, `cores
      ensures report.Some? <==> sample.Now?
      ensures sample.Now? ==>
                && report.value.percents == C.PercentsOf(sample.times, if old(haveCPU) then old(prevCPU) else BOOT)
                && report.value.times == sample.times && report.value.cores == cores
                && prevCPU == sample.times && haveCPU
      ensures !sample.Now? ==> prevCPU == old(prevCPU) && haveCPU == old(haveCPU)
      ensures old(cores) != 0 || !sample.Now? ==> cores == old(cores)
      ensures old(cores) == 0 && sample.Now? ==>
                cores == if counts.Some? && counts.value > 0 then counts.value else 0
    {
      if !sample.Now? {
        return None;
      }
      if cores == 0 && counts.Some? && counts.value > 0 {
        cores := counts.value;
      }
      var prev := if haveCPU then prevCPU else BOOT;
      prevCPU, haveCPU := sample.times, true;
      return Some(CpuReport(cores, sample.times, C.PercentsOf(sample.times, prev)));
    }
  }

  /** In every reachable state the maps agree with the record of the reads and reports. */
  lemma MapsAreTruthful(c: Collector)
    requires c.Valid()
    ensures Truthful(c.Mounts())
  {
    RunKeepsFaith(c.tables);
  }
}

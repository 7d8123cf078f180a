/** The goroutines of one cycle: any interleaving ends in the state that running them one after
    another gives. */
module DockerFanout {
  import opened Bytes
  import opened DockerModel

  // ---- one step ----

  lemma {:induction false} HoldersStep(pcs: seq<Pc>, i: nat, pc: Pc)
    requires i < |pcs|
    ensures Holders(pcs[i := pc]) == Holders(pcs) - (if Holds(pcs[i]) then 1 else 0) + (if Holds(pc) then 1 else 0)
    ensures TotalRank(pcs[i := pc]) == TotalRank(pcs) - Rank(pcs[i]) + Rank(pc)
  {
    if i == 0 {
      assert pcs[i := pc][1..] == pcs[1..];
    } else {
      assert pcs[i := pc][1..] == pcs[1..][i - 1 := pc];
      HoldersStep(pcs[1..], i - 1, pc);
    }
  }

  /** The semaphore counts the goroutines inside it, and never more than its size. */
  lemma StepKeepsInv(tasks: seq<Task>, cycle: int, batch: nat, s: Fan, i: nat)
    requires Inv(tasks, batch, s) && Enabled(s, batch, i)
    ensures Inv(tasks, batch, Step(tasks, cycle, s, i))
    ensures TotalRank(Step(tasks, cycle, s, i).pcs) < TotalRank(s.pcs)
  {
    HoldersStep(s.pcs, i, Move(tasks[i], cycle, PartOf(tasks, s, i)).pc);
  }

  /** A step of one goroutine is a move of its own part, and no other part changes. */
  lemma StepIsLocal(tasks: seq<Task>, cycle: int, s: Fan, i: nat, j: nat)
    requires Fits(tasks, s) && DistinctIds(tasks) && i < |tasks| && j < |tasks|
    ensures PartOf(tasks, Step(tasks, cycle, s, i), j)
         == if i == j then Move(tasks[i], cycle, PartOf(tasks, s, i)) else PartOf(tasks, s, j)
  {
  }

  lemma StepKeepsEnd(tasks: seq<Task>, cycle: int, s: Fan, i: nat)
    requires Fits(tasks, s) && DistinctIds(tasks) && i < |tasks|
    ensures SameEnd(tasks, cycle, s, Step(tasks, cycle, s, i))
  {
    var s' := Step(tasks, cycle, s, i);
    forall j | 0 <= j < |tasks|
      ensures Alone(tasks[j], cycle, PartOf(tasks, s, j)) == Alone(tasks[j], cycle, PartOf(tasks, s', j))
    {
      StepIsLocal(tasks, cycle, s, i, j);
    }
  }

  lemma SameEndTransitive(tasks: seq<Task>, cycle: int, s: Fan, t: Fan, u: Fan)
    requires Fits(tasks, s) && Fits(tasks, t) && Fits(tasks, u)
    requires SameEnd(tasks, cycle, s, t) && SameEnd(tasks, cycle, t, u)
    ensures SameEnd(tasks, cycle, s, u)
  {
  }

  // ---- schedules ----

  /** The goroutines take their steps in this order, each when it is able to. */
  ghost predicate Legal(tasks: seq<Task>, cycle: int, batch: nat, s: Fan, schedule: seq<nat>)
    requires Fits(tasks, s)
    decreases |schedule|
  {
    schedule == [] || (Enabled(s, batch, schedule[0])
                       && Legal(tasks, cycle, batch, Step(tasks, cycle, s, schedule[0]), schedule[1..]))
  }

  ghost function Scheduled(tasks: seq<Task>, cycle: int, batch: nat, s: Fan, schedule: seq<nat>): (r: Fan)
    requires Fits(tasks, s) && Legal(tasks, cycle, batch, s, schedule)
    ensures Fits(tasks, r)
    decreases |schedule|
  {
    if schedule == [] then s
    else Scheduled(tasks, cycle, batch, Step(tasks, cycle, s, schedule[0]), schedule[1..])
  }

  lemma {:induction false} ScheduleKeepsInv(tasks: seq<Task>, cycle: int, batch: nat, s: Fan, schedule: seq<nat>)
    requires Inv(tasks, batch, s) && Legal(tasks, cycle, batch, s, schedule)
    ensures Inv(tasks, batch, Scheduled(tasks, cycle, batch, s, schedule))
    ensures |schedule| + TotalRank(Scheduled(tasks, cycle, batch, s, schedule).pcs) <= TotalRank(s.pcs)
    decreases |schedule|
  {
    if schedule != [] {
      StepKeepsInv(tasks, cycle, batch, s, schedule[0]);
      ScheduleKeepsInv(tasks, cycle, batch, Step(tasks, cycle, s, schedule[0]), schedule[1..]);
    }
  }

  lemma {:induction false} ScheduleKeepsEnd(tasks: seq<Task>, cycle: int, batch: nat, s: Fan, schedule: seq<nat>)
    requires Fits(tasks, s) && DistinctIds(tasks) && Legal(tasks, cycle, batch, s, schedule)
    ensures SameEnd(tasks, cycle, s, Scheduled(tasks, cycle, batch, s, schedule))
    decreases |schedule|
  {
    if schedule != [] {
      var next := Step(tasks, cycle, s, schedule[0]);
      StepKeepsEnd(tasks, cycle, s, schedule[0]);
      ScheduleKeepsEnd(tasks, cycle, batch, next, schedule[1..]);
      SameEndTransitive(tasks, cycle, s, next, Scheduled(tasks, cycle, batch, s, schedule));
    }
  }

  lemma {:induction false} NoHolders(pcs: seq<Pc>)
    requires forall i | 0 <= i < |pcs| :: !Holds(pcs[i])
    ensures Holders(pcs) == 0
  {
    if pcs != [] {
      NoHolders(pcs[1..]);
    }
  }

  /** No deadlock: while a goroutine is left, one can step. */
  lemma SomeoneCanStep(tasks: seq<Task>, batch: nat, s: Fan)
    requires Inv(tasks, batch, s) && batch > 0 && !AllGone(s)
    ensures exists i :: 0 <= i < |s.pcs| && Enabled(s, batch, i)
  {
    if i :| 0 <= i < |s.pcs| && Holds(s.pcs[i]) {
      assert Enabled(s, batch, i);
    } else {
      NoHolders(s.pcs);
      var i :| 0 <= i < |s.pcs| && !s.pcs[i].Gone?;
      assert Enabled(s, batch, i);
    }
  }

  // ---- one after another ----

  /** Goroutine i alone, to its end. */
  function Finish(tasks: seq<Task>, cycle: int, s: Fan, i: nat): (r: Fan)
    requires |s.pcs| == |s.out| == |s.errs| == |tasks| && i < |tasks|
    ensures |r.pcs| == |r.out| == |r.errs| == |tasks|
    decreases Rank(s.pcs[i])
  {
    if s.pcs[i].Gone? then s else Finish(tasks, cycle, Step(tasks, cycle, s, i), i)
  }

  /** The first n goroutines, in order. */
  function InOrder(tasks: seq<Task>, cycle: int, s: Fan, n: nat): (r: Fan)
    requires |s.pcs| == |s.out| == |s.errs| == |tasks| && n <= |tasks|
    ensures |r.pcs| == |r.out| == |r.errs| == |tasks|
  {
    if n == 0 then s else Finish(tasks, cycle, InOrder(tasks, cycle, s, n - 1), n - 1)
  }

  lemma StepMoves(tasks: seq<Task>, cycle: int, s: Fan, i: nat)
    requires Fits(tasks, s) && i < |tasks| && !s.pcs[i].Gone?
    ensures var next := Step(tasks, cycle, s, i);
            Rank(next.pcs[i]) < Rank(s.pcs[i]) && next.pcs == s.pcs[i := next.pcs[i]]
  {
  }

  lemma {:induction false} FinishKeeps(tasks: seq<Task>, cycle: int, s: Fan, i: nat)
    requires Fits(tasks, s) && DistinctIds(tasks) && i < |tasks|
    ensures var r := Finish(tasks, cycle, s, i);
            && SameEnd(tasks, cycle, s, r) && r.pcs[i].Gone?
            && forall j | 0 <= j < |tasks| && j != i :: r.pcs[j] == s.pcs[j]
    decreases Rank(s.pcs[i])
  {
    if !s.pcs[i].Gone? {
      var next := Step(tasks, cycle, s, i);
      StepMoves(tasks, cycle, s, i);
      StepKeepsEnd(tasks, cycle, s, i);
      FinishKeeps(tasks, cycle, next, i);
      SameEndTransitive(tasks, cycle, s, next, Finish(tasks, cycle, s, i));
    }
  }

  lemma InOrderStep(tasks: seq<Task>, cycle: int, s: Fan, n: nat)
    requires Fits(tasks, s) && 0 < n <= |tasks|
    ensures InOrder(tasks, cycle, s, n) == Finish(tasks, cycle, InOrder(tasks, cycle, s, n - 1), n - 1)
  {
  }

  ghost predicate GoneBelow(s: Fan, n: nat)
    requires n <= |s.pcs|
  {
    forall j | 0 <= j < n :: s.pcs[j].Gone?
  }

  lemma OneMoreGone(s: Fan, t: Fan, n: nat)
    requires n < |s.pcs| == |t.pcs| && GoneBelow(s, n) && t.pcs[n].Gone?
    requires forall j | 0 <= j < |s.pcs| && j != n :: t.pcs[j] == s.pcs[j]
    ensures GoneBelow(t, n + 1)
  {
  }

  lemma FinishGoesOn(tasks: seq<Task>, cycle: int, s: Fan, before: Fan, i: nat, after: Fan)
    requires Fits(tasks, s) && Fits(tasks, before) && DistinctIds(tasks) && i < |tasks|
    requires SameEnd(tasks, cycle, s, before) && GoneBelow(before, i)
    requires after == Finish(tasks, cycle, before, i)
    ensures SameEnd(tasks, cycle, s, after) && GoneBelow(after, i + 1)
  {
    FinishKeeps(tasks, cycle, before, i);
    SameEndTransitive(tasks, cycle, s, before, after);
    OneMoreGone(before, after, i);
  }

  lemma {:induction false} InOrderKeeps(tasks: seq<Task>, cycle: int, s: Fan, n: nat)
    requires Fits(tasks, s) && DistinctIds(tasks) && n <= |tasks|
    ensures SameEnd(tasks, cycle, s, InOrder(tasks, cycle, s, n)) && GoneBelow(InOrder(tasks, cycle, s, n), n)
  {
    if n == 0 {
      assert InOrder(tasks, cycle, s, 0) == s;
    } else {
      InOrderKeeps(tasks, cycle, s, n - 1);
      InOrderStep(tasks, cycle, s, n);
      FinishGoesOn(tasks, cycle, s, InOrder(tasks, cycle, s, n - 1), n - 1, InOrder(tasks, cycle, s, n));
    }
  }

  // ---- the end ----

  lemma {:induction false} AloneOfGone(t: Task, cycle: int, p: Part)
    requires p.pc.Gone?
    ensures Alone(t, cycle, p) == p
  {
  }

  /** Two ends of one cycle are one state. */
  lemma EndsAgree(tasks: seq<Task>, cycle: int, s: Fan, t: Fan)
    requires Fits(tasks, s) && Fits(tasks, t) && SameEnd(tasks, cycle, s, t)
    requires AllGone(s) && AllGone(t)
    ensures s.out == t.out && s.errs == t.errs && s.prev == t.prev && s.restart == t.restart
  {
    forall i | 0 <= i < |tasks|
      ensures PartOf(tasks, s, i) == PartOf(tasks, t, i)
    {
      AloneOfGone(tasks[i], cycle, PartOf(tasks, s, i));
      AloneOfGone(tasks[i], cycle, PartOf(tasks, t, i));
    }
    forall i | 0 <= i < |tasks|
      ensures s.out[i] == t.out[i] && s.errs[i] == t.errs[i]
    {
      assert PartOf(tasks, s, i) == PartOf(tasks, t, i);
    }
    forall id
      ensures Lookup(s.prev, id) == Lookup(t.prev, id) && Lookup(s.restart, id) == Lookup(t.restart, id)
    {
      if i :| 0 <= i < |tasks| && tasks[i].ct.id == id {
        assert PartOf(tasks, s, i) == PartOf(tasks, t, i);
      }
    }
    MapsAgree(s.prev, t.prev);
    MapsAgree(s.restart, t.restart);
  }

  lemma MapsAgree<V>(a: map<Text, V>, b: map<Text, V>)
    requires forall id :: Lookup(a, id) == Lookup(b, id)
    ensures a == b
  {
    forall id
      ensures id in a <==> id in b
      ensures id in a ==> a[id] == b[id]
    {
      assert Lookup(a, id) == Lookup(b, id);
    }
  }

  lemma SameEndSymmetric(tasks: seq<Task>, cycle: int, s: Fan, t: Fan)
    requires Fits(tasks, s) && Fits(tasks, t) && SameEnd(tasks, cycle, s, t)
    ensures SameEnd(tasks, cycle, t, s)
  {
  }

  /** Every complete interleaving of goroutines with distinct container IDs ends with the results,
      errors and maps of running them one after another, and the semaphore is free again. */
  lemma InterleavingsAgree(tasks: seq<Task>, cycle: int, batch: nat, s: Fan, schedule: seq<nat>)
    requires Inv(tasks, batch, s) && DistinctIds(tasks) && Legal(tasks, cycle, batch, s, schedule)
    requires AllGone(Scheduled(tasks, cycle, batch, s, schedule))
    ensures var end, one := Scheduled(tasks, cycle, batch, s, schedule), InOrder(tasks, cycle, s, |tasks|);
            && end.out == one.out && end.errs == one.errs && end.prev == one.prev && end.restart == one.restart
            && end.held == 0
  {
    var end, one := Scheduled(tasks, cycle, batch, s, schedule), InOrder(tasks, cycle, s, |tasks|);
    ScheduleKeepsInv(tasks, cycle, batch, s, schedule);
    ScheduleKeepsEnd(tasks, cycle, batch, s, schedule);
    InOrderKeeps(tasks, cycle, s, |tasks|);
    SameEndSymmetric(tasks, cycle, s, end);
    SameEndTransitive(tasks, cycle, end, s, one);
    EndsAgree(tasks, cycle, end, one);
    NoHolders(end.pcs);
  }

  /** In every state of every interleaving at most `batch` goroutines are inside the semaphore; the
      run takes at most six steps per goroutine, and it is not over before all are gone. */
  lemma SemaphoreHolds(tasks: seq<Task>, cycle: int, batch: nat, s: Fan, schedule: seq<nat>)
    requires Inv(tasks, batch, s) && Legal(tasks, cycle, batch, s, schedule) && batch > 0
    ensures var now := Scheduled(tasks, cycle, batch, s, schedule);
            && Holders(now.pcs) == now.held <= batch
            && |schedule| <= 6 * |tasks|
            && (!AllGone(now) ==> exists i :: 0 <= i < |now.pcs| && Enabled(now, batch, i))
  {
    ScheduleKeepsInv(tasks, cycle, batch, s, schedule);
    RankBound(s.pcs);
    if !AllGone(Scheduled(tasks, cycle, batch, s, schedule)) {
      SomeoneCanStep(tasks, batch, Scheduled(tasks, cycle, batch, s, schedule));
    }
  }

  lemma {:induction false} RankBound(pcs: seq<Pc>)
    ensures TotalRank(pcs) <= 6 * |pcs|
  {
    if pcs != [] {
      RankBound(pcs[1..]);
    }
  }
}

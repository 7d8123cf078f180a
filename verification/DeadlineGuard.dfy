/** deadline, begin and end as a protocol: one caller, a worker goroutine per started call, the
    in-flight set under its mutex, and a one-slot channel per call. A worker may be late by any
    time, or never return. Every step below is atomic in the program; they interleave freely. */
module DeadlineGuard {
  import opened Wrappers
  import opened Bytes

  /** Where a worker is: in fn; past fn; past end; past the send; past the deferred cancel. */
  datatype Phase = Running | Returned | Ended | Sent | Finished

  datatype Worker<V> = Worker(name: Text, phase: Phase, answer: Option<V>) {
    /** begin has set the flag of this worker, and end has not cleared it yet. */
    predicate Active() { phase.Running? || phase.Returned? }

    predicate HasSent() { phase.Sent? || phase.Finished? }
  }

  /** Where the caller is: outside deadline; in the outer select; in the inner select; past the
      inner select. */
  datatype Caller = Idle | Waiting(id: nat) | Checking(id: nat) | GivingUp(id: nat)

  /** What deadline returned. `Stopped` is the error of the parent context. */
  datatype Reply<V> = Value(id: nat, v: V) | TimedOut(id: nat) | Stopped(id: nat) | Refused(name: Text)

  /** `ended` are the calls whose parent context has ended, `fired` those whose own deadline has passed,
      and `cancelled` those whose worker has run its deferred cancel. Each call may have a parent
      context of its own: the last collection of a stopping agent runs under a fresh one. */
  datatype State<V> = State(
    inflight: set<Text>,
    workers: seq<Worker<V>>,
    slots: map<nat, V>,
    fired: set<nat>,
    cancelled: set<nat>,
    ended: set<nat>,
    caller: Caller,
    replies: seq<Reply<V>>)

  function Initial<V>(): State<V> {
    State({}, [], map[], {}, {}, {}, Idle, [])
  }

  datatype Step<V> =
    | Begin(name: Text)
    | FnReturns(id: nat, v: V)
    | WorkerEnds(id: nat)
    | WorkerSends(id: nat)
    | WorkerCancels(id: nat)
    | DeadlineFires(id: nat)
    | ParentEnds(id: nat)
    | Receive
    | SeeDone
    | InnerSelect
    | GiveUp

  predicate InPhase<V>(s: State<V>, id: nat, phase: Phase) {
    id < |s.workers| && s.workers[id].phase == phase
  }

  /** The context of a call: its own deadline, the cancel of its worker, or the parent. */
  predicate ContextDone<V>(s: State<V>, id: nat) {
    id in s.ended || id in s.fired || id in s.cancelled
  }

  predicate Enabled<V>(s: State<V>, step: Step<V>) {
    match step
    case Begin(_) => s.caller.Idle?
    case FnReturns(id, _) => InPhase(s, id, Running)
    case WorkerEnds(id) => InPhase(s, id, Returned)
    case WorkerSends(id) => InPhase(s, id, Ended) && s.workers[id].answer.Some? && id !in s.slots
    case WorkerCancels(id) => InPhase(s, id, Sent)
    case DeadlineFires(id) => id < |s.workers|
    case ParentEnds(id) => id < |s.workers|
    case Receive => s.caller.Waiting? && s.caller.id in s.slots
    case SeeDone => s.caller.Waiting? && ContextDone(s, s.caller.id)
    case InnerSelect => s.caller.Checking?
    case GiveUp => s.caller.GivingUp?
  }

  function Move<V>(s: State<V>, id: nat, phase: Phase): State<V>
    requires id < |s.workers|
  {
    s.(workers := s.workers[id := s.workers[id].(phase := phase)])
  }

  function TakeValue<V>(s: State<V>, id: nat): State<V>
    requires id in s.slots
  {
    s.(slots := s.slots - {id}, caller := Idle, replies := s.replies + [Value(id, s.slots[id])])
  }

  function Apply<V>(s: State<V>, step: Step<V>): State<V>
    requires Enabled(s, step)
  {
    match step
    case Begin(name) =>
      if name in s.inflight then s.(replies := s.replies + [Refused(name)])
      else
        var id := |s.workers|;
        s.(inflight := s.inflight + {name}, workers := s.workers + [Worker(name, Running, None)],
           caller := Waiting(id))
    case FnReturns(id, v) =>
      s.(workers := s.workers[id := s.workers[id].(phase := Returned, answer := Some(v))])
    case WorkerEnds(id) => Move(s, id, Ended).(inflight := s.inflight - {s.workers[id].name})
    case WorkerSends(id) => Move(s, id, Sent).(slots := s.slots[id := s.workers[id].answer.value])
    case WorkerCancels(id) => Move(s, id, Finished).(cancelled := s.cancelled + {id})
    case DeadlineFires(id) => s.(fired := s.fired + {id})
    case ParentEnds(id) => s.(ended := s.ended + {id})
    case Receive => TakeValue(s, s.caller.id)
    case SeeDone => s.(caller := Checking(s.caller.id))
    case InnerSelect =>
      if s.caller.id in s.slots then TakeValue(s, s.caller.id) else s.(caller := GivingUp(s.caller.id))
    case GiveUp =>
      var id := s.caller.id;
      s.(caller := Idle, replies := s.replies + [if id in s.ended then Stopped(id) else TimedOut(id)])
  }

  // ---- the invariant ----

  /** Of all workers of one name, only the last can hold the flag; and the flag is set exactly
      while one does. */
  ghost predicate FlagsMatch<V>(s: State<V>) {
    && (forall i, j | 0 <= i < j < |s.workers| && s.workers[i].name == s.workers[j].name :: !s.workers[i].Active())
    && (forall i | 0 <= i < |s.workers| && s.workers[i].Active() :: s.workers[i].name in s.inflight)
    && (forall n | n in s.inflight :: exists i :: 0 <= i < |s.workers| && s.workers[i].name == n && s.workers[i].Active())
  }

  /** A value in a slot or in a reply is the answer of the worker of that call. */
  ghost predicate ValuesMatch<V>(s: State<V>) {
    && (forall i | 0 <= i < |s.workers| :: s.workers[i].phase.Running? <==> s.workers[i].answer.None?)
    && (forall id | id in s.slots ::
          id < |s.workers| && s.workers[id].HasSent() && s.workers[id].answer == Some(s.slots[id]))
    && (forall r | r in s.replies && r.Value? ::
          r.id < |s.workers| && s.workers[r.id].HasSent() && s.workers[r.id].answer == Some(r.v) && r.id !in s.slots)
  }

  predicate Answers<V>(r: Reply<V>, id: nat) { !r.Refused? && r.id == id }

  /** The caller is in the last started call, which has no reply yet; a call gets one reply. */
  ghost predicate CallerMatches<V>(s: State<V>) {
    && (!s.caller.Idle? ==> s.caller.id + 1 == |s.workers|)
    && (forall k | 0 <= k < |s.replies| && !s.replies[k].Refused? :: s.replies[k].id < |s.workers|)
    && (!s.caller.Idle? ==> forall k | 0 <= k < |s.replies| :: !Answers(s.replies[k], s.caller.id))
    && (forall k, m | 0 <= k < m < |s.replies| && !s.replies[k].Refused? && !s.replies[m].Refused? ::
          s.replies[k].id < s.replies[m].id)
  }

  /** A worker cancels after its send, and what it has sent stays in the slot while the caller is in
      the call. So only a deadline or the parent makes the caller give up. */
  ghost predicate ContextsMatch<V>(s: State<V>) {
    && (forall id | id in s.cancelled :: InPhase(s, id, Finished))
    && (!s.caller.Idle? && s.caller.id < |s.workers| && s.workers[s.caller.id].HasSent() ==> s.caller.id in s.slots)
    && (s.caller.Checking? ==> ContextDone(s, s.caller.id))
    && (s.caller.GivingUp? ==> s.caller.id in s.ended || s.caller.id in s.fired)
    && (forall r | r in s.replies :: (r.TimedOut? ==> r.id in s.fired) && (r.Stopped? ==> r.id in s.ended))
  }

  predicate IsAnswered<V>(replies: seq<Reply<V>>, id: nat) {
    exists k :: 0 <= k < |replies| && Answers(replies[k], id)
  }

  /** Every started call but the one that the caller is in has a reply. */
  ghost predicate CallsAnswered<V>(s: State<V>) {
    forall id: nat | id < |s.workers| && (s.caller.Idle? || s.caller.id != id) :: IsAnswered(s.replies, id)
  }

  ghost predicate Inv<V>(s: State<V>) {
    FlagsMatch(s) && ValuesMatch(s) && CallerMatches(s) && ContextsMatch(s) && CallsAnswered(s)
  }

  lemma ReplyAnswers<V>(replies: seq<Reply<V>>, r: Reply<V>, id: nat)
    requires IsAnswered(replies, id) || Answers(r, id)
    ensures IsAnswered(replies + [r], id)
  {
    if k :| 0 <= k < |replies| && Answers(replies[k], id) {
      assert (replies + [r])[k] == replies[k];
    } else {
      assert (replies + [r])[|replies|] == r;
    }
  }

  lemma StepKeepsAnswered<V>(s: State<V>, step: Step<V>)
    requires CallsAnswered(s) && CallerMatches(s) && Enabled(s, step)
    ensures CallsAnswered(Apply(s, step))
  {
    var s' := Apply(s, step);
    forall id: nat | id < |s'.workers| && (s'.caller.Idle? || s'.caller.id != id)
      ensures IsAnswered(s'.replies, id)
    {
      if |s'.replies| > |s.replies| {
        ReplyAnswers(s.replies, s'.replies[|s.replies|], id);
      }
    }
  }

  lemma BeginKeepsFlags<V>(s: State<V>, name: Text)
    requires FlagsMatch(s) && s.caller.Idle? && name !in s.inflight
    ensures FlagsMatch(Apply(s, Begin(name)))
  {
    var s' := Apply(s, Begin(name));
    var id := |s.workers|;
    forall n | n in s'.inflight
      ensures exists i :: 0 <= i < |s'.workers| && s'.workers[i].name == n && s'.workers[i].Active()
    {
      if n == name {
        assert s'.workers[id].name == n && s'.workers[id].Active();
      } else {
        var i :| 0 <= i < |s.workers| && s.workers[i].name == n && s.workers[i].Active();
        assert s'.workers[i] == s.workers[i];
      }
    }
  }

  lemma BeginKeepsRest<V>(s: State<V>, name: Text)
    requires ValuesMatch(s) && CallerMatches(s) && s.caller.Idle?
    ensures ValuesMatch(Apply(s, Begin(name)))
    ensures CallerMatches(Apply(s, Begin(name)))
  {
  }

  lemma BeginKeepsContexts<V>(s: State<V>, name: Text)
    requires ContextsMatch(s) && s.caller.Idle?
    ensures ContextsMatch(Apply(s, Begin(name)))
  {
    assert forall id | id in s.cancelled :: InPhase(s, id, Finished);
  }

  lemma BeginKeepsInv<V>(s: State<V>, name: Text)
    requires Inv(s) && s.caller.Idle?
    ensures Inv(Apply(s, Begin(name)))
  {
    BeginKeepsRest(s, name);
    BeginKeepsContexts(s, name);
    StepKeepsAnswered(s, Begin(name));
    if name in s.inflight {
      assert FlagsMatch(Apply(s, Begin(name)));
    } else {
      BeginKeepsFlags(s, name);
    }
  }

  /** A worker that changes its phase but not its hold on the flag. */
  lemma FlagsAfterMove<V>(s: State<V>, s': State<V>, id: nat)
    requires FlagsMatch(s) && id < |s.workers| && |s'.workers| == |s.workers|
    requires s'.inflight == s.inflight
    requires forall i | 0 <= i < |s.workers| :: s'.workers[i].name == s.workers[i].name
    requires forall i | 0 <= i < |s.workers| :: s'.workers[i].Active() == s.workers[i].Active()
    ensures FlagsMatch(s')
  {
    forall n | n in s'.inflight
      ensures exists i :: 0 <= i < |s'.workers| && s'.workers[i].name == n && s'.workers[i].Active()
    {
      var i :| 0 <= i < |s.workers| && s.workers[i].name == n && s.workers[i].Active();
      assert s'.workers[i].name == n && s'.workers[i].Active();
    }
  }

  lemma EndKeepsFlags<V>(s: State<V>, id: nat)
    requires FlagsMatch(s) && InPhase(s, id, Returned)
    ensures FlagsMatch(Apply(s, WorkerEnds(id)))
  {
    var s' := Apply(s, WorkerEnds(id));
    assert s.workers[id].Active();
    forall i | 0 <= i < |s'.workers| && s'.workers[i].Active()
      ensures s'.workers[i].name in s'.inflight
    {
      assert i != id && s.workers[i] == s'.workers[i];
      assert s.workers[i].name != s.workers[id].name;
    }
    forall n | n in s'.inflight
      ensures exists i :: 0 <= i < |s'.workers| && s'.workers[i].name == n && s'.workers[i].Active()
    {
      var i :| 0 <= i < |s.workers| && s.workers[i].name == n && s.workers[i].Active();
      assert i != id;
      assert s'.workers[i] == s.workers[i];
    }
  }

  lemma WorkerKeepsValues<V>(s: State<V>, step: Step<V>)
    requires ValuesMatch(s) && Enabled(s, step)
    requires step.FnReturns? || step.WorkerEnds? || step.WorkerSends? || step.WorkerCancels?
    ensures ValuesMatch(Apply(s, step))
  {
    var s' := Apply(s, step);
    assert forall i | 0 <= i < |s.workers| && i != step.id :: s'.workers[i] == s.workers[i];
  }

  lemma WorkerKeepsFlags<V>(s: State<V>, step: Step<V>)
    requires FlagsMatch(s) && ValuesMatch(s) && Enabled(s, step)
    requires step.FnReturns? || step.WorkerEnds? || step.WorkerSends? || step.WorkerCancels?
    ensures FlagsMatch(Apply(s, step))
  {
    if step.WorkerEnds? {
      EndKeepsFlags(s, step.id);
    } else {
      FlagsAfterMove(s, Apply(s, step), step.id);
    }
  }

  lemma WorkerKeepsContexts<V>(s: State<V>, step: Step<V>)
    requires ContextsMatch(s) && Enabled(s, step)
    requires step.FnReturns? || step.WorkerEnds? || step.WorkerSends? || step.WorkerCancels?
    ensures ContextsMatch(Apply(s, step))
  {
    var s' := Apply(s, step);
    forall id | id in s'.cancelled
      ensures InPhase(s', id, Finished)
    {
      if id != step.id {
        assert InPhase(s, id, Finished) && s'.workers[id] == s.workers[id];
      }
    }
  }

  lemma WorkerKeepsInv<V>(s: State<V>, step: Step<V>)
    requires Inv(s) && Enabled(s, step)
    requires step.FnReturns? || step.WorkerEnds? || step.WorkerSends? || step.WorkerCancels?
    ensures Inv(Apply(s, step))
  {
    WorkerKeepsValues(s, step);
    WorkerKeepsFlags(s, step);
    WorkerKeepsContexts(s, step);
    StepKeepsAnswered(s, step);
    assert CallerMatches(Apply(s, step));
  }

  predicate IsOutsideStep<V>(step: Step<V>) {
    step.DeadlineFires? || step.ParentEnds? || IsCallerStep(step)
  }

  lemma OutsideKeepsCaller<V>(s: State<V>, step: Step<V>)
    requires CallerMatches(s) && Enabled(s, step) && IsOutsideStep(step)
    ensures CallerMatches(Apply(s, step))
  {
  }

  lemma OutsideKeepsValues<V>(s: State<V>, step: Step<V>)
    requires ValuesMatch(s) && Enabled(s, step) && IsOutsideStep(step)
    ensures ValuesMatch(Apply(s, step))
  {
  }

  lemma OutsideKeepsFlags<V>(s: State<V>, step: Step<V>)
    requires FlagsMatch(s) && Enabled(s, step) && IsOutsideStep(step)
    ensures FlagsMatch(Apply(s, step))
  {
    var s' := Apply(s, step);
    assert s'.workers == s.workers && s'.inflight == s.inflight;
  }

  lemma OutsideKeepsContexts<V>(s: State<V>, step: Step<V>)
    requires ContextsMatch(s) && CallerMatches(s) && Enabled(s, step) && IsOutsideStep(step)
    ensures ContextsMatch(Apply(s, step))
  {
    var s' := Apply(s, step);
    if step.InnerSelect? && s.caller.id in s.cancelled {
      assert InPhase(s, s.caller.id, Finished);
    }
    assert forall id | id in s'.cancelled :: InPhase(s, id, Finished);
  }

  lemma OutsideKeepsInv<V>(s: State<V>, step: Step<V>)
    requires Inv(s) && Enabled(s, step) && IsOutsideStep(step)
    ensures Inv(Apply(s, step))
  {
    OutsideKeepsCaller(s, step);
    OutsideKeepsValues(s, step);
    OutsideKeepsContexts(s, step);
    OutsideKeepsFlags(s, step);
    StepKeepsAnswered(s, step);
  }

  lemma StepKeepsInv<V>(s: State<V>, step: Step<V>)
    requires Inv(s) && Enabled(s, step)
    ensures Inv(Apply(s, step))
  {
    match step
    case Begin(name) => BeginKeepsInv(s, name);
    case FnReturns(_, _) => WorkerKeepsInv(s, step);
    case WorkerEnds(_) => WorkerKeepsInv(s, step);
    case WorkerSends(_) => WorkerKeepsInv(s, step);
    case WorkerCancels(_) => WorkerKeepsInv(s, step);
    case _ => OutsideKeepsInv(s, step);
  }

  // ---- runs ----

  /** The steps can be taken one after another from the state. */
  ghost predicate Legal<V>(s: State<V>, steps: seq<Step<V>>)
    decreases |steps|
  {
    steps == [] || (Enabled(s, steps[0]) && Legal(Apply(s, steps[0]), steps[1..]))
  }

  ghost function After<V>(s: State<V>, steps: seq<Step<V>>): State<V>
    requires Legal(s, steps)
    decreases |steps|
  {
    if steps == [] then s else After(Apply(s, steps[0]), steps[1..])
  }

  /** Every interleaving keeps the invariant. */
  lemma {:induction false} RunKeepsInv<V>(s: State<V>, steps: seq<Step<V>>)
    requires Inv(s) && Legal(s, steps)
    ensures Inv(After(s, steps))
    decreases |steps|
  {
    if steps != [] {
      StepKeepsInv(s, steps[0]);
      RunKeepsInv(Apply(s, steps[0]), steps[1..]);
    }
  }

  ghost predicate Reachable<V(!new)>(s: State<V>) {
    exists steps :: Legal(Initial<V>(), steps) && After(Initial<V>(), steps) == s
  }

  lemma ReachableInv<V(!new)>(s: State<V>)
    requires Reachable(s)
    ensures Inv(s)
  {
    var steps :| Legal(Initial<V>(), steps) && After(Initial<V>(), steps) == s;
    RunKeepsInv(Initial<V>(), steps);
  }

  // ---- main results ----

  /** The flag of a name is set exactly when one worker of that name has not passed end, and
      that worker is the last one started under the name. */
  lemma FlagMeansOneWorker<V(!new)>(s: State<V>, n: Text)
    requires Reachable(s)
    ensures n in s.inflight <==> exists i :: 0 <= i < |s.workers| && s.workers[i].name == n && s.workers[i].Active()
    ensures forall i, j | 0 <= i < j < |s.workers| && s.workers[i].name == s.workers[j].name :: !s.workers[i].Active()
  {
    ReachableInv(s);
  }

  /** A call that never returns costs one worker: while it runs, no later call of its name was
      started, whatever else happened. */
  lemma StuckCallCostsOneWorker<V(!new)>(s: State<V>, i: nat, j: nat)
    requires Reachable(s) && i < |s.workers| && s.workers[i].phase.Running?
    requires j < |s.workers| && s.workers[j].name == s.workers[i].name
    ensures j <= i
  {
    ReachableInv(s);
  }

  ghost function ActiveIds<V>(s: State<V>): set<nat> {
    set i: nat | i < |s.workers| && s.workers[i].Active()
  }

  ghost function NamesOf<V>(s: State<V>, ids: set<nat>): set<Text>
    requires forall i | i in ids :: i < |s.workers|
  {
    set i | i in ids :: s.workers[i].name
  }

  lemma OtherName<V>(s: State<V>, i: nat, j: nat)
    requires FlagsMatch(s) && i in ActiveIds(s) && j in ActiveIds(s) && i != j
    ensures s.workers[i].name != s.workers[j].name
  {
    assert i < j || j < i;
  }

  lemma NamesGrow<V>(s: State<V>, ids: set<nat>, i: nat)
    requires i in ids && forall j | j in ids :: j < |s.workers|
    ensures NamesOf(s, ids) == NamesOf(s, ids - {i}) + {s.workers[i].name}
  {
  }

  ghost predicate NamesApart<V>(s: State<V>, ids: set<nat>) {
    && (forall i | i in ids :: i < |s.workers|)
    && (forall i, j | i in ids && j in ids && i != j :: s.workers[i].name != s.workers[j].name)
  }

  lemma ActiveApart<V>(s: State<V>)
    requires FlagsMatch(s)
    ensures NamesApart(s, ActiveIds(s))
  {
    forall i, j | i in ActiveIds(s) && j in ActiveIds(s) && i != j
      ensures s.workers[i].name != s.workers[j].name
    {
      OtherName(s, i, j);
    }
  }

  lemma {:induction false} DistinctNames<V>(s: State<V>, ids: set<nat>)
    requires NamesApart(s, ids)
    ensures |NamesOf(s, ids)| == |ids|
    decreases |ids|
  {
    if ids != {} {
      var i :| i in ids;
      DistinctNames(s, ids - {i});
      NamesGrow(s, ids, i);
      assert s.workers[i].name !in NamesOf(s, ids - {i});
    }
  }

  /** The workers that have not passed end are as many as the flags that are set: at most one for
      each distinct name, however many calls were made. */
  lemma WorkersAreBounded<V(!new)>(s: State<V>)
    requires Reachable(s)
    ensures |ActiveIds(s)| == |s.inflight|
  {
    ReachableInv(s);
    ActiveApart(s);
    DistinctNames(s, ActiveIds(s));
    var names := NamesOf(s, ActiveIds(s));
    forall n
      ensures n in names <==> n in s.inflight
    {
      if n in s.inflight {
        var i :| 0 <= i < |s.workers| && s.workers[i].name == n && s.workers[i].Active();
        assert i in ActiveIds(s);
      }
    }
    assert names == s.inflight;
  }

  /** A value that deadline returns is the value of its own call, and each started call has at most
      one reply: a late answer never reaches a later call. */
  lemma RepliesAreOwn<V(!new)>(s: State<V>, k: nat)
    requires Reachable(s) && k < |s.replies| && !s.replies[k].Refused?
    ensures var r := s.replies[k];
            && r.id < |s.workers|
            && (r.Value? ==> s.workers[r.id].answer == Some(r.v))
            && (forall m | 0 <= m < |s.replies| && m != k :: !Answers(s.replies[m], r.id))
  {
    ReachableInv(s);
    assert s.replies[k] in s.replies;
  }

  /** A call ends with a reply: every started call has exactly one, or the caller is still in it. */
  lemma EveryCallIsAnswered<V(!new)>(s: State<V>, id: nat) returns (k: nat)
    requires Reachable(s) && id < |s.workers| && (s.caller.Idle? || s.caller.id != id)
    ensures k < |s.replies| && Answers(s.replies[k], id)
    ensures forall m | 0 <= m < |s.replies| && m != k :: !Answers(s.replies[m], id)
  {
    ReachableInv(s);
    assert IsAnswered(s.replies, id);
    k :| 0 <= k < |s.replies| && Answers(s.replies[k], id);
    RepliesAreOwn(s, k);
  }

  /** Which calls start: a call starts a worker of its name, and the caller waits for it, if and only
      if no worker of that very name is active; else it is refused, and nothing else happens. Calls of
      other names never matter. */
  lemma BeginStarts<V(!new)>(s: State<V>, n: Text)
    requires Reachable(s) && s.caller.Idle?
    ensures Enabled(s, Begin(n))
    ensures var s' := Apply(s, Begin(n));
            if exists i :: 0 <= i < |s.workers| && s.workers[i].name == n && s.workers[i].Active() then
              s' == s.(replies := s.replies + [Refused(n)])
            else
              && s'.workers == s.workers + [Worker(n, Running, None)] && s'.caller == Waiting(|s.workers|)
              && s'.replies == s.replies && s'.slots == s.slots
              && s'.fired == s.fired && s'.cancelled == s.cancelled && s'.ended == s.ended
  {
    ReachableInv(s);
  }

  /** Once deadline has returned a value under a name, the next call of that name starts. */
  lemma NextCallIsNotRefused<V(!new)>(s: State<V>, k: nat)
    requires Reachable(s) && s.caller.Idle? && k < |s.replies| && s.replies[k].Value?
    requires var id := s.replies[k].id;
             id < |s.workers| && forall j | id < j < |s.workers| :: s.workers[j].name != s.workers[id].name
    ensures var n := s.workers[s.replies[k].id].name;
            var s' := Apply(s, Begin(n));
            && s'.workers == s.workers + [Worker(n, Running, None)] && s'.caller == Waiting(|s.workers|)
            && s'.replies == s.replies
  {
    ReachableInv(s);
    assert s.replies[k] in s.replies;
    var id := s.replies[k].id;
    forall i | 0 <= i < |s.workers| && s.workers[i].name == s.workers[id].name
      ensures !s.workers[i].Active()
    {
      assert i <= id;
    }
    BeginStarts(s, s.workers[id].name);
  }

  /** The world is free: fn may return anything at any time, also after the deadline and while another
      call runs; and a deadline may pass and a parent context end at any time. None of it touches the
      flags or the caller. */
  lemma WorldIsFree<V>(s: State<V>, id: nat, v: V)
    requires id < |s.workers|
    ensures s.workers[id].phase.Running? ==>
              Enabled(s, FnReturns(id, v)) && Apply(s, FnReturns(id, v)).workers[id].answer == Some(v)
              && Apply(s, FnReturns(id, v)).inflight == s.inflight && Apply(s, FnReturns(id, v)).caller == s.caller
    ensures Enabled(s, DeadlineFires(id)) && Apply(s, DeadlineFires(id)) == s.(fired := s.fired + {id})
    ensures Enabled(s, ParentEnds(id)) && Apply(s, ParentEnds(id)) == s.(ended := s.ended + {id})
  {
  }

  /** A value that waits for the caller is what deadline returns, from either select. */
  lemma WaitingValueIsReturned<V(!new)>(s: State<V>)
    requires Reachable(s) && (s.caller.Waiting? || s.caller.Checking?) && s.caller.id in s.slots
    ensures var step: Step<V> := if s.caller.Waiting? then Receive else InnerSelect;
            && s.caller.id < |s.workers| && s.workers[s.caller.id].answer.Some? && Enabled(s, step)
            && Apply(s, step).caller.Idle?
            && Apply(s, step).replies == s.replies + [Value(s.caller.id, s.workers[s.caller.id].answer.value)]
  {
    ReachableInv(s);
  }

  /** A caller that gives up names the ended parent before its own deadline. */
  lemma GivenUpCall<V(!new)>(s: State<V>)
    requires Reachable(s) && s.caller.GivingUp?
    ensures Enabled(s, GiveUp) && Apply(s, GiveUp).caller.Idle?
    ensures Apply(s, GiveUp).replies
         == s.replies + [if s.caller.id in s.ended then Stopped(s.caller.id) else TimedOut(s.caller.id)]
    ensures s.caller.id !in s.ended ==> s.caller.id in s.fired
  {
    ReachableInv(s);
  }

  /** Once fn has returned, however late, the worker runs to its end on its own, and frees the name. */
  lemma LateWorkerFinishes<V(!new)>(s: State<V>, id: nat)
    requires Reachable(s) && InPhase(s, id, Returned)
    ensures Legal(s, [WorkerEnds(id), WorkerSends(id), WorkerCancels(id)])
    ensures var s' := After(s, [WorkerEnds(id), WorkerSends(id), WorkerCancels(id)]);
            && InPhase(s', id, Finished) && s.workers[id].name !in s'.inflight
            && s.workers[id].answer.Some? && id in s'.slots && s'.slots[id] == s.workers[id].answer.value
            && s'.replies == s.replies && s'.caller == s.caller
  {
    ReachableInv(s);
    var rest: seq<Step<V>> := [WorkerSends(id), WorkerCancels(id)];
    var last: seq<Step<V>> := [WorkerCancels(id)];
    var s1 := Apply(s, WorkerEnds(id));
    assert Enabled(s1, WorkerSends(id));
    var s2 := Apply(s1, WorkerSends(id));
    assert Enabled(s2, WorkerCancels(id));
    var s3 := Apply(s2, WorkerCancels(id));
    assert rest[1..] == last && last[1..] == [];
    assert Legal(s3, []) && After(s3, []) == s3;
    assert Legal(s2, last) && After(s2, last) == s3;
    assert Legal(s1, rest) && After(s1, rest) == s3;
    assert [WorkerEnds(id), WorkerSends(id), WorkerCancels(id)][1..] == rest;
  }

  /** A worker never blocks on its send: the slot of its call is free. */
  lemma SendNeverBlocks<V(!new)>(s: State<V>, id: nat)
    requires Reachable(s) && InPhase(s, id, Ended)
    ensures Enabled(s, WorkerSends(id))
  {
    ReachableInv(s);
  }

  /** The number of its own steps that keep the caller inside deadline. */
  function StepsLeft(c: Caller): nat {
    match c
    case Idle => 0
    case GivingUp(_) => 1
    case Checking(_) => 2
    case Waiting(_) => 3
  }

  predicate IsCallerStep<V>(step: Step<V>) {
    step.Receive? || step.SeeDone? || step.InnerSelect? || step.GiveUp?
  }

  /** Once the context of the call is done it stays done, and the caller can go on without any worker;
      every step of its own brings it nearer to its return, and no other step moves it. */
  lemma CallerCanReturn<V>(s: State<V>)
    requires !s.caller.Idle? && ContextDone(s, s.caller.id)
    ensures exists step :: Enabled(s, step) && IsCallerStep(step)
    ensures forall step | Enabled(s, step) ::
              if IsCallerStep(step) then StepsLeft(Apply(s, step).caller) < StepsLeft(s.caller)
              else Apply(s, step).caller == s.caller
    ensures forall step | Enabled(s, step) :: ContextDone(Apply(s, step), s.caller.id)
  {
    var step: Step<V> := if s.caller.Waiting? then SeeDone else if s.caller.Checking? then InnerSelect else GiveUp;
    assert Enabled(s, step) && IsCallerStep(step);
  }

  function CallerSteps<V>(steps: seq<Step<V>>): nat {
    if steps == [] then 0 else (if IsCallerStep(steps[0]) then 1 else 0) + CallerSteps(steps[1..])
  }

  /** The caller is inside deadline in every state of the run. */
  ghost predicate StaysInside<V>(s: State<V>, steps: seq<Step<V>>)
    requires Legal(s, steps)
    decreases |steps|
  {
    !s.caller.Idle? && (steps == [] || StaysInside(Apply(s, steps[0]), steps[1..]))
  }

  lemma {:induction false} InsideCosts<V>(s: State<V>, steps: seq<Step<V>>)
    requires Legal(s, steps) && StaysInside(s, steps) && ContextDone(s, s.caller.id)
    ensures CallerSteps(steps) + StepsLeft(After(s, steps).caller) <= StepsLeft(s.caller)
    decreases |steps|
  {
    if steps != [] {
      CallerCanReturn(s);
      var s' := Apply(s, steps[0]);
      assert s'.caller == s.caller || IsCallerStep(steps[0]);
      SameCall(s, steps[0]);
      InsideCosts(s', steps[1..]);
    }
  }

  lemma SameCall<V>(s: State<V>, step: Step<V>)
    requires !s.caller.Idle? && Enabled(s, step) && !Apply(s, step).caller.Idle?
    ensures Apply(s, step).caller.id == s.caller.id
  {
  }

  /** Whatever the workers do: once the context of the call is done, the caller returns by its third
      step, and a step of its own is possible until it has returned. */
  lemma CallerReturns<V>(s: State<V>, steps: seq<Step<V>>)
    requires !s.caller.Idle? && ContextDone(s, s.caller.id)
    requires Legal(s, steps) && StaysInside(s, steps)
    ensures CallerSteps(steps) < 3
    ensures exists step :: Enabled(After(s, steps), step) && IsCallerStep(step)
  {
    InsideCosts(s, steps);
    StillInside(s, steps);
    CallerCanReturn(After(s, steps));
  }

  lemma {:induction false} StillInside<V>(s: State<V>, steps: seq<Step<V>>)
    requires Legal(s, steps) && StaysInside(s, steps) && ContextDone(s, s.caller.id)
    ensures !After(s, steps).caller.Idle? && ContextDone(After(s, steps), After(s, steps).caller.id)
    decreases |steps|
  {
    if steps != [] {
      CallerCanReturn(s);
      SameCall(s, steps[0]);
      StillInside(Apply(s, steps[0]), steps[1..]);
    }
  }

  /** The worker clears the flag before it sends. So whenever a value waits for the caller, in the
      outer or in the inner select, the flag of the name is already clear. */
  lemma ValueAfterEnd<V(!new)>(s: State<V>)
    requires Reachable(s) && !s.caller.Idle? && s.caller.id in s.slots
    ensures s.caller.id < |s.workers| && s.workers[s.caller.id].name !in s.inflight
  {
    ReachableInv(s);
    var id := s.caller.id;
    forall i | 0 <= i < |s.workers| && s.workers[i].name == s.workers[id].name
      ensures !s.workers[i].Active()
    {
      assert i <= id;
    }
  }

  /** What a step adds to the causes of a reply. */
  lemma StepCauses<V>(s: State<V>, step: Step<V>)
    requires Enabled(s, step)
    ensures forall id | id in Apply(s, step).fired :: id in s.fired || step == DeadlineFires(id)
    ensures forall id | id in Apply(s, step).ended :: id in s.ended || step == ParentEnds(id)
    ensures forall id | 0 <= id < |Apply(s, step).workers| && Apply(s, step).workers[id].answer.Some? ::
              || (id < |s.workers| && s.workers[id].answer == Apply(s, step).workers[id].answer)
              || step == FnReturns(id, Apply(s, step).workers[id].answer.value)
  {
  }

  /** What holds at the end of a run has its cause in the run, or held before. */
  lemma {:induction false} RunCauses<V>(s: State<V>, steps: seq<Step<V>>, id: nat)
    requires Legal(s, steps)
    ensures id in After(s, steps).fired ==> id in s.fired || DeadlineFires(id) in steps
    ensures id in After(s, steps).ended ==> id in s.ended || ParentEnds(id) in steps
    ensures id < |After(s, steps).workers| && After(s, steps).workers[id].answer.Some? ==>
              || (id < |s.workers| && s.workers[id].answer == After(s, steps).workers[id].answer)
              || FnReturns(id, After(s, steps).workers[id].answer.value) in steps
    decreases |steps|
  {
    if steps != [] {
      StepCauses(s, steps[0]);
      RunCauses(Apply(s, steps[0]), steps[1..], id);
      assert steps[0] in steps && forall step | step in steps[1..] :: step in steps;
    }
  }

  ghost predicate HasCause<V(!new)>(r: Reply<V>, steps: seq<Step<V>>) {
    match r
    case Value(id, v) => FnReturns(id, v) in steps
    case TimedOut(id) => DeadlineFires(id) in steps
    case Stopped(id) => ParentEnds(id) in steps
    case Refused(name) => Begin(name) in steps
  }

  /** Every reply has its cause in the run. A value is what fn of that very call returned. A timeout is
      a real one: the deadline of that very call has passed; the cancel that a worker runs after its
      answer never shows as a timeout, because the inner select takes the value. And a context error is
      returned only when the parent context of that very call has ended. */
  lemma RepliesHaveCauses<V(!new)>(steps: seq<Step<V>>, k: nat)
    requires Legal(Initial<V>(), steps) && k < |After(Initial<V>(), steps).replies|
    ensures HasCause(After(Initial<V>(), steps).replies[k], steps)
  {
    var s := After(Initial<V>(), steps);
    assert Reachable(s);
    ReachableInv(s);
    var r := s.replies[k];
    assert r in s.replies;
    if r.Refused? {
      RefusedWasBegun(Initial<V>(), steps, k);
    } else {
      RunCauses(Initial<V>(), steps, r.id);
    }
  }

  lemma {:induction false} RefusedWasBegun<V>(s: State<V>, steps: seq<Step<V>>, k: nat)
    requires Legal(s, steps) && |s.replies| <= k < |After(s, steps).replies| && After(s, steps).replies[k].Refused?
    ensures Begin(After(s, steps).replies[k].name) in steps
    decreases |steps|
  {
    var s' := Apply(s, steps[0]);
    RepliesGrow(s', steps[1..]);
    if k < |s'.replies| {
      assert s'.replies[k] == After(s, steps).replies[k];
      assert steps[0] in steps;
    } else {
      RefusedWasBegun(s', steps[1..], k);
    }
  }

  lemma {:induction false} RepliesGrow<V>(s: State<V>, steps: seq<Step<V>>)
    requires Legal(s, steps)
    ensures s.replies <= After(s, steps).replies
    decreases |steps|
  {
    if steps != [] {
      RepliesGrow(Apply(s, steps[0]), steps[1..]);
    }
  }

  /** And in the inner select, after a cancel and no deadline, the value is always there. */
  lemma CancelLeavesValue<V(!new)>(s: State<V>)
    requires Reachable(s) && s.caller.Checking? && s.caller.id in s.cancelled
    ensures s.caller.id in s.slots && Apply(s, InnerSelect).caller.Idle?
  {
    ReachableInv(s);
    assert InPhase(s, s.caller.id, Finished);
  }
}

/** What holds after every run of Send, Flush and SendOnce, for every world. */
module PushRuns {
  import opened Bytes
  import opened PushModel

  // ---- the invariant ----

  /** Nothing is posted or buffered again after its acknowledgement, its eviction or its last
      rejection, flush acknowledgements come in submission order, and a second permanent rejection of
      a batch can only be the flush after the try. */
  ghost predicate Ordered(log: seq<Event>) {
    && (forall i, j | 0 <= i < j < |log| && IsFinal(log[i]) :: log[i].batch.id != log[j].batch.id)
    && (forall i, j | 0 <= i < j < |log| && IsFlushAck(log[i]) && IsFlushAck(log[j]) ::
          log[i].batch.id < log[j].batch.id)
    && (forall i, j | 0 <= i < j < |log| && IsRejection(log[i]) && IsRejection(log[j])
                      && log[i].batch.id == log[j].batch.id :: log[i].path.Try? && log[j].path.Flush?)
  }

  predicate Rising(bs: seq<Batch>) {
    forall i, j | 0 <= i < j < |bs| :: bs[i].id < bs[j].id
  }

  /** What the record says about a batch that may still be flushed: nothing final, and younger than
      every flush acknowledgement. */
  ghost predicate Flushable(log: seq<Event>, id: nat) {
    forall i | 0 <= i < |log| ::
      && (IsFinal(log[i]) ==> log[i].batch.id != id)
      && (IsFlushAck(log[i]) ==> log[i].batch.id < id)
  }

  /** The counters are what the record says, and every batch ever buffered is accounted for. */
  ghost predicate Counted(s: State) {
    && s.stats == Tally(s.log)
    && s.stats.dropped == |EverBuffered(s.log)|
    && s.stats.dropped == s.stats.retried + s.stats.rejectedDropped + Evictions(s.log) + |s.pending|
  }

  /** The queue is a suffix of the batches ever buffered, which have rising numbers. */
  predicate IsQueueOf(pending: seq<Batch>, ever: seq<Batch>, next: nat) {
    && |pending| <= |ever|
    && pending == ever[|ever| - |pending|..]
    && Rising(ever)
    && (forall b | b in ever :: b.id < next && b.body != [])
  }

  ghost predicate Queue(s: State) { IsQueueOf(s.pending, EverBuffered(s.log), s.next) }

  ghost predicate History(s: State) {
    && Ordered(s.log)
    && (forall i | 0 <= i < |s.log| :: s.log[i].batch.id < s.next)
    && (forall b | b in s.pending :: Flushable(s.log, b.id))
  }

  ghost predicate Inv(s: State) { Counted(s) && Queue(s) && History(s) }

  ghost predicate Good(s: State) { Inv(s) && |s.pending| <= MAX_BUFFERED }

  /** A batch in the hands of sendWithRetry or SendOnce: the newest number, never acknowledged,
      rejected or buffered. */
  ghost predicate InHand(s: State, id: nat) {
    && id + 1 == s.next
    && (forall b | b in EverBuffered(s.log) :: b.id < id)
    && Untouched(s.log, id)
  }

  ghost predicate Untouched(log: seq<Event>, id: nat) {
    && (forall i | 0 <= i < |log| && log[i].batch.id == id :: log[i].Posted? && log[i].outcome.Transient?)
    && (forall i | 0 <= i < |log| && IsFlushAck(log[i]) :: log[i].batch.id < id)
  }

  // ---- one event more ----

  lemma TallyAppend(log: seq<Event>, e: Event)
    ensures Tally(log + [e]) == Tally(log).Plus(Worth(e))
  {
    assert (log + [e])[..|log|] == log;
  }

  lemma BufferedAppend(log: seq<Event>, e: Event)
    ensures EverBuffered(log + [e]) == if e.Buffered? then EverBuffered(log) + [e.batch] else EverBuffered(log)
  {
    assert (log + [e])[..|log|] == log;
  }

  lemma CountsAppend(log: seq<Event>, e: Event)
    ensures Evictions(log + [e]) == Evictions(log) + if e.Evicted? then 1 else 0
    ensures Requests(log + [e]) == Requests(log) + if e.Posted? && e.batch.body != [] then 1 else 0
  {
    assert (log + [e])[..|log|] == log;
  }

  lemma PostKeepsOrder(log: seq<Event>, e: Event)
    requires Ordered(log) && e.Posted?
    requires forall i | 0 <= i < |log| && IsFinal(log[i]) :: log[i].batch.id != e.batch.id
    requires IsFlushAck(e) ==> forall i | 0 <= i < |log| && IsFlushAck(log[i]) :: log[i].batch.id < e.batch.id
    requires IsRejection(e) ==> forall i | 0 <= i < |log| && IsRejection(log[i]) && log[i].batch.id == e.batch.id ::
                                  log[i].path.Try? && e.path.Flush?
    ensures Ordered(log + [e])
  {
  }

  lemma OtherKeepsOrder(log: seq<Event>, e: Event)
    requires Ordered(log) && !e.Posted?
    requires forall i | 0 <= i < |log| && IsFinal(log[i]) :: log[i].batch.id != e.batch.id
    ensures Ordered(log + [e])
  {
  }

  /** An event of another batch leaves a batch flushable, unless it is a flush acknowledgement
      of a younger one. */
  lemma OtherKeepsFlushable(log: seq<Event>, e: Event, id: nat)
    requires Flushable(log, id)
    requires e.batch.id != id
    requires IsFlushAck(e) ==> e.batch.id < id
    ensures Flushable(log + [e], id)
  {
  }

  /** A transient failure leaves every batch flushable. */
  lemma TransientKeepsFlushable(log: seq<Event>, e: Event, id: nat)
    requires Flushable(log, id)
    requires e.Posted? && e.outcome.Transient?
    ensures Flushable(log + [e], id)
  {
  }

  // ---- posting the oldest buffered batch ----

  function AfterFlushPost(s: State, outcome: Outcome): State
    requires s.pending != []
  {
    var e := Posted(s.pending[0], Flush, outcome);
    s.(log := s.log + [e], stats := s.stats.Plus(Worth(e)),
       pending := if outcome.Transient? then s.pending else s.pending[1..])
  }

  lemma PendingRises(s: State)
    requires Queue(s)
    ensures Rising(s.pending)
    ensures forall b | b in s.pending :: b in EverBuffered(s.log) && b.id < s.next && b.body != []
  {
    var ever := EverBuffered(s.log);
    forall i, j | 0 <= i < j < |s.pending|
      ensures s.pending[i].id < s.pending[j].id
    {
      var d := |ever| - |s.pending|;
      assert s.pending[i] == ever[d + i] && s.pending[j] == ever[d + j];
    }
  }

  lemma FlushPostHistory(s: State, outcome: Outcome)
    requires Queue(s) && History(s) && s.pending != []
    ensures History(AfterFlushPost(s, outcome))
  {
    var e := Posted(s.pending[0], Flush, outcome);
    PendingRises(s);
    assert Flushable(s.log, s.pending[0].id);
    PostKeepsOrder(s.log, e);
    forall b | b in AfterFlushPost(s, outcome).pending
      ensures Flushable(s.log + [e], b.id)
    {
      if outcome.Transient? {
        TransientKeepsFlushable(s.log, e, b.id);
      } else {
        assert s.pending[0].id < b.id;
        OtherKeepsFlushable(s.log, e, b.id);
      }
    }
  }

  lemma FlushPostCounted(s: State, outcome: Outcome)
    requires Counted(s) && s.pending != []
    ensures Counted(AfterFlushPost(s, outcome))
  {
    var e := Posted(s.pending[0], Flush, outcome);
    TallyAppend(s.log, e);
    BufferedAppend(s.log, e);
    CountsAppend(s.log, e);
  }

  lemma FlushPostQueue(s: State, outcome: Outcome)
    requires Queue(s) && s.pending != []
    ensures Queue(AfterFlushPost(s, outcome))
  {
    BufferedAppend(s.log, Posted(s.pending[0], Flush, outcome));
    QueuePops(s.pending, EverBuffered(s.log), s.next);
  }

  lemma QueuePops(pending: seq<Batch>, ever: seq<Batch>, next: nat)
    requires IsQueueOf(pending, ever, next) && pending != []
    ensures IsQueueOf(pending[1..], ever, next)
  {
  }

  lemma QueueGrows(pending: seq<Batch>, ever: seq<Batch>, next: nat, b: Batch)
    requires IsQueueOf(pending, ever, next) && b.id < next && b.body != []
    requires forall q | q in ever :: q.id < b.id
    ensures IsQueueOf(pending + [b], ever + [b], next)
  {
    assert pending + [b] == (ever + [b])[|ever| - |pending|..];
  }

  lemma FlushPostKeepsInv(s: State, outcome: Outcome)
    requires Inv(s) && s.pending != []
    ensures Inv(AfterFlushPost(s, outcome))
  {
    FlushPostHistory(s, outcome);
    FlushPostCounted(s, outcome);
    FlushPostQueue(s, outcome);
  }

  // ---- posting the batch in hand ----

  function AfterHandPost(s: State, b: Batch, path: Path, outcome: Outcome): State {
    var e := Posted(b, path, outcome);
    s.(log := s.log + [e], stats := s.stats.Plus(Worth(e)))
  }

  lemma HandPostHistory(s: State, b: Batch, path: Path, outcome: Outcome)
    requires Queue(s) && History(s) && InHand(s, b.id) && !path.Flush?
    ensures History(AfterHandPost(s, b, path, outcome))
  {
    var e := Posted(b, path, outcome);
    var s' := AfterHandPost(s, b, path, outcome);
    PostKeepsOrder(s.log, e);
    PendingRises(s);
    forall q | q in s.pending
      ensures Flushable(s'.log, q.id)
    {
      OtherKeepsFlushable(s.log, e, q.id);
    }
  }

  lemma HandPostCounted(s: State, b: Batch, path: Path, outcome: Outcome)
    requires Counted(s) && !path.Flush?
    ensures Counted(AfterHandPost(s, b, path, outcome))
  {
    var e := Posted(b, path, outcome);
    TallyAppend(s.log, e);
    BufferedAppend(s.log, e);
    CountsAppend(s.log, e);
  }

  lemma HandPostKeepsInv(s: State, b: Batch, path: Path, outcome: Outcome)
    requires Inv(s) && InHand(s, b.id) && !path.Flush?
    ensures Inv(AfterHandPost(s, b, path, outcome))
    ensures outcome.Transient? ==> InHand(AfterHandPost(s, b, path, outcome), b.id)
  {
    HandPostHistory(s, b, path, outcome);
    HandPostCounted(s, b, path, outcome);
    BufferedAppend(s.log, Posted(b, path, outcome));
    assert Queue(AfterHandPost(s, b, path, outcome));
  }

  // ---- the operations ----

  lemma FlushOldestIsEvent(w: World, end: nat, s: State)
    requires s.pending != []
    ensures var (o, posted) := Post(w, end, s, s.pending[0], Flush);
            FlushOldest(w, end, s) == (o, AfterFlushPost(s, o).(now := posted.now, queries := posted.queries))
  {
  }

  /** One turn of the flush loop, as one event. */
  lemma FlushTurn(w: World, end: nat, s: State) returns (outcome: Outcome, s': State)
    requires s.pending != [] && s.now < end
    ensures var (o, posted) := Post(w, end, s, s.pending[0], Flush);
            outcome == o && s' == AfterFlushPost(s, o).(now := posted.now, queries := posted.queries)
    ensures FlushPending(w, end, s) == if outcome.Transient? then s' else FlushPending(w, end, s')
  {
    FlushOldestIsEvent(w, end, s);
    var r := FlushOldest(w, end, s);
    outcome, s' := r.0, r.1;
  }

  lemma ClockIsFree(s: State, now: nat, queries: nat)
    requires Inv(s)
    ensures Inv(s.(now := now, queries := queries))
  {
  }

  lemma {:induction false} FlushKeepsInv(w: World, end: nat, s: State)
    requires Inv(s)
    ensures Inv(FlushPending(w, end, s))
    decreases |s.pending|
  {
    if s.pending != [] && s.now < end {
      var outcome, s' := FlushTurn(w, end, s);
      FlushPostKeepsInv(s, outcome);
      ClockIsFree(AfterFlushPost(s, outcome), s'.now, s'.queries);
      if !outcome.Transient? {
        FlushKeepsInv(w, end, s');
      }
    }
  }

  /** A flush makes at most one request for each buffered batch and ends with its context. */
  lemma {:induction false} FlushBounds(w: World, end: nat, s: State)
    ensures var s' := FlushPending(w, end, s);
            && |s'.pending| <= |s.pending| && s'.next == s.next
            && Requests(s'.log) <= Requests(s.log) + |s.pending|
            && s.now <= s'.now <= Max(s.now, end)
    decreases |s.pending|
  {
    if s.pending != [] && s.now < end {
      var outcome, s' := FlushTurn(w, end, s);
      CountsAppend(s.log, Posted(s.pending[0], Flush, outcome));
      if !outcome.Transient? {
        FlushBounds(w, end, s');
      }
    }
  }

  // ---- sendWithRetry and SendOnce ----

  /** A batch that was tried and not delivered can go into the buffer. */
  ghost predicate Storable(s: State, b: Batch) {
    && b.id + 1 == s.next
    && (forall q | q in EverBuffered(s.log) :: q.id < b.id)
    && Flushable(s.log, b.id)
  }

  lemma FailureIsStorable(s: State, s': State, b: Batch, outcome: Outcome)
    requires InHand(s, b.id) && !outcome.Delivered?
    requires s'.log == s.log + [Posted(b, Try, outcome)] && s'.next == s.next
    ensures Storable(s', b)
  {
    BufferedAppend(s.log, Posted(b, Try, outcome));
  }

  /** One turn of the retry loop, with the sleep after it: one event, and a later clock. When the
      batch is delivered, the caller counts it. */
  lemma LadderTurn(w: World, end: nat, s: State, b: Batch, path: Path, ladder: seq<nat>)
    returns (again: bool, outcome: Outcome, now: nat, queries: nat)
    requires !path.Flush?
    ensures outcome == Post(w, end, s, b, path).0
    ensures again ==> ladder != [] && outcome.Transient?
    ensures s.now <= now <= Max(s.now, end)
    ensures var s' := AfterHandPost(s, b, path, outcome).(now := now, queries := queries);
            && (again ==> PostLadder(w, end, s, b, path, ladder) == PostLadder(w, end, s', b, path, ladder[1..]))
            && (!again && outcome.Delivered? ==>
                  PostLadder(w, end, s, b, path, ladder) == (true, s'.(stats := s.stats)))
            && (!again && !outcome.Delivered? ==> PostLadder(w, end, s, b, path, ladder) == (false, s'))
  {
    var (o, s1) := Post(w, end, s, b, path);
    outcome := o;
    if o.Transient? && ladder != [] {
      var (slept, s3) := Sleep(w, end, CountFailure(s1), ladder[0]);
      again, now, queries := slept, s3.now, s3.queries;
    } else {
      again, now, queries := false, s1.now, s1.queries;
    }
  }

  /** The delivery that the caller counts is the one that the last post is worth. */
  lemma DeliveryIsWorth(s: State, b: Batch, path: Path, now: nat, queries: nat)
    requires !path.Flush?
    ensures var s' := AfterHandPost(s, b, path, Delivered).(now := now, queries := queries);
            CountDelivery(s'.(stats := s.stats), b) == s'
  {
  }

  /** One turn keeps the invariant, and what its end leaves in hand. */
  lemma TurnKeepsInv(s: State, b: Batch, path: Path, outcome: Outcome, now: nat, queries: nat)
    requires Inv(s) && InHand(s, b.id) && !path.Flush?
    ensures var s' := AfterHandPost(s, b, path, outcome).(now := now, queries := queries);
            Inv(s') && (outcome.Transient? ==> InHand(s', b.id))
  {
    HandPostKeepsInv(s, b, path, outcome);
    ClockIsFree(AfterHandPost(s, b, path, outcome), now, queries);
  }

  ghost predicate Carries(s: State, id: nat) { Inv(s) && InHand(s, id) }

  /** What holds after the attempts on a batch, when the caller counts a delivery. */
  ghost predicate Tried(r: (bool, State), b: Batch, path: Path) {
    if r.0 then Inv(CountDelivery(r.1, b)) else Inv(r.1) && (path.Try? ==> Storable(r.1, b))
  }

  lemma {:induction false} LadderKeepsInv(w: World, end: nat, s: State, b: Batch, path: Path, ladder: seq<nat>)
    requires Carries(s, b.id) && !path.Flush?
    ensures Tried(PostLadder(w, end, s, b, path, ladder), b, path)
    decreases |ladder|
  {
    var again, outcome, now, queries := LadderTurn(w, end, s, b, path, ladder);
    var s1 := AfterHandPost(s, b, path, outcome).(now := now, queries := queries);
    TurnKeepsInv(s, b, path, outcome, now, queries);
    if again {
      LadderKeepsInv(w, end, s1, b, path, ladder[1..]);
    } else if outcome.Delivered? {
      DeliveryIsWorth(s, b, path, now, queries);
    } else if path.Try? {
      FailureIsStorable(s, s1, b, outcome);
    }
  }

  predicate EndsWith(log: seq<Event>, b: Batch, path: Path, sent: bool) {
    log != [] && var e := log[|log| - 1];
    e.Posted? && e.batch == b && e.path == path && (sent <==> e.outcome.Delivered?)
  }

  /** The loop leaves the queue alone, makes at most one request more than the ladder has delays,
      ends with its context, and reports what its last attempt did. */
  lemma {:induction false} LadderBounds(w: World, end: nat, s: State, b: Batch, path: Path, ladder: seq<nat>)
    requires !path.Flush?
    ensures var (sent, s') := PostLadder(w, end, s, b, path, ladder);
            && s'.next == s.next && s'.pending == s.pending
            && Requests(s'.log) <= Requests(s.log) + |ladder| + 1
            && s.now <= s'.now <= Max(s.now, end)
            && EndsWith(s'.log, b, path, sent)
    decreases |ladder|
  {
    var again, outcome, now, queries := LadderTurn(w, end, s, b, path, ladder);
    CountsAppend(s.log, Posted(b, path, outcome));
    if again {
      LadderBounds(w, end, AfterHandPost(s, b, path, outcome).(now := now, queries := queries), b, path, ladder[1..]);
    }
  }

  // ---- the buffer ----

  function AfterBuffered(s: State, b: Batch): State {
    var e := Buffered(b);
    s.(log := s.log + [e], stats := s.stats.Plus(Worth(e)), pending := s.pending + [b])
  }

  lemma BufferedCounted(s: State, b: Batch)
    requires Counted(s)
    ensures Counted(AfterBuffered(s, b))
  {
    var e := Buffered(b);
    TallyAppend(s.log, e);
    BufferedAppend(s.log, e);
    CountsAppend(s.log, e);
  }

  lemma BufferedQueue(s: State, b: Batch)
    requires Queue(s) && Storable(s, b) && b.body != []
    ensures Queue(AfterBuffered(s, b))
  {
    BufferedAppend(s.log, Buffered(b));
    QueueGrows(s.pending, EverBuffered(s.log), s.next, b);
  }

  lemma BufferedHistory(s: State, b: Batch)
    requires History(s) && Storable(s, b)
    ensures History(AfterBuffered(s, b))
  {
    var e := Buffered(b);
    var s' := AfterBuffered(s, b);
    forall q | q in s'.pending
      ensures Flushable(s'.log, q.id)
    {
      BookkeepingKeepsFlushable(s.log, e, q.id);
    }
    OtherKeepsOrder(s.log, e);
  }

  lemma BufferedKeepsInv(s: State, b: Batch)
    requires Inv(s) && Storable(s, b) && b.body != []
    ensures Inv(AfterBuffered(s, b))
  {
    BufferedCounted(s, b);
    BufferedQueue(s, b);
    BufferedHistory(s, b);
  }

  lemma BookkeepingKeepsFlushable(log: seq<Event>, e: Event, id: nat)
    requires Flushable(log, id) && !e.Posted? && (e.Evicted? ==> e.batch.id != id)
    ensures Flushable(log + [e], id)
  {
  }

  function AfterEvicted(s: State): State
    requires s.pending != []
  {
    s.(log := s.log + [Evicted(s.pending[0])], pending := s.pending[1..])
  }

  lemma EvictedHistory(s: State)
    requires Queue(s) && History(s) && s.pending != []
    ensures History(AfterEvicted(s))
  {
    var e := Evicted(s.pending[0]);
    PendingRises(s);
    forall q | q in s.pending[1..]
      ensures Flushable(s.log + [e], q.id)
    {
      BookkeepingKeepsFlushable(s.log, e, q.id);
    }
    OtherKeepsOrder(s.log, e);
    assert s.pending[0].id < s.next;
  }

  lemma EvictedCounted(s: State)
    requires Counted(s) && s.pending != []
    ensures Counted(AfterEvicted(s))
  {
    var e := Evicted(s.pending[0]);
    TallyAppend(s.log, e);
    BufferedAppend(s.log, e);
    CountsAppend(s.log, e);
  }

  lemma EvictedQueue(s: State)
    requires Queue(s) && s.pending != []
    ensures Queue(AfterEvicted(s))
  {
    BufferedAppend(s.log, Evicted(s.pending[0]));
    QueuePops(s.pending, EverBuffered(s.log), s.next);
  }

  lemma EvictedKeepsInv(s: State)
    requires Inv(s) && s.pending != []
    ensures Inv(AfterEvicted(s))
  {
    EvictedHistory(s);
    EvictedCounted(s);
    EvictedQueue(s);
  }

  lemma {:induction false} EvictKeepsInv(s: State)
    requires Inv(s)
    ensures Good(Evict(s))
    decreases |s.pending|
  {
    if |s.pending| > MAX_BUFFERED {
      EvictedKeepsInv(s);
      EvictKeepsInv(AfterEvicted(s));
    }
  }

  lemma EvictStep(s: State)
    requires |s.pending| > MAX_BUFFERED
    ensures Evict(s) == Evict(AfterEvicted(s))
  {
  }

  lemma TailOfTail(bs: seq<Batch>, k: nat)
    requires 0 < k <= |bs|
    ensures bs[1..][k - 1..] == bs[k..]
  {
  }

  /** Eviction takes from the old end only. */
  lemma {:induction false} EvictTakesOldest(s: State)
    ensures var s' := Evict(s);
            && |s'.pending| == Min(|s.pending|, MAX_BUFFERED)
            && s'.pending == s.pending[|s.pending| - |s'.pending|..]
    decreases |s.pending|
  {
    if |s.pending| > MAX_BUFFERED {
      var r := Evict(AfterEvicted(s));
      EvictStep(s);
      EvictTakesOldest(AfterEvicted(s));
      TailOfTail(s.pending, |s.pending| - |r.pending|);
    }
  }

  /** And it makes no request and takes no time. */
  lemma {:induction false} EvictIsQuiet(s: State)
    ensures var s' := Evict(s);
            Requests(s'.log) == Requests(s.log) && s'.now == s.now && s'.next == s.next
    decreases |s.pending|
  {
    if |s.pending| > MAX_BUFFERED {
      CountsAppend(s.log, Evicted(s.pending[0]));
      EvictIsQuiet(AfterEvicted(s));
    }
  }

  lemma {:induction false} EvictEndsLog(s: State)
    requires s.log != [] && !s.log[|s.log| - 1].Posted?
    ensures Evict(s).log != [] && !Evict(s).log[|Evict(s).log| - 1].Posted?
    decreases |s.pending|
  {
    if |s.pending| > MAX_BUFFERED {
      EvictEndsLog(AfterEvicted(s));
    }
  }

  // ---- whole calls ----

  lemma FreshIsInHand(s: State)
    requires Inv(s)
    ensures Carries(s.(next := s.next + 1), s.next)
  {
  }

  lemma SettleCases(sent: bool, s: State, b: Batch)
    ensures Settle(sent, s, b) == if sent then (false, CountDelivery(s, b)) else (true, Evict(AfterBuffered(s, b)))
  {
  }

  /** How the part of Send after the flush ends. */
  lemma SendNewCases(w: World, end: nat, s: State, b: Batch) returns (sent: bool, s1: State)
    ensures (sent, s1) == TryNew(w, end, s, b)
    ensures SendNew(w, end, s, b) == if sent then (false, CountDelivery(s1, b)) else (true, Evict(AfterBuffered(s1, b)))
  {
    var r := TryNew(w, end, s, b);
    sent, s1 := r.0, r.1;
    SettleCases(sent, s1, b);
    assert SendNew(w, end, s, b) == Settle(sent, s1, b);
  }

  lemma SendNewBounds(w: World, end: nat, s: State, b: Batch)
    ensures var (sent, s1) := TryNew(w, end, s, b);
            && s1.pending == s.pending && s1.next == s.next + 1
            && EndsWith(s1.log, b, Try, sent)
            && Requests(s1.log) <= Requests(s.log) + 4
            && s.now <= s1.now <= Max(s.now, end)
  {
    LadderBounds(w, end, s.(next := s.next + 1), b, Try, BACKOFF);
  }

  lemma TryNewKeepsInv(w: World, end: nat, s: State, b: Batch)
    requires Inv(s) && b.id == s.next
    ensures Tried(TryNew(w, end, s, b), b, Try)
  {
    FreshIsInHand(s);
    LadderKeepsInv(w, end, s.(next := s.next + 1), b, Try, BACKOFF);
  }

  lemma KeepingKeepsGood(s: State, b: Batch)
    requires Inv(s) && Storable(s, b) && b.body != []
    ensures Good(Evict(AfterBuffered(s, b)))
  {
    BufferedKeepsInv(s, b);
    EvictKeepsInv(AfterBuffered(s, b));
  }

  lemma SendNewKeepsGood(w: World, end: nat, s: State, b: Batch)
    requires Good(s) && b.id == s.next && b.body != []
    ensures Good(SendNew(w, end, s, b).1)
  {
    var sent, s1 := SendNewCases(w, end, s, b);
    SendNewBounds(w, end, s, b);
    TryNewKeepsInv(w, end, s, b);
    if sent {
      InvIsGood(CountDelivery(s1, b));
    } else {
      KeepingKeepsGood(s1, b);
    }
  }

  lemma FlushKeepsGood(w: World, end: nat, s: State)
    requires Good(s)
    ensures Good(FlushPending(w, end, s))
  {
    FlushKeepsInv(w, end, s);
    FlushBounds(w, end, s);
  }

  lemma SendKeepsGood(w: World, parentEnd: nat, s: State, body: Text, points: int)
    requires Good(s)
    ensures Good(Send(w, parentEnd, s, body, points).1)
  {
    FlushKeepsGood(w, SendEnd(parentEnd, s), s);
    var s1 := FlushPending(w, SendEnd(parentEnd, s), s);
    if body != [] {
      SendNewKeepsGood(w, SendEnd(parentEnd, s), s1, Batch(s1.next, body, points));
    }
  }

  lemma OnceBounds(w: World, end: nat, s: State, b: Batch)
    ensures var (sent, s1) := TryOnce(w, end, s, b);
            && s1.pending == s.pending && EndsWith(s1.log, b, Once, sent)
            && Requests(s1.log) <= Requests(s.log) + 3
            && s.now <= s1.now <= Max(s.now, end)
  {
    LadderBounds(w, end, s.(next := s.next + 1), b, Once, ONCE_DELAYS);
  }

  /** How SendOnce ends. */
  lemma OnceCases(w: World, end: nat, s: State, b: Batch) returns (sent: bool, s1: State)
    requires b.id == s.next
    ensures (sent, s1) == TryOnce(w, end, s, b)
    ensures SendOnce(w, end, s, b.body, b.points) == if sent then (false, CountDelivery(s1, b)) else (true, s1)
  {
    var r := TryOnce(w, end, s, b);
    sent, s1 := r.0, r.1;
  }

  lemma InvIsGood(s: State)
    requires Inv(s) && |s.pending| <= MAX_BUFFERED
    ensures Good(s)
  {
  }

  lemma TryOnceKeepsInv(w: World, end: nat, s: State, b: Batch)
    requires Inv(s) && b.id == s.next
    ensures Tried(TryOnce(w, end, s, b), b, Once)
  {
    FreshIsInHand(s);
    LadderKeepsInv(w, end, s.(next := s.next + 1), b, Once, ONCE_DELAYS);
  }

  lemma OnceKeepsGood(w: World, end: nat, s: State, body: Text, points: int)
    requires Good(s)
    ensures Good(SendOnce(w, end, s, body, points).1)
  {
    var b := Batch(s.next, body, points);
    OnceBounds(w, end, s, b);
    var sent, s1 := OnceCases(w, end, s, b);
    TryOnceKeepsInv(w, end, s, b);
    InvIsGood(if sent then CountDelivery(s1, b) else s1);
  }

  lemma WaitKeepsGood(s: State, wait: nat)
    requires Good(s)
    ensures Good(Later(s, wait))
  {
    ClockIsFree(s, s.now + wait, s.queries);
  }

  lemma DoKeepsGood(w: World, s: State, c: Call)
    requires Good(s)
    ensures Good(Do(w, s, c))
  {
    WaitKeepsGood(s, c.wait);
    AwakeKeepsGood(w, Later(s, c.wait), c);
  }

  lemma AwakeKeepsGood(w: World, s: State, c: Call)
    requires Good(s)
    ensures Good(DoAwake(w, s, c))
  {
    match c
    case CallSend(_, end, body, points) => SendKeepsGood(w, end, s, body, points);
    case CallFlush(_, end) => FlushKeepsGood(w, end, s);
    case CallOnce(_, end, body, points) => OnceKeepsGood(w, end, s, body, points);
  }

  lemma {:induction false} RunKeepsGood(w: World, s: State, calls: seq<Call>)
    requires Good(s)
    ensures Good(Run(w, s, calls))
    decreases |calls|
  {
    if calls != [] {
      DoKeepsGood(w, s, calls[0]);
      RunKeepsGood(w, Do(w, s, calls[0]), calls[1..]);
    }
  }

  lemma {:induction false} FromTheStart(w: World, calls: seq<Call>) returns (s: State)
    ensures s == Run(w, INITIAL, calls) && Good(s)
  {
    RunKeepsGood(w, INITIAL, calls);
    s := Run(w, INITIAL, calls);
  }

  // ---- main results ----

  /** Conservation, over every run: the queue is the newest end of all batches ever buffered and
      holds at most four; every dropped batch was retried, rejected for good, evicted, or is
      still there; and the counters are the sums over the record. */
  lemma RunConserves(w: World, calls: seq<Call>)
    ensures var s := Run(w, INITIAL, calls);
            var ever := EverBuffered(s.log);
            && |s.pending| <= 4 && |s.pending| <= |ever|
            && s.pending == ever[|ever| - |s.pending|..]
            && s.stats == Tally(s.log)
            && s.stats.dropped == |ever|
            && s.stats.dropped == s.stats.retried + s.stats.rejectedDropped + Evictions(s.log) + |s.pending|
  {
    var s := FromTheStart(w, calls);
  }

  lemma AtMostTwoRejections(log: seq<Event>, i: nat, j: nat, k: nat)
    requires Ordered(log)
    requires i < j < k < |log| && IsRejection(log[i]) && IsRejection(log[j]) && IsRejection(log[k])
    ensures !(log[i].batch.id == log[j].batch.id == log[k].batch.id)
  {
  }

  /** Order, over every run: a batch that was acknowledged, evicted, or rejected by a flush or by
      SendOnce never occurs again (so none is acknowledged twice); flush acknowledgements come in
      rising submission order; and a batch rejected for good twice was rejected by its own Send, then
      by a flush. So no batch is rejected for good three times. */
  lemma RunOrders(w: World, calls: seq<Call>)
    ensures Ordered(Run(w, INITIAL, calls).log)
    ensures var log := Run(w, INITIAL, calls).log;
            forall i, j, k | 0 <= i < j < k < |log| && IsRejection(log[i]) && IsRejection(log[j]) && IsRejection(log[k]) ::
              !(log[i].batch.id == log[j].batch.id == log[k].batch.id)
  {
    var s := FromTheStart(w, calls);
    var log := s.log;
    forall i, j, k | 0 <= i < j < k < |log| && IsRejection(log[i]) && IsRejection(log[j]) && IsRejection(log[k])
      ensures !(log[i].batch.id == log[j].batch.id == log[k].batch.id)
    {
      AtMostTwoRejections(log, i, j, k);
    }
  }

  /** And what is pending was never acknowledged, evicted or rejected by a flush, and is younger than
      every flush acknowledgement. */
  lemma PendingIsYoungest(w: World, calls: seq<Call>, b: Batch, i: nat)
    requires var s := Run(w, INITIAL, calls);
             b in s.pending && i < |s.log| && IsFinal(s.log[i])
    ensures var e := Run(w, INITIAL, calls).log[i];
            e.batch.id != b.id && (IsFlushAck(e) ==> e.batch.id < b.id)
  {
    var s := FromTheStart(w, calls);
    assert Flushable(s.log, b.id);
  }

  /** Send makes at most one request per buffered batch and four for the new one, and it returns
      within its deadline and within its caller's context, in every world. */
  lemma SendIsBounded(w: World, parentEnd: nat, s: State, body: Text, points: int)
    ensures var s' := Send(w, parentEnd, s, body, points).1;
            && Requests(s'.log) <= Requests(s.log) + |s.pending| + 4
            && (Good(s) ==> Requests(s'.log) <= Requests(s.log) + 8)
            && s.now <= s'.now <= s.now + 12 * SECOND
            && s'.now <= Max(s.now, parentEnd)
  {
    var end := SendEnd(parentEnd, s);
    FlushBounds(w, end, s);
    var s1 := FlushPending(w, end, s);
    if body != [] {
      var b := Batch(s1.next, body, points);
      var sent, s2 := SendNewCases(w, end, s1, b);
      SendNewBounds(w, end, s1, b);
      if !sent {
        CountsAppend(s2.log, Buffered(b));
        EvictIsQuiet(AfterBuffered(s2, b));
      }
    }
  }

  /** Send reports success exactly when it had nothing to send or its batch was delivered as the
      last event of the call; on an error the batch is the newest one in the buffer. */
  lemma SendReports(w: World, parentEnd: nat, s: State, body: Text, points: int)
    ensures var (failed, s') := Send(w, parentEnd, s, body, points);
            && (body == [] ==> !failed)
            && (body != [] ==>
                  (!failed <==> s'.log != [] && s'.log[|s'.log| - 1] == Posted(Batch(s.next, body, points), Try, Delivered)))
            && (failed ==>
                  s'.pending != [] && s'.pending[|s'.pending| - 1] == Batch(s.next, body, points))
  {
    var end := SendEnd(parentEnd, s);
    FlushBounds(w, end, s);
    if body != [] {
      var s1 := FlushPending(w, end, s);
      var b := Batch(s1.next, body, points);
      var sent, s2 := SendNewCases(w, end, s1, b);
      SendNewBounds(w, end, s1, b);
      if !sent {
        EvictTakesOldest(AfterBuffered(s2, b));
        EvictEndsLog(AfterBuffered(s2, b));
      }
    }
  }

  /** SendOnce reports success exactly when its last event delivers its batch, and never changes
      the queue. */
  lemma SendOnceReports(w: World, end: nat, s: State, body: Text, points: int)
    ensures var (failed, s') := SendOnce(w, end, s, body, points);
            && EndsWith(s'.log, Batch(s.next, body, points), Once, !failed)
            && s'.pending == s.pending
            && Requests(s'.log) <= Requests(s.log) + 3
            && s.now <= s'.now <= Max(s.now, end)
  {
    OnceBounds(w, end, s, Batch(s.next, body, points));
    var sent, s1 := OnceCases(w, end, s, Batch(s.next, body, points));
  }
}

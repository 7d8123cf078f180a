/** What one Send does from start to end when the endpoint always answers alike: it accepts, it
    refuses for good, or it fails for now. Each request may take its own time, and a failing one
    may also run into the request timeout. */
module PushOutcomes {
  import opened Bytes
  import opened PushModel
  import opened PushRuns
  import opened PushVerdicts

  /** The query is answered in time with a success, or with a refusal; or there is no final answer in
      time: it is late, whatever it says, or it is neither of the two. */
  predicate Gives(w: World, o: Outcome, q: nat) {
    match o
    case Delivered => IsSuccess(w.reply(q)) && w.took(q) <= REQUEST_TIMEOUT
    case Rejected => IsRefusal(w.reply(q)) && w.took(q) <= REQUEST_TIMEOUT
    case Transient => w.took(q) > REQUEST_TIMEOUT || !(IsSuccess(w.reply(q)) || IsRefusal(w.reply(q)))
  }

  ghost predicate AlwaysGives(w: World, o: Outcome) { forall q :: Gives(w, o, q) }

  predicate NoneEmpty(bs: seq<Batch>) { forall b | b in bs :: b.body != [] }

  /** The time that a request takes when its context does not cut it off. */
  function Cost(w: World, query: nat): nat { Min(w.took(query), REQUEST_TIMEOUT) }

  /** The time of n requests, one after another. */
  function CostOf(w: World, query: nat, n: nat): nat
    decreases n
  {
    if n == 0 then 0 else Cost(w, query) + CostOf(w, query + 1, n - 1)
  }

  /** The time of a ladder that is used up: a request, and each delay with a request after it. A
      sleep counts as a query too. */
  function CostOfLadder(w: World, query: nat, ladder: seq<nat>): nat
    decreases |ladder|
  {
    Cost(w, query) + if ladder == [] then 0 else ladder[0] + CostOfLadder(w, query + 2, ladder[1..])
  }

  lemma FittingPost(w: World, end: nat, s: State, b: Batch, path: Path, o: Outcome)
    requires AlwaysGives(w, o) && s.now + Cost(w, s.queries) < end && b.body != []
    ensures Post(w, end, s, b, path).0 == o
    ensures Post(w, end, s, b, path).1.now == s.now + Cost(w, s.queries)
    ensures Post(w, end, s, b, path).1.queries == s.queries + 1
  {
    AttemptIsJudged(w, end, s, b, path);
    assert Gives(w, o, s.queries);
  }

  ghost predicate Turned(w: World, s: State, s': State)
    requires s.pending != []
  {
    && s'.pending == s.pending[1..] && s'.next == s.next
    && s'.now == s.now + Cost(w, s.queries) && s'.queries == s.queries + 1
    && Requests(s'.log) == Requests(s.log) + 1
  }

  /** A final answer takes one batch off the queue. */
  lemma FinalTurn(w: World, end: nat, s: State, o: Outcome) returns (s': State)
    requires AlwaysGives(w, o) && !o.Transient? && NoneEmpty(s.pending) && s.pending != []
    requires s.now + Cost(w, s.queries) < end
    ensures FlushPending(w, end, s) == FlushPending(w, end, s')
    ensures Turned(w, s, s')
  {
    FittingPost(w, end, s, s.pending[0], Flush, o);
    var outcome, next := FlushTurn(w, end, s);
    CountsAppend(s.log, Posted(s.pending[0], Flush, outcome));
    s' := next;
  }

  /** The queue of s went out, one request each. */
  ghost predicate Emptied(w: World, s: State, s': State) {
    && s'.pending == [] && s'.next == s.next
    && s'.now == s.now + CostOf(w, s.queries, |s.pending|) && s'.queries == s.queries + |s.pending|
    && Requests(s'.log) == Requests(s.log) + |s.pending|
  }

  lemma EmptiedByTurn(w: World, s: State, s1: State, s': State)
    requires s.pending != [] && Turned(w, s, s1) && Emptied(w, s1, s')
    ensures Emptied(w, s, s')
  {
    var n := |s.pending|;
    assert CostOf(w, s.queries, n) == Cost(w, s.queries) + CostOf(w, s.queries + 1, n - 1);
  }

  /** There is time for one request per kept batch, and none of them is empty. */
  predicate RoomToFlush(w: World, end: nat, s: State) {
    s.now + CostOf(w, s.queries, |s.pending|) < end && NoneEmpty(s.pending)
  }

  lemma RoomForFirst(w: World, end: nat, s: State)
    requires RoomToFlush(w, end, s) && s.pending != []
    ensures s.now + Cost(w, s.queries) < end
  {
    var n := |s.pending|;
    assert CostOf(w, s.queries, n) == Cost(w, s.queries) + CostOf(w, s.queries + 1, n - 1);
  }

  lemma RoomForRest(w: World, end: nat, s: State, s1: State)
    requires RoomToFlush(w, end, s) && s.pending != [] && Turned(w, s, s1)
    ensures RoomToFlush(w, end, s1)
  {
    var n := |s.pending|;
    assert CostOf(w, s.queries, n) == Cost(w, s.queries) + CostOf(w, s.queries + 1, n - 1);
  }

  lemma NothingToFlush(w: World, end: nat, s: State)
    requires s.pending == []
    ensures Emptied(w, s, FlushPending(w, end, s))
  {
  }

  /** A flush goes through the whole queue when no answer is a failure for now. */
  lemma {:induction false} FlushEmpties(w: World, end: nat, s: State, o: Outcome, s': State)
    requires AlwaysGives(w, o) && !o.Transient? && RoomToFlush(w, end, s) && s' == FlushPending(w, end, s)
    ensures Emptied(w, s, s')
    decreases |s.pending|
  {
    if s.pending == [] {
      NothingToFlush(w, end, s);
    } else {
      RoomForFirst(w, end, s);
      var s1 := FinalTurn(w, end, s, o);
      RoomForRest(w, end, s, s1);
      FlushEmpties(w, end, s1, o, s');
      EmptiedByTurn(w, s, s1, s');
    }
  }

  /** And it stops at its first batch, which it keeps, when the first answer is one. */
  lemma FlushStops(w: World, end: nat, s: State)
    requires AlwaysGives(w, Transient) && NoneEmpty(s.pending)
    requires s.now + Cost(w, s.queries) < end
    ensures var s', n := FlushPending(w, end, s), if s.pending == [] then 0 else 1;
            && s'.pending == s.pending && s'.next == s.next
            && s'.now == s.now + CostOf(w, s.queries, n) && s'.queries == s.queries + n
            && Requests(s'.log) == Requests(s.log) + n
  {
    if s.pending != [] {
      FittingPost(w, end, s, s.pending[0], Flush, Transient);
      var outcome, s' := FlushTurn(w, end, s);
      CountsAppend(s.log, Posted(s.pending[0], Flush, outcome));
      assert CostOf(w, s.queries, 1) == Cost(w, s.queries) + CostOf(w, s.queries + 1, 0);
    }
  }

  /** The backoff adds three and a half seconds to the time of its four requests. */
  lemma BackoffCost(w: World, q: nat)
    ensures CostOfLadder(w, q, BACKOFF)
         == 7 * SECOND / 2 + Cost(w, q) + Cost(w, q + 2) + Cost(w, q + 4) + Cost(w, q + 6)
  {
    var b := BACKOFF;
    assert b[1..] == [SECOND, 2 * SECOND] && b[2..] == [2 * SECOND] && b[3..] == [];
    assert b[1..][1..] == b[2..] && b[2..][1..] == b[3..];
    assert CostOfLadder(w, q + 6, b[3..]) == Cost(w, q + 6);
    assert CostOfLadder(w, q + 4, b[2..]) == Cost(w, q + 4) + 2 * SECOND + CostOfLadder(w, q + 6, b[3..]);
    assert CostOfLadder(w, q + 2, b[1..]) == Cost(w, q + 2) + SECOND + CostOfLadder(w, q + 4, b[2..]);
  }

  /** Failures for now use up the whole ladder: one post before it and one after each delay. */
  lemma {:induction false} LadderClimbs(w: World, end: nat, s: State, b: Batch, path: Path, ladder: seq<nat>)
    requires AlwaysGives(w, Transient) && s.now + CostOfLadder(w, s.queries, ladder) < end && b.body != []
    ensures var (sent, s') := PostLadder(w, end, s, b, path, ladder);
            && !sent && s'.now == s.now + CostOfLadder(w, s.queries, ladder)
            && Requests(s'.log) == Requests(s.log) + |ladder| + 1
    decreases |ladder|
  {
    FittingPost(w, end, s, b, path, Transient);
    var (o, s1) := Post(w, end, s, b, path);
    CountsAppend(s.log, Posted(b, path, o));
    if ladder != [] {
      var (slept, s3) := Sleep(w, end, CountFailure(s1), ladder[0]);
      LadderClimbs(w, end, s3, b, path, ladder[1..]);
    }
  }

  /** A final answer ends the ladder at its first post. */
  lemma LadderEnds(w: World, end: nat, s: State, b: Batch, path: Path, ladder: seq<nat>, o: Outcome)
    requires AlwaysGives(w, o) && !o.Transient? && s.now + Cost(w, s.queries) < end && b.body != []
    ensures var (sent, s') := PostLadder(w, end, s, b, path, ladder);
            && (sent <==> o.Delivered?) && s'.now == s.now + Cost(w, s.queries) && s'.pending == s.pending
            && Requests(s'.log) == Requests(s.log) + 1
  {
    FittingPost(w, end, s, b, path, o);
    CountsAppend(s.log, Posted(b, path, o));
  }

  lemma TryNewEnds(w: World, end: nat, s: State, b: Batch, o: Outcome)
    requires AlwaysGives(w, o) && !o.Transient? && s.now + Cost(w, s.queries) < end && b.body != []
    ensures var (sent, s') := TryNew(w, end, s, b);
            && (sent <==> o.Delivered?) && s'.now == s.now + Cost(w, s.queries) && s'.pending == s.pending
            && Requests(s'.log) == Requests(s.log) + 1
  {
    LadderEnds(w, end, s.(next := s.next + 1), b, Try, BACKOFF, o);
  }

  lemma TryNewClimbs(w: World, end: nat, s: State, b: Batch)
    requires AlwaysGives(w, Transient) && s.now + CostOfLadder(w, s.queries, BACKOFF) < end && b.body != []
    ensures var (sent, s') := TryNew(w, end, s, b);
            && !sent && s'.now == s.now + CostOfLadder(w, s.queries, BACKOFF)
            && Requests(s'.log) == Requests(s.log) + 4
  {
    LadderClimbs(w, end, s.(next := s.next + 1), b, Try, BACKOFF);
  }

  /** The new batch, after the flush, when it is not delivered: it is the newest kept one. */
  lemma NewIsKept(w: World, end: nat, s: State, b: Batch)
    requires |s.pending| <= MAX_BUFFERED && !TryNew(w, end, s, b).0
    ensures var (failed, s') := SendNew(w, end, s, b);
            var s1 := TryNew(w, end, s, b).1;
            && failed && s'.now == s1.now && Requests(s'.log) == Requests(s1.log)
            && s'.pending == (if |s.pending| < MAX_BUFFERED then s.pending else s.pending[1..]) + [b]
  {
    SendNewBounds(w, end, s, b);
    var sent, s1 := SendNewCases(w, end, s, b);
    CountsAppend(s1.log, Buffered(b));
    EvictTakesOldest(AfterBuffered(s1, b));
    EvictIsQuiet(AfterBuffered(s1, b));
  }

  /** And when it is delivered: the queue is as the flush left it. */
  lemma NewIsDelivered(w: World, end: nat, s: State, b: Batch)
    requires AlwaysGives(w, Delivered) && s.now + Cost(w, s.queries) < end && b.body != []
    ensures var (failed, s') := SendNew(w, end, s, b);
            && !failed && s'.pending == s.pending && s'.now == s.now + Cost(w, s.queries)
            && Requests(s'.log) == Requests(s.log) + 1
  {
    TryNewEnds(w, end, s, b, Delivered);
    var sent, s1 := SendNewCases(w, end, s, b);
  }

  lemma {:induction false} CostAppend(w: World, q: nat, n: nat)
    ensures CostOf(w, q, n + 1) == CostOf(w, q, n) + Cost(w, q + n)
    decreases n
  {
    if n > 0 {
      CostAppend(w, q + 1, n - 1);
    }
  }

  /** Send with a body is its flush and the part for a new batch. */
  lemma SendAfterFlush(w: World, parentEnd: nat, s: State, body: Text, points: int, s1: State)
    requires body != [] && s1 == FlushPending(w, SendEnd(parentEnd, s), s)
    ensures Send(w, parentEnd, s, body, points)
         == SendNew(w, SendEnd(parentEnd, s), s1, Batch(s1.next, body, points))
  {
  }

  /** An endpoint that accepts: Send delivers everything that was kept and the new batch, one
      request each, takes the time of these requests, and leaves nothing behind. */
  lemma AcceptedSend(w: World, parentEnd: nat, s: State, body: Text, points: int)
    requires AlwaysGives(w, Delivered) && NoneEmpty(s.pending) && body != []
    requires s.now + CostOf(w, s.queries, |s.pending| + 1) < parentEnd
    requires CostOf(w, s.queries, |s.pending| + 1) < 12 * SECOND
    ensures var (failed, s') := Send(w, parentEnd, s, body, points);
            && !failed && s'.pending == [] && s'.now == s.now + CostOf(w, s.queries, |s.pending| + 1)
            && Requests(s'.log) == Requests(s.log) + |s.pending| + 1
  {
    var end := SendEnd(parentEnd, s);
    assert s.now + CostOf(w, s.queries, |s.pending| + 1) < end;
    CostAppend(w, s.queries, |s.pending|);
    var s1 := FlushPending(w, end, s);
    FlushEmpties(w, end, s, Delivered, s1);
    var b := Batch(s1.next, body, points);
    SendAfterFlush(w, parentEnd, s, body, points, s1);
    NewIsDelivered(w, end, s1, b);
  }

  /** An endpoint that refuses for good: Send gives every kept batch its last request and throws it
      away, tries the new one once, and keeps that one only. */
  lemma RefusedSend(w: World, parentEnd: nat, s: State, body: Text, points: int)
    requires AlwaysGives(w, Rejected) && NoneEmpty(s.pending) && body != []
    requires s.now + CostOf(w, s.queries, |s.pending| + 1) < parentEnd
    requires CostOf(w, s.queries, |s.pending| + 1) < 12 * SECOND
    ensures var (failed, s') := Send(w, parentEnd, s, body, points);
            && failed && s'.pending == [Batch(s.next, body, points)]
            && s'.now == s.now + CostOf(w, s.queries, |s.pending| + 1)
            && Requests(s'.log) == Requests(s.log) + |s.pending| + 1
  {
    var end := SendEnd(parentEnd, s);
    assert s.now + CostOf(w, s.queries, |s.pending| + 1) < end;
    CostAppend(w, s.queries, |s.pending|);
    var s1 := FlushPending(w, end, s);
    FlushEmpties(w, end, s, Rejected, s1);
    var b := Batch(s1.next, body, points);
    SendAfterFlush(w, parentEnd, s, body, points, s1);
    TryNewEnds(w, end, s1, b, Rejected);
    NewIsKept(w, end, s1, b);
  }

  /** An endpoint that is down: Send tries the oldest kept batch once and the new one four times,
      over the time of these requests and of the backoff; then it keeps the new one, at the cost of
      the oldest when the queue is full. */
  lemma FailedSend(w: World, parentEnd: nat, s: State, body: Text, points: int)
    requires AlwaysGives(w, Transient) && NoneEmpty(s.pending) && |s.pending| <= 4 && body != []
    requires var n := if s.pending == [] then 0 else 1;
             var cost := CostOf(w, s.queries, n) + CostOfLadder(w, s.queries + n, BACKOFF);
             s.now + cost < parentEnd && cost < 12 * SECOND
    ensures var (failed, s') := Send(w, parentEnd, s, body, points);
            var n := if s.pending == [] then 0 else 1;
            && failed && s'.now == s.now + CostOf(w, s.queries, n) + CostOfLadder(w, s.queries + n, BACKOFF)
            && s'.pending == (if |s.pending| < 4 then s.pending else s.pending[1..])
                             + [Batch(s.next, body, points)]
            && Requests(s'.log) == Requests(s.log) + n + 4
  {
    var end := SendEnd(parentEnd, s);
    if s.pending != [] {
      assert CostOf(w, s.queries, 1) == Cost(w, s.queries) + CostOf(w, s.queries + 1, 0);
    }
    FlushStops(w, end, s);
    var s1 := FlushPending(w, end, s);
    var b := Batch(s1.next, body, points);
    SendAfterFlush(w, parentEnd, s, body, points, s1);
    TryNewClimbs(w, end, s1, b);
    NewIsKept(w, end, s1, b);
  }

  /** Send without a body still flushes: an endpoint that accepts gets everything that was kept. */
  lemma AcceptedFlush(w: World, parentEnd: nat, s: State, points: int)
    requires AlwaysGives(w, Delivered) && NoneEmpty(s.pending)
    requires s.now + CostOf(w, s.queries, |s.pending|) < parentEnd && CostOf(w, s.queries, |s.pending|) < 12 * SECOND
    ensures var (failed, s') := Send(w, parentEnd, s, [], points);
            !failed && Emptied(w, s, s')
  {
    var end := SendEnd(parentEnd, s);
    FlushEmpties(w, end, s, Delivered, FlushPending(w, end, s));
    if s.pending == [] {
      NothingToFlush(w, end, s);
    }
  }

  // ---- a context that has ended ----

  lemma LateLadder(w: World, end: nat, s: State, b: Batch, path: Path, ladder: seq<nat>)
    requires s.now >= end && b.body != [] && (ladder != [] ==> ladder[0] > 0)
    ensures var (sent, s') := PostLadder(w, end, s, b, path, ladder);
            !sent && s'.now == s.now && Requests(s'.log) == Requests(s.log) + 1
  {
    AttemptIsJudged(w, end, s, b, path);
    CountsAppend(s.log, Posted(b, path, Transient));
  }

  lemma LateTry(w: World, end: nat, s: State, b: Batch)
    requires s.now >= end && b.body != []
    ensures var (sent, s') := TryNew(w, end, s, b);
            !sent && s'.now == s.now && Requests(s'.log) == Requests(s.log) + 1
  {
    LateLadder(w, end, s.(next := s.next + 1), b, Try, BACKOFF);
  }

  /** Under a context that has ended, a flush does nothing, and Send makes one vain attempt on its own
      batch and keeps it; neither takes time. */
  lemma LateSend(w: World, parentEnd: nat, s: State, body: Text, points: int)
    requires s.now >= parentEnd && |s.pending| <= 4 && body != []
    ensures FlushPending(w, parentEnd, s) == s
    ensures var (failed, s') := Send(w, parentEnd, s, body, points);
            && failed && s'.now == s.now && Requests(s'.log) == Requests(s.log) + 1
            && s'.pending == (if |s.pending| < 4 then s.pending else s.pending[1..])
                             + [Batch(s.next, body, points)]
  {
    var b := Batch(s.next, body, points);
    SendAfterFlush(w, parentEnd, s, body, points, s);
    LateTry(w, SendEnd(parentEnd, s), s, b);
    NewIsKept(w, SendEnd(parentEnd, s), s, b);
  }

  // ---- SendOnce ----

  /** The two delays of SendOnce add one second to the time of its three requests. */
  lemma OnceCost(w: World, q: nat)
    ensures CostOfLadder(w, q, ONCE_DELAYS) == SECOND + Cost(w, q) + Cost(w, q + 2) + Cost(w, q + 4)
  {
    var d := ONCE_DELAYS;
    assert d[1..] == [SECOND / 2] && d[2..] == [];
    assert d[1..][1..] == d[2..];
    assert CostOfLadder(w, q + 4, d[2..]) == Cost(w, q + 4);
    assert CostOfLadder(w, q + 2, d[1..]) == Cost(w, q + 2) + SECOND / 2 + CostOfLadder(w, q + 4, d[2..]);
  }

  /** An answered SendOnce makes one request, and succeeds exactly when it was accepted; the queue is
      left alone. */
  lemma AnsweredOnce(w: World, end: nat, s: State, body: Text, points: int, o: Outcome)
    requires AlwaysGives(w, o) && !o.Transient? && body != [] && s.now + Cost(w, s.queries) < end
    ensures var (failed, s') := SendOnce(w, end, s, body, points);
            && (failed <==> o.Rejected?) && s'.pending == s.pending
            && s'.now == s.now + Cost(w, s.queries) && Requests(s'.log) == Requests(s.log) + 1
  {
    var b := Batch(s.next, body, points);
    LadderEnds(w, end, s.(next := s.next + 1), b, Once, ONCE_DELAYS, o);
    var sent, s1 := OnceCases(w, end, s, b);
  }

  /** Against an endpoint that is down, SendOnce makes three requests with half a second between them,
      and gives up. */
  lemma FailedOnce(w: World, end: nat, s: State, body: Text, points: int)
    requires AlwaysGives(w, Transient) && body != [] && s.now + CostOfLadder(w, s.queries, ONCE_DELAYS) < end
    ensures var (failed, s') := SendOnce(w, end, s, body, points);
            && failed && s'.pending == s.pending
            && s'.now == s.now + CostOfLadder(w, s.queries, ONCE_DELAYS)
            && Requests(s'.log) == Requests(s.log) + 3
  {
    var b := Batch(s.next, body, points);
    LadderClimbs(w, end, s.(next := s.next + 1), b, Once, ONCE_DELAYS);
    OnceBounds(w, end, s, b);
    var sent, s1 := OnceCases(w, end, s, b);
  }
}

/** When an attempt is final, by the answers of the endpoint alone: over every run, nothing counts as
    delivered or as refused for good unless the endpoint said so in time. */
module PushVerdicts {
  import opened PushModel
  import opened PushRuns

  predicate IsSuccess(r: Reply) { r.Status? && 200 <= r.code < 300 }

  /** 408 and 429 ask for another attempt. */
  predicate IsRefusal(r: Reply) { r.Status? && 400 <= r.code < 500 && r.code != 408 && r.code != 429 }

  /** The answer to the query comes before the request timeout and the end of the context. */
  predicate InTime(w: World, end: nat, now: nat, query: nat) {
    now < end && w.took(query) <= 10 * SECOND && now + w.took(query) <= end
  }

  /** One attempt, exactly: it is delivered if and only if a success status came in time, rejected if
      and only if a refusal came in time, and else it failed for now. A late answer ends the attempt at
      the request timeout or with the context, whatever it would have said. */
  lemma AttemptIsJudged(w: World, end: nat, s: State, b: Batch, path: Path)
    requires b.body != []
    ensures var (outcome, s') := Post(w, end, s, b, path);
            var inTime := InTime(w, end, s.now, s.queries);
            && (outcome.Delivered? <==> inTime && IsSuccess(w.reply(s.queries)))
            && (outcome.Rejected? <==> inTime && IsRefusal(w.reply(s.queries)))
            && (inTime ==> s'.now == s.now + w.took(s.queries))
            && (!inTime && s.now < end ==>
                  s'.now == s.now + 10 * SECOND <= end || s'.now == end <= s.now + 10 * SECOND)
            && (s.now >= end ==> s'.now == s.now)
            && s'.queries == s.queries + 1 && s'.pending == s.pending
  {
  }

  /** An empty body is delivered without a request. */
  lemma EmptyBodyIsDelivered(w: World, end: nat, s: State, b: Batch, path: Path)
    requires b.body == []
    ensures Post(w, end, s, b, path).0.Delivered?
    ensures var s' := Post(w, end, s, b, path).1;
            s'.now == s.now && s'.queries == s.queries && Requests(s'.log) == Requests(s.log)
  {
    CountsAppend(s.log, Posted(b, path, Delivered));
  }

  // ---- over every run ----

  ghost predicate Backed(w: World, e: Event) {
    e.Posted? && e.batch.body != [] ==>
      && (e.outcome.Delivered? ==> exists q :: IsSuccess(w.reply(q)) && w.took(q) <= REQUEST_TIMEOUT)
      && (e.outcome.Rejected? ==> exists q :: IsRefusal(w.reply(q)) && w.took(q) <= REQUEST_TIMEOUT)
  }

  ghost predicate AllBacked(w: World, log: seq<Event>) {
    forall i | 0 <= i < |log| :: Backed(w, log[i])
  }

  lemma PostIsBacked(w: World, end: nat, s: State, b: Batch, path: Path)
    ensures Backed(w, Posted(b, path, Post(w, end, s, b, path).0))
  {
    if b.body != [] {
      AttemptIsJudged(w, end, s, b, path);
      var q := s.queries;
      assert IsSuccess(w.reply(q)) || IsRefusal(w.reply(q)) || Post(w, end, s, b, path).0.Transient?;
    }
  }

  lemma BackedAppend(w: World, log: seq<Event>, e: Event)
    requires AllBacked(w, log) && Backed(w, e)
    ensures AllBacked(w, log + [e])
  {
  }

  lemma {:induction false} FlushBacked(w: World, end: nat, s: State)
    requires AllBacked(w, s.log)
    ensures AllBacked(w, FlushPending(w, end, s).log)
    decreases |s.pending|
  {
    if s.pending != [] && s.now < end {
      PostIsBacked(w, end, s, s.pending[0], Flush);
      var outcome, s' := FlushTurn(w, end, s);
      BackedAppend(w, s.log, Posted(s.pending[0], Flush, outcome));
      if !outcome.Transient? {
        FlushBacked(w, end, s');
      }
    }
  }

  lemma {:induction false} LadderBacked(w: World, end: nat, s: State, b: Batch, path: Path, ladder: seq<nat>)
    requires AllBacked(w, s.log) && !path.Flush?
    ensures AllBacked(w, PostLadder(w, end, s, b, path, ladder).1.log)
    decreases |ladder|
  {
    PostIsBacked(w, end, s, b, path);
    var again, outcome, now, queries := LadderTurn(w, end, s, b, path, ladder);
    BackedAppend(w, s.log, Posted(b, path, outcome));
    if again {
      LadderBacked(w, end, AfterHandPost(s, b, path, outcome).(now := now, queries := queries), b, path, ladder[1..]);
    }
  }

  lemma {:induction false} EvictBacked(w: World, s: State)
    requires AllBacked(w, s.log)
    ensures AllBacked(w, Evict(s).log)
    decreases |s.pending|
  {
    if |s.pending| > MAX_BUFFERED {
      BackedAppend(w, s.log, Evicted(s.pending[0]));
      EvictBacked(w, AfterEvicted(s));
    }
  }

  lemma SendNewBacked(w: World, end: nat, s: State, b: Batch)
    requires AllBacked(w, s.log)
    ensures AllBacked(w, SendNew(w, end, s, b).1.log)
  {
    LadderBacked(w, end, s.(next := s.next + 1), b, Try, BACKOFF);
    var sent, s1 := SendNewCases(w, end, s, b);
    if !sent {
      BackedAppend(w, s1.log, Buffered(b));
      EvictBacked(w, AfterBuffered(s1, b));
    }
  }

  lemma DoBacked(w: World, s: State, c: Call)
    requires AllBacked(w, s.log)
    ensures AllBacked(w, Do(w, s, c).log)
  {
    var s0 := Later(s, c.wait);
    match c
    case CallFlush(_, end) => FlushBacked(w, end, s0);
    case CallSend(_, end, body, points) =>
      FlushBacked(w, SendEnd(end, s0), s0);
      var s1 := FlushPending(w, SendEnd(end, s0), s0);
      if body != [] {
        SendNewBacked(w, SendEnd(end, s0), s1, Batch(s1.next, body, points));
      }
    case CallOnce(_, end, body, points) =>
      var b := Batch(s0.next, body, points);
      LadderBacked(w, end, s0.(next := s0.next + 1), b, Once, ONCE_DELAYS);
      var sent, s1 := OnceCases(w, end, s0, b);
  }

  lemma {:induction false} RunBacked(w: World, s: State, calls: seq<Call>)
    requires AllBacked(w, s.log)
    ensures AllBacked(w, Run(w, s, calls).log)
    decreases |calls|
  {
    if calls != [] {
      DoBacked(w, s, calls[0]);
      RunBacked(w, Do(w, s, calls[0]), calls[1..]);
    }
  }

  /** No batch is lost to an answer that never came: on every run each acknowledged batch with a body
      has a 2xx answer within the request timeout behind it, and each batch that is thrown away as
      rejected has a 4xx answer other than 408 and 429 behind it. */
  lemma VerdictsAreAnswers(w: World, calls: seq<Call>, i: nat)
    requires i < |Run(w, INITIAL, calls).log| && Run(w, INITIAL, calls).log[i].Posted?
    requires Run(w, INITIAL, calls).log[i].batch.body != []
    ensures var e := Run(w, INITIAL, calls).log[i];
            && (e.outcome.Delivered? ==> exists q :: IsSuccess(w.reply(q)) && w.took(q) <= 10 * SECOND)
            && (e.outcome.Rejected? ==> exists q :: IsRefusal(w.reply(q)) && w.took(q) <= 10 * SECOND)
  {
    RunBacked(w, INITIAL, calls);
    assert Backed(w, Run(w, INITIAL, calls).log[i]);
  }
}

/** Which bytes a batch has: whatever the pusher posts, keeps or evicts, on any run, has the body
    and the count that its own Send or SendOnce was given. */
module PushTrace {
  import opened PushModel
  import opened PushRuns

  /** The batch that a call hands over, if it does. A Send with an empty body hands over none. */
  function Handed(c: Call, id: nat): seq<Batch> {
    match c
    case CallSend(_, _, body, points) => if body == [] then [] else [Batch(id, body, points)]
    case CallOnce(_, _, body, points) => [Batch(id, body, points)]
    case CallFlush(_, _) => []
  }

  /** The batches handed over by a run of calls. Each one has its position as its number. */
  function Submitted(calls: seq<Call>): seq<Batch> {
    if calls == [] then []
    else
      var before := Submitted(calls[..|calls| - 1]);
      before + Handed(calls[|calls| - 1], |before|)
  }

  predicate Known(b: Batch, subs: seq<Batch>) {
    b.id < |subs| && subs[b.id] == b
  }

  ghost predicate LogKnown(log: seq<Event>, subs: seq<Batch>) {
    forall i | 0 <= i < |log| :: Known(log[i].batch, subs)
  }

  predicate QueueKnown(pending: seq<Batch>, subs: seq<Batch>) {
    forall i | 0 <= i < |pending| :: Known(pending[i], subs)
  }

  ghost predicate Traced(s: State, subs: seq<Batch>) {
    s.next == |subs| && LogKnown(s.log, subs) && QueueKnown(s.pending, subs)
  }

  lemma {:induction false} RunAppend(w: World, s: State, calls: seq<Call>, c: Call)
    ensures Run(w, s, calls + [c]) == Do(w, Run(w, s, calls), c)
    decreases |calls|
  {
    if calls == [] {
      assert calls + [c] == [c];
      assert Run(w, Do(w, s, c), []) == Do(w, s, c);
    } else {
      assert (calls + [c])[1..] == calls[1..] + [c];
      RunAppend(w, Do(w, s, calls[0]), calls[1..], c);
    }
  }

  /** The state is where these calls lead. */
  ghost predicate IsAfter(w: World, calls: seq<Call>, s: State) { s == Run(w, INITIAL, calls) }

  lemma CallAppends(w: World, calls: seq<Call>, s: State, c: Call)
    requires IsAfter(w, calls, s)
    ensures IsAfter(w, calls + [c], Do(w, s, c))
  {
    RunAppend(w, INITIAL, calls, c);
  }

  lemma KnownGrows(s: State, subs: seq<Batch>, b: Batch)
    requires Traced(s, subs) && b.id == s.next
    ensures Traced(s.(next := s.next + 1), subs + [b]) && Known(b, subs + [b])
  {
  }

  lemma {:induction false} FlushTraced(w: World, end: nat, s: State, subs: seq<Batch>)
    requires Traced(s, subs)
    ensures Traced(FlushPending(w, end, s), subs)
    decreases |s.pending|
  {
    if s.pending != [] && s.now < end {
      var outcome, s' := FlushTurn(w, end, s);
      assert Traced(s', subs);
      if !outcome.Transient? {
        FlushTraced(w, end, s', subs);
      }
    }
  }

  lemma {:induction false} LadderTraced(w: World, end: nat, s: State, b: Batch, path: Path, ladder: seq<nat>,
                                        subs: seq<Batch>)
    requires Traced(s, subs) && Known(b, subs) && !path.Flush?
    ensures Traced(PostLadder(w, end, s, b, path, ladder).1, subs)
    decreases |ladder|
  {
    var again, outcome, now, queries := LadderTurn(w, end, s, b, path, ladder);
    var s1 := AfterHandPost(s, b, path, outcome).(now := now, queries := queries);
    assert Traced(s1, subs);
    if again {
      LadderTraced(w, end, s1, b, path, ladder[1..], subs);
    }
  }

  lemma {:induction false} EvictTraced(s: State, subs: seq<Batch>)
    requires Traced(s, subs)
    ensures Traced(Evict(s), subs)
    decreases |s.pending|
  {
    if |s.pending| > MAX_BUFFERED {
      assert Traced(AfterEvicted(s), subs);
      EvictTraced(AfterEvicted(s), subs);
    }
  }

  lemma SendNewTraced(w: World, end: nat, s: State, b: Batch, subs: seq<Batch>)
    requires Traced(s, subs) && b.id == s.next
    ensures Traced(SendNew(w, end, s, b).1, subs + [b])
  {
    KnownGrows(s, subs, b);
    LadderTraced(w, end, s.(next := s.next + 1), b, Try, BACKOFF, subs + [b]);
    var sent, s1 := SendNewCases(w, end, s, b);
    if !sent {
      assert Traced(AfterBuffered(s1, b), subs + [b]);
      EvictTraced(AfterBuffered(s1, b), subs + [b]);
    }
  }

  lemma DoTraced(w: World, s: State, c: Call, subs: seq<Batch>)
    requires Traced(s, subs)
    ensures Traced(Do(w, s, c), subs + Handed(c, |subs|))
  {
    var s0 := Later(s, c.wait);
    match c
    case CallFlush(_, end) => FlushTraced(w, end, s0, subs);
    case CallSend(_, end, body, points) =>
      FlushBounds(w, SendEnd(end, s0), s0);
      FlushTraced(w, SendEnd(end, s0), s0, subs);
      var s1 := FlushPending(w, SendEnd(end, s0), s0);
      if body != [] {
        SendNewTraced(w, SendEnd(end, s0), s1, Batch(s1.next, body, points), subs);
      }
    case CallOnce(_, end, body, points) =>
      var b := Batch(s0.next, body, points);
      KnownGrows(s0, subs, b);
      LadderTraced(w, end, s0.(next := s0.next + 1), b, Once, ONCE_DELAYS, subs + [b]);
      var sent, s1 := OnceCases(w, end, s0, b);
  }

  /** On every run and in every world: each post, each buffering, each eviction and each kept
      batch is, byte for byte, the batch that the call with its number handed over. */
  lemma {:induction false} RunTraced(w: World, calls: seq<Call>)
    ensures Traced(Run(w, INITIAL, calls), Submitted(calls))
    decreases |calls|
  {
    if calls != [] {
      var n := |calls| - 1;
      RunTraced(w, calls[..n]);
      assert calls[..n] + [calls[n]] == calls;
      RunAppend(w, INITIAL, calls[..n], calls[n]);
      DoTraced(w, Run(w, INITIAL, calls[..n]), calls[n], Submitted(calls[..n]));
    }
  }
}

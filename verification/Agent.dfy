/** The agent: one encoder, whose cells every cycle overwrites, and one pusher, which keeps the
    batches of earlier cycles. */
module AgentClass {
  import opened Bytes
  import opened TagSet
  import opened LineFormat
  import opened LineParser
  import opened RoundTrip
  import opened Wrappers
  import opened WholePoints
  import opened LineEncoder
  import opened PusherClass
  import M = PushModel
  import R = PushRuns
  import T = PushTrace

  const SHUTDOWN_DEADLINE := M.REQUEST_TIMEOUT + 2 * M.SECOND

  const OBS_AGENT: Text := [111, 98, 115, 95, 97, 103, 101, 110, 116]
  const VERSION: Text := [118, 101, 114, 115, 105, 111, 110]
  const START_TIME: Text := [115, 116, 97, 114, 116, 95, 116, 105, 109, 101]
  const UP: Text := [117, 112]

  /** The heartbeat of a cycle: `up` is 1 but for the last one. */
  function Heartbeat(version: Text, start: int64, up: int64, at: Timestamp): Point {
    Point(OBS_AGENT, [], [Field(VERSION, StringV(version)), Field(START_TIME, IntV(start)), Field(UP, IntV(up))], at)
  }

  /** What the collectors give in one cycle. */
  datatype Collected = Collected(host: seq<Point>, at: Timestamp, containers: seq<Point>)

  function Points(version: Text, start: int64, up: int64, r: Collected): seq<Point> {
    r.host + [Heartbeat(version, start, up, r.at)] + r.containers
  }

  lemma {:induction false} AcceptedSplit(ps: seq<Point>, p: Point, qs: seq<Point>)
    requires Accepted(p)
    ensures AcceptedPoints(ps + [p] + qs) != []
  {
    if ps == [] {
      assert ps + [p] + qs == [p] + qs;
    } else {
      assert (ps + [p] + qs)[1..] == ps[1..] + [p] + qs;
      AcceptedSplit(ps[1..], p, qs);
    }
  }

  /** The heartbeat is always accepted, so no cycle has an empty batch. */
  lemma NoBatchIsEmpty(base: seq<Tag>, version: Text, start: int64, up: int64, r: Collected)
    ensures BatchText(base, Points(version, start, up, r)) != []
  {
    var beat := Heartbeat(version, start, up, r.at);
    assert FieldValid(beat.fields[0]);
    AcceptedSplit(r.host, beat, r.containers);
    BatchFraming(base, Points(version, start, up, r));
  }

  /** The server can tell a clean stop: every batch reads back with the heartbeat of its cycle in its
      place, whose fields are the version, the start time and the very value of `up`. */
  lemma HeartbeatComesBack(base: seq<Tag>, version: Text, start: int64, up: int64, r: Collected)
    returns (qs: seq<Point>, k: nat)
    requires forall p | p in Points(version, start, up, r) :: Readable(base, p)
    ensures ReadBatch(BatchText(base, Points(version, start, up, r))) == Some(qs)
    ensures k < |qs| && qs[k].measurement == OBS_AGENT && qs[k].ts == r.at
    ensures Increasing(qs[k].tags) && LastWins(qs[k].tags) == LastWins(base)
    ensures qs[k].fields == [Field(VERSION, StringV(Flatten(version))), Field(START_TIME, IntV(start)), Field(UP, IntV(up))]
  {
    var beat := Heartbeat(version, start, up, r.at);
    var ps := Points(version, start, up, r);
    qs := BatchComesBack(base, ps);
    k := |Written(r.host)|;
    BeatIsWritten(version, start, up, r);
    assert CameBack(base, Written(ps)[k], qs[k]);
    assert base + beat.tags == base;
    BeatFields(version, start, up, r.at);
  }

  lemma BeatFields(version: Text, start: int64, up: int64, at: Timestamp)
    ensures Writes(Heartbeat(version, start, up, at))
    ensures ReadBack(Heartbeat(version, start, up, at).fields)
         == [Field(VERSION, StringV(Flatten(version))), Field(START_TIME, IntV(start)), Field(UP, IntV(up))]
  {
    var fs := Heartbeat(version, start, up, at).fields;
    assert fs[0] in fs && Wanted(fs[0]) && Wanted(fs[1]) && Wanted(fs[2]);
    ThreeFields(fs);
  }

  lemma BeatIsWritten(version: Text, start: int64, up: int64, r: Collected)
    ensures var k, written := |Written(r.host)|, Written(Points(version, start, up, r));
            k < |written| && written[k] == Heartbeat(version, start, up, r.at)
  {
    BeatFields(version, start, up, r.at);
    WrittenSplit(r.host, Heartbeat(version, start, up, r.at), r.containers);
  }

  lemma ThreeFields(fs: seq<Field>)
    requires |fs| == 3 && Wanted(fs[0]) && Wanted(fs[1]) && Wanted(fs[2])
    ensures ReadBack(fs) == [Field(fs[0].key, Normal(fs[0].value)), Field(fs[1].key, Normal(fs[1].value)),
                             Field(fs[2].key, Normal(fs[2].value))]
  {
    assert fs[1..][1..] == fs[2..] && fs[2..][1..] == [];
    assert ReadBack(fs[2..]) == [Field(fs[2].key, Normal(fs[2].value))] + ReadBack(fs[2..][1..]);
    assert ReadBack(fs[1..]) == [Field(fs[1].key, Normal(fs[1].value))] + ReadBack(fs[1..][1..]);
  }

  /** The batch number `id` that these points make. */
  function Encoded(base: seq<Tag>, id: nat, ps: seq<Point>): M.Batch {
    M.Batch(id, BatchText(base, ps), |AcceptedPoints(ps)|)
  }

  /** The batches handed over are the encoded ones, by number. */
  ghost predicate AllEncoded(base: seq<Tag>, subs: seq<M.Batch>, batches: seq<seq<Point>>) {
    && |subs| == |batches|
    && forall i | 0 <= i < |subs| :: subs[i] == Encoded(base, i, batches[i])
  }

  lemma OneMoreEncoded(base: seq<Tag>, calls: seq<M.Call>, batches: seq<seq<Point>>, c: M.Call, ps: seq<Point>)
    requires AllEncoded(base, T.Submitted(calls), batches)
    requires T.Handed(c, |batches|) == [Encoded(base, |batches|, ps)]
    ensures AllEncoded(base, T.Submitted(calls + [c]), batches + [ps])
  {
    assert (calls + [c])[..|calls|] == calls;
  }

  /** A cycle always hands over its batch. */
  lemma CycleIsEncoded(base: seq<Tag>, calls: seq<M.Call>, batches: seq<seq<Point>>, c: M.Call,
                       version: Text, start: int64, up: int64, r: Collected)
    requires AllEncoded(base, T.Submitted(calls), batches) && !c.CallFlush?
    requires c.body == BatchText(base, Points(version, start, up, r))
    requires c.points == |AcceptedPoints(Points(version, start, up, r))|
    ensures AllEncoded(base, T.Submitted(calls + [c]), batches + [Points(version, start, up, r)])
  {
    NoBatchIsEmpty(base, version, start, up, r);
    OneMoreEncoded(base, calls, batches, c, Points(version, start, up, r));
  }

  lemma FlushHandsNone(calls: seq<M.Call>, c: M.Call)
    requires c.CallFlush?
    ensures T.Submitted(calls + [c]) == T.Submitted(calls)
  {
    assert (calls + [c])[..|calls|] == calls;
  }

  method EncodeAll(enc: Encoder, ps: seq<Point>)
    requires enc.Valid()
    modifies enc, enc.buf, enc.buf.data
    ensures enc.Valid() && (enc.buf.data == old(enc.buf.data) || fresh(enc.buf.data))
    ensures enc.calls == old(enc.calls) + ps
  {
    for i := 0 to |ps|
      invariant enc.Valid() && (enc.buf.data == old(enc.buf.data) || fresh(enc.buf.data))
      invariant enc.calls == old(enc.calls) + ps[..i]
    {
      enc.Point(ps[i].measurement, ps[i].tags, ps[i].fields, ps[i].ts);
      assert enc.calls == old(enc.calls) + ps[..i] + [ps[i]];
    }
  }

  method EncodeCycle(enc: Encoder, host: seq<Point>, beat: Point, containers: seq<Point>)
    requires enc.Valid()
    modifies enc, enc.buf, enc.buf.data
    ensures enc.Valid() && (enc.buf.data == old(enc.buf.data) || fresh(enc.buf.data))
    ensures enc.calls == host + [beat] + containers
  {
    enc.Reset();
    EncodeAll(enc, host);
    enc.Point(beat.measurement, beat.tags, beat.fields, beat.ts);
    EncodeAll(enc, containers);
  }

  lemma FlushIsDone(w: M.World, end: nat, s: M.State)
    ensures M.Do(w, s, M.CallFlush(0, end)) == M.FlushPending(w, end, s)
  {
    assert M.Later(s, 0) == s;
  }

  lemma AfterFlush(w: M.World, calls: seq<M.Call>, end: nat, s: M.State)
    requires T.IsAfter(w, calls, s)
    ensures T.IsAfter(w, calls + [M.CallFlush(0, end)], M.FlushPending(w, end, s))
  {
    T.CallAppends(w, calls, s, M.CallFlush(0, end));
    FlushIsDone(w, end, s);
  }

  class Agent {
    const enc: Encoder
    const pusher: Pusher
    const version: Text
    const start: int64
    /** The calls on the pusher so far, and the points of each batch handed over. */
    ghost var calls: seq<M.Call>
    ghost var batches: seq<seq<Point>>

    ghost predicate Apart()
      reads enc, enc.buf, enc.buf.data, pusher, pusher.outside, pusher.Cells()
    {
      enc.Valid() && pusher.Valid() && enc.buf.data !in pusher.Cells()
    }

    /** The encoder's cells are none of the kept ones, and the pusher is where the calls so far
        lead, with the batches of the cycles so far. */
    ghost predicate Valid()
      reads this, enc, enc.buf, enc.buf.data, pusher, pusher.outside, pusher.Cells()
    {
      && Apart()
      && T.IsAfter(pusher.outside.world, calls, pusher.model)
      && AllEncoded(enc.base, T.Submitted(calls), batches)
    }

    constructor (base: seq<Tag>, version: Text, start: int64, world: M.World)
      ensures Valid() && fresh(enc) && fresh(enc.buf) && fresh(enc.buf.data)
      ensures fresh(pusher) && fresh(pusher.outside) && pusher.outside.world == world
      ensures enc.base == base && calls == [] && batches == []
    {
      enc := new Encoder(base);
      var outside := new Outside(world);
      pusher := new Pusher(outside);
      this.version, this.start := version, start;
      calls, batches := [], [];
    }

    /** Fills the encoder with one cycle of points, over the cells of the cycle before. */
    method CollectBatch(up: int64, r: Collected)
      requires Apart()
      modifies enc, enc.buf, enc.buf.data
      ensures Apart() && enc.calls == Points(version, start, up, r)
    {
      EncodeCycle(enc, r.host, Heartbeat(version, start, up, r.at), r.containers);
    }

    /** One cycle: collects a batch and sends it. The wait before it is the time since the last
        call on the pusher, the collection included. */
    method Cycle(wait: nat, end: nat, r: Collected) returns (failed: bool)
      requires Valid()
      modifies this, enc, enc.buf, enc.buf.data, pusher, pusher.outside
      ensures Valid()
      ensures var ps := Points(version, start, 1, r);
              && batches == old(batches) + [ps]
              && calls == old(calls) + [M.CallSend(wait, end, BatchText(enc.base, ps), |AcceptedPoints(ps)|)]
    {
      ghost var ps := Points(version, start, 1, r);
      ghost var c := M.CallSend(wait, end, BatchText(enc.base, ps), |AcceptedPoints(ps)|);
      failed := Push(wait, end, r, c);
      CycleIsEncoded(enc.base, calls, batches, c, version, start, 1, r);
      Record(c, batches + [ps]);
    }

    method Push(wait: nat, end: nat, r: Collected, ghost c: M.Call) returns (failed: bool)
      requires Valid()
      requires var ps := Points(version, start, 1, r);
               c == M.CallSend(wait, end, BatchText(enc.base, ps), |AcceptedPoints(ps)|)
      modifies enc, enc.buf, enc.buf.data, pusher, pusher.outside
      ensures Apart()
      ensures T.IsAfter(pusher.outside.world, calls + [c], pusher.model)
    {
      T.CallAppends(pusher.outside.world, calls, pusher.model, c);
      NoBatchIsEmpty(enc.base, version, start, 1, r);
      CollectBatch(1, r);
      pusher.Elapse(wait);
      failed := Deliver(end);
    }

    /** Hands the batch of the encoder to Send. */
    method Deliver(end: nat) returns (failed: bool)
      requires Apart() && enc.Contents() != []
      modifies pusher, pusher.outside
      ensures Apart()
      ensures (failed, pusher.model)
           == M.Send(pusher.outside.world, end, old(pusher.model), enc.Contents(), |AcceptedPoints(enc.calls)|)
    {
      failed := false;
      if enc.Len() > 0 {
        var body := enc.Bytes();
        failed := pusher.Send(end, body, enc.points);
      }
    }

    /** Keeps the record up to date. */
    ghost method Record(c: M.Call, handed: seq<seq<Point>>)
      requires Apart() && T.IsAfter(pusher.outside.world, calls + [c], pusher.model)
      requires AllEncoded(enc.base, T.Submitted(calls + [c]), handed)
      modifies `calls, `batches
      ensures Valid() && calls == old(calls) + [c] && batches == handed
    {
      calls, batches := calls + [c], handed;
    }

    /** The final push: flushes, collects once more with `up` 0, and sends once. */
    method Shutdown(wait: nat, r: Collected)
      requires Valid()
      modifies this, enc, enc.buf, enc.buf.data, pusher, pusher.outside
      ensures Valid()
      ensures var ps := Points(version, start, 0, r);
              var end := old(pusher.outside.now) + 12 * M.SECOND;
              && batches == old(batches) + [ps]
              && calls == old(calls) + [M.CallFlush(0, end),
                                        M.CallOnce(wait, end, BatchText(enc.base, ps), |AcceptedPoints(ps)|)]
    {
      var end := pusher.outside.now + SHUTDOWN_DEADLINE;
      FinalFlush(end);
      FinalBatch(wait, end, r);
    }

    method FinalFlush(end: nat)
      requires Valid()
      modifies this, pusher, pusher.outside
      ensures Valid() && batches == old(batches) && calls == old(calls) + [M.CallFlush(0, end)]
    {
      ghost var c := M.CallFlush(0, end);
      AfterFlush(pusher.outside.world, calls, end, pusher.model);
      FlushAll(end);
      FlushHandsNone(calls, c);
      Record(c, batches);
    }

    method FlushAll(end: nat)
      requires Apart()
      modifies pusher, pusher.outside
      ensures Apart() && pusher.model == M.FlushPending(pusher.outside.world, end, old(pusher.model))
    {
      pusher.FlushPending(end);
    }

    method FinalBatch(wait: nat, end: nat, r: Collected)
      requires Valid()
      modifies this, enc, enc.buf, enc.buf.data, pusher, pusher.outside
      ensures Valid()
      ensures var ps := Points(version, start, 0, r);
              && batches == old(batches) + [ps]
              && calls == old(calls) + [M.CallOnce(wait, end, BatchText(enc.base, ps), |AcceptedPoints(ps)|)]
    {
      ghost var ps := Points(version, start, 0, r);
      ghost var c := M.CallOnce(wait, end, BatchText(enc.base, ps), |AcceptedPoints(ps)|);
      PushLast(wait, end, r, c);
      CycleIsEncoded(enc.base, calls, batches, c, version, start, 0, r);
      Record(c, batches + [ps]);
    }

    method PushLast(wait: nat, end: nat, r: Collected, ghost c: M.Call)
      requires Valid()
      requires var ps := Points(version, start, 0, r);
               c == M.CallOnce(wait, end, BatchText(enc.base, ps), |AcceptedPoints(ps)|)
      modifies enc, enc.buf, enc.buf.data, pusher, pusher.outside
      ensures Apart()
      ensures T.IsAfter(pusher.outside.world, calls + [c], pusher.model)
    {
      T.CallAppends(pusher.outside.world, calls, pusher.model, c);
      NoBatchIsEmpty(enc.base, version, start, 0, r);
      CollectBatch(0, r);
      pusher.Elapse(wait);
      DeliverLast(end);
    }

    method DeliverLast(end: nat)
      requires Apart() && enc.Contents() != []
      modifies pusher, pusher.outside
      ensures Apart()
      ensures pusher.model
           == M.SendOnce(pusher.outside.world, end, old(pusher.model), enc.Contents(), |AcceptedPoints(enc.calls)|).1
    {
      if enc.Len() > 0 {
        var body := enc.Bytes();
        var failed := pusher.SendOnce(end, body, enc.points);
      }
    }
  }

  // ---- what every reachable agent keeps ----

  /** The number of the cycle that a kept batch comes from. */
  ghost function Origin(a: Agent, i: nat): nat
    requires a.Valid() && i < |a.pusher.pending|
    reads a, a.enc, a.enc.buf, a.enc.buf.data, a.pusher, a.pusher.outside, a.pusher.Cells()
  {
    a.pusher.model.pending[i].id
  }

  /** However often the encoder has been reset and refilled since, the cells of a kept batch are
      neither the encoder's nor another batch's, and still hold exactly the bytes that its own cycle encoded; the kept
      batches are in cycle order, and at most four. */
  lemma KeptBatchesStay(a: Agent)
    requires a.Valid()
    ensures |a.pusher.pending| <= M.MAX_BUFFERED
    ensures forall i | 0 <= i < |a.pusher.pending| ::
              && Origin(a, i) < |a.batches|
              && a.pusher.pending[i].cells != a.enc.buf.data
              && a.pusher.pending[i].cells[..] == BatchText(a.enc.base, a.batches[Origin(a, i)])
              && a.pusher.pending[i].points == |AcceptedPoints(a.batches[Origin(a, i)])|
    ensures forall i, j | 0 <= i < j < |a.pusher.pending| ::
              Origin(a, i) < Origin(a, j) && a.pusher.pending[i].cells != a.pusher.pending[j].cells
  {
    var s := R.FromTheStart(a.pusher.outside.world, a.calls);
    R.PendingRises(s);
    T.RunTraced(a.pusher.outside.world, a.calls);
    forall i | 0 <= i < |a.pusher.pending|
      ensures Origin(a, i) < |a.batches|
      ensures s.pending[i] == Encoded(a.enc.base, Origin(a, i), a.batches[Origin(a, i)])
      ensures a.pusher.pending[i].cells != a.enc.buf.data
    {
      assert T.Known(s.pending[i], T.Submitted(a.calls));
      assert a.pusher.pending[i].cells in a.pusher.Cells();
    }
  }

  /** So a kept batch still reads back as the points of its own cycle, exactly when these are
      faithful. */
  lemma KeptBatchesReadBack(a: Agent, i: nat)
    requires a.Valid() && i < |a.pusher.pending|
    ensures Origin(a, i) < |a.batches|
    ensures ReadBatch(a.pusher.pending[i].cells[..]) == Some(BatchMeaning(a.enc.base, a.batches[Origin(a, i)]))
       <==> forall p | p in a.batches[Origin(a, i)] && Accepted(p) :: Faithful(a.enc.base, p)
  {
    KeptBatchesStay(a);
    BatchRoundTrip(a.enc.base, a.batches[Origin(a, i)]);
  }

  // ---- the point counter counts lines ----

  /** The lines in all acknowledged bodies. */
  function DeliveredLines(log: seq<M.Event>): nat {
    if log == [] then 0
    else DeliveredLines(log[..|log| - 1])
         + if M.IsAck(log[|log| - 1]) then Count(log[|log| - 1].batch.body, LF) else 0
  }

  lemma {:induction false} TallyLines(log: seq<M.Event>)
    requires forall i | 0 <= i < |log| :: log[i].batch.points == Count(log[i].batch.body, LF)
    ensures M.Tally(log).points == DeliveredLines(log)
  {
    if log != [] {
      TallyLines(log[..|log| - 1]);
    }
  }

  /** The Points counter is the number of newlines in everything the endpoint acknowledged. */
  lemma PointsAreDeliveredLines(a: Agent)
    requires a.Valid()
    ensures a.pusher.stats.points == DeliveredLines(a.pusher.model.log)
  {
    var s := R.FromTheStart(a.pusher.outside.world, a.calls);
    T.RunTraced(a.pusher.outside.world, a.calls);
    forall i | 0 <= i < |s.log|
      ensures s.log[i].batch.points == Count(s.log[i].batch.body, LF)
    {
      assert T.Known(s.log[i].batch, T.Submitted(a.calls));
      BatchFraming(a.enc.base, a.batches[s.log[i].batch.id]);
    }
    TallyLines(s.log);
  }

  /** A shutdown makes at most one request per kept batch and three for the last one, adds
      nothing to the queue, and ends by its deadline, or late by no more than the collection. */
  lemma ShutdownIsBounded(w: M.World, s: M.State, wait: nat, body: Text, points: int)
    ensures var end := s.now + 12 * M.SECOND;
            var s' := M.Do(w, M.Do(w, s, M.CallFlush(0, end)), M.CallOnce(wait, end, body, points));
            && M.Requests(s'.log) <= M.Requests(s.log) + |s.pending| + 3
            && |s'.pending| <= |s.pending|
            && s'.now <= end + wait
  {
    var end := s.now + 12 * M.SECOND;
    var s1 := M.Do(w, s, M.CallFlush(0, end));
    FlushIsDone(w, end, s);
    R.FlushBounds(w, end, s);
    R.SendOnceReports(w, end, M.Later(s1, wait), body, points);
  }
}

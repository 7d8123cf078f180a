/** The pusher: its queue of kept batches, its counters and its loops. */
module PusherClass {
  import opened Bytes
  import opened LineEncoder
  import M = PushModel

  /** The endpoint and the clock. */
  class Outside {
    const world: M.World
    var now: nat
    var queries: nat

    constructor (world: M.World)
      ensures this.world == world && now == 0 && queries == 0
    {
      this.world := world;
      now, queries := 0, 0;
    }

    method Request(end: nat) returns (outcome: M.Outcome)
      modifies this
      ensures (outcome, now) == M.Request(world, end, old(now), old(queries))
      ensures queries == old(queries) + 1
    {
      var r := M.Request(world, end, now, queries);
      outcome, now := r.0, r.1;
      queries := queries + 1;
    }

    method Pass(d: nat)
      modifies this
      ensures now == old(now) + d && queries == old(queries)
    {
      now := now + d;
    }

    method Sleep(end: nat, d: nat) returns (slept: bool)
      modifies this
      ensures slept <==> old(now) + d < end || (old(now) + d == end && world.timerFirst(old(queries)))
      ensures now == if slept then old(now) + d else M.Max(old(now), end)
      ensures queries == old(queries) + 1
    {
      slept := now + d < end || (now + d == end && world.timerFirst(queries));
      now := if slept then now + d else M.Max(now, end);
      queries := queries + 1;
    }
  }

  /** A buffered batch: it owns the cells of its body. */
  datatype Held = Held(cells: array<byte>, points: int)

  method Copy(body: Slice) returns (copy: array<byte>)
    requires body.Valid()
    ensures fresh(copy) && copy[..] == body.Contents()
  {
    copy := new byte[body.len];
    forall i | 0 <= i < body.len {
      copy[i] := body.cells[i];
    }
  }

  class Pusher {
    const outside: Outside
    var pending: seq<Held>
    var stats: M.Stats
    /** What the fields mean: the state of the specification. */
    ghost var model: M.State

    ghost function Cells(): set<object>
      reads this
    {
      set h | h in pending :: h.cells
    }

    ghost predicate Valid()
      reads this, outside, Cells()
    {
      && |model.pending| == |pending|
      && (forall i | 0 <= i < |pending| ::
            model.pending[i].body == pending[i].cells[..] && model.pending[i].points == pending[i].points)
      && (forall i, j | 0 <= i < j < |pending| :: pending[i].cells != pending[j].cells)
      && model.stats == stats
      && model.now == outside.now && model.queries == outside.queries
    }

    constructor (outside: Outside)
      requires outside.now == 0 && outside.queries == 0
      ensures Valid() && this.outside == outside
      ensures model == M.INITIAL && pending == []
    {
      this.outside := outside;
      pending := [];
      stats := M.NO_STATS;
      model := M.INITIAL;
    }

    /** One attempt. An empty body counts as delivered, without a request. */
    method Post(end: nat, body: Slice, ghost b: M.Batch, ghost path: M.Path) returns (outcome: M.Outcome)
      requires Valid() && body.Valid() && body.Contents() == b.body
      modifies outside, `model
      ensures Valid()
      ensures (outcome, model) == M.Post(outside.world, end, old(model), b, path)
    {
      ghost var next := M.Post(outside.world, end, model, b, path);
      if body.len == 0 {
        outcome := M.Delivered;
      } else {
        outcome := outside.Request(end);
      }
      model := next.1;
    }

    method Wait(end: nat, d: nat) returns (slept: bool)
      requires Valid()
      modifies outside, `model
      ensures Valid()
      ensures (slept, model) == M.Sleep(outside.world, end, old(model), d)
    {
      slept := outside.Sleep(end, d);
      model := M.Sleep(outside.world, end, model, d).1;
    }

    /** Time that passes between two calls. */
    method Elapse(d: nat)
      requires Valid()
      modifies outside, `model
      ensures Valid() && model == M.Later(old(model), d)
    {
      outside.Pass(d);
      model := M.Later(model, d);
    }

    method CountFailure()
      requires Valid()
      modifies `stats, `model
      ensures Valid() && model == M.CountFailure(old(model))
    {
      stats := stats.(failures := stats.failures + 1);
      model := M.CountFailure(model);
    }

    method CountDrop()
      requires Valid()
      modifies `stats, `model
      ensures Valid() && model == M.CountDrop(old(model))
    {
      stats := stats.(dropped := stats.dropped + 1);
      model := M.CountDrop(model);
    }

    method CountDelivery(points: int, size: nat, ghost b: M.Batch)
      requires Valid() && b.points == points && |b.body| == size
      modifies `stats, `model
      ensures Valid() && model == M.CountDelivery(old(model), b)
    {
      stats := stats.(batches := stats.batches + 1, points := stats.points + points, bytes := stats.bytes + size);
      model := M.CountDelivery(model, b);
    }

    method FlushPending(end: nat)
      requires Valid()
      modifies this, outside
      ensures Valid() && Cells() <= old(Cells())
      ensures model == M.FlushPending(outside.world, end, old(model))
    {
      while |pending| > 0
        invariant Valid() && Cells() <= old(Cells())
        invariant M.FlushPending(outside.world, end, model) == M.FlushPending(outside.world, end, old(model))
        decreases |pending|
      {
        if outside.now >= end {
          return;
        }
        var outcome := FlushOldest(end);
        if outcome.Transient? {
          return;
        }
      }
    }

    /** One turn of the flush loop. */
    method FlushOldest(end: nat) returns (outcome: M.Outcome)
      requires Valid() && pending != []
      modifies this, outside
      ensures Valid()
      ensures pending == if outcome.Transient? then old(pending) else old(pending)[1..]
      ensures (outcome, model) == M.FlushOldest(outside.world, end, old(model))
    {
      var h := pending[0];
      outcome := Post(end, Slice(h.cells, h.cells.Length), model.pending[0], M.Flush);
      SettleOldest(outcome);
    }

    method SettleOldest(outcome: M.Outcome)
      requires Valid() && pending != []
      modifies `pending, `stats, `model
      ensures Valid()
      ensures pending == if outcome.Transient? then old(pending) else old(pending)[1..]
      ensures model == M.SettleOldest(outcome, old(model))
    {
      var h := pending[0];
      ghost var b := model.pending[0];
      if !outcome.Delivered? {
        CountFailure();
        if outcome.Rejected? {
          DropOldest();
          stats := stats.(rejectedDropped := stats.rejectedDropped + 1);
          model := model.(stats := stats);
        }
        return;
      }
      DropOldest();
      CountDelivery(h.points, h.cells.Length, b);
      stats := stats.(retried := stats.retried + 1);
      model := model.(stats := stats);
    }

    method DropOldest()
      requires Valid() && pending != []
      modifies `pending, `model
      ensures Valid() && pending == old(pending)[1..]
      ensures model == old(model).(pending := old(model).pending[1..])
    {
      pending := pending[1..];
      model := model.(pending := model.pending[1..]);
    }

    method SendWithRetry(end: nat, body: Slice, ghost b: M.Batch) returns (sent: bool)
      requires Valid() && body.Valid() && body.Contents() == b.body
      modifies outside, `model, `stats
      ensures Valid()
      ensures (sent, model) == M.PostLadder(outside.world, end, old(model), b, M.Try, M.BACKOFF)
    {
      var backoff := M.BACKOFF;
      var attempt := 0;
      while true
        invariant 0 <= attempt <= |backoff| && Valid()
        invariant M.PostLadder(outside.world, end, model, b, M.Try, backoff[attempt..])
               == M.PostLadder(outside.world, end, old(model), b, M.Try, backoff)
        decreases |backoff| - attempt
      {
        var outcome := Post(end, body, b, M.Try);
        if outcome.Delivered? {
          return true;
        }
        CountFailure();
        if attempt >= |backoff| || outcome.Rejected? {
          return false;
        }
        var slept := Wait(end, backoff[attempt]);
        if !slept {
          return false;
        }
        attempt := attempt + 1;
      }
    }

    /** Keeps a dropped batch. The oldest batch leaves when the buffer is full. */
    method Buffer(h: Held, ghost b: M.Batch)
      requires Valid() && h.cells[..] == b.body && h.points == b.points && h.cells !in Cells()
      modifies `pending, `model
      ensures Valid() && Cells() <= old(Cells()) + {h.cells}
      ensures model == M.Buffer(old(model), b)
    {
      pending := pending + [h];
      model := model.(log := model.log + [M.Buffered(b)], pending := model.pending + [b]);
      while |pending| > M.MAX_BUFFERED
        invariant Valid() && Cells() <= old(Cells()) + {h.cells}
        invariant M.Evict(model) == M.Buffer(old(model), b)
      {
        pending := pending[1..];
        model := model.(log := model.log + [M.Evicted(model.pending[0])], pending := model.pending[1..]);
      }
    }

    /** Delivers one batch, buffered ones first. The body is copied, so that what is kept does not
        change when the cells of the slice do. */
    method Send(parentEnd: nat, body: Slice, points: int) returns (failed: bool)
      requires Valid() && body.Valid()
      modifies this, outside
      ensures Valid() && fresh(Cells() - old(Cells()))
      ensures (failed, model) == M.Send(outside.world, parentEnd, old(model), old(body.Contents()), points)
    {
      ghost var text := body.Contents();
      if body.len == 0 && |pending| == 0 {
        return false;
      }
      failed := SendBy(M.Min(parentEnd, outside.now + M.SEND_DEADLINE), body, points, text);
    }

    method SendBy(end: nat, body: Slice, points: int, ghost text: Text) returns (failed: bool)
      requires Valid() && body.Valid() && text == body.Contents()
      modifies this, outside
      ensures Valid() && fresh(Cells() - old(Cells()))
      ensures (failed, model) == M.SendBy(outside.world, end, old(model), text, points)
    {
      FlushPending(end);
      failed := SendBody(end, body, points, text);
    }

    method SendBody(end: nat, body: Slice, points: int, ghost text: Text) returns (failed: bool)
      requires Valid() && body.Valid() && text == body.Contents()
      modifies this, outside
      ensures Valid() && fresh(Cells() - old(Cells()))
      ensures (failed, model) == M.SendBody(outside.world, end, old(model), text, points)
    {
      if body.len == 0 {
        return false;
      }
      var copy := Copy(body);
      failed := SendNew(end, copy, points, M.Batch(model.next, copy[..], points));
    }

    method SendNew(end: nat, copy: array<byte>, points: int, ghost b: M.Batch) returns (failed: bool)
      requires Valid() && b == M.Batch(model.next, copy[..], points) && copy !in Cells()
      modifies this, outside
      ensures Valid() && Cells() <= old(Cells()) + {copy}
      ensures (failed, model) == M.SendNew(outside.world, end, old(model), b)
    {
      var sent := TryNew(end, copy, b);
      failed := Settle(sent, copy, points, b);
    }

    method TryNew(end: nat, copy: array<byte>, ghost b: M.Batch) returns (sent: bool)
      requires Valid() && copy[..] == b.body
      modifies outside, `model, `stats
      ensures Valid()
      ensures (sent, model) == M.TryNew(outside.world, end, old(model), b)
    {
      model := model.(next := model.next + 1);
      sent := SendWithRetry(end, Slice(copy, copy.Length), b);
    }

    method Settle(sent: bool, copy: array<byte>, points: int, ghost b: M.Batch) returns (failed: bool)
      requires Valid() && copy[..] == b.body && points == b.points && copy !in Cells()
      modifies `pending, `model, `stats
      ensures Valid() && Cells() <= old(Cells()) + {copy}
      ensures (failed, model) == M.Settle(sent, old(model), b)
    {
      failed := !sent;
      if sent {
        CountDelivery(points, copy.Length, b);
      } else {
        CountDrop();
        Buffer(Held(copy, points), b);
      }
    }

    /** The final push: a few quick attempts and no buffering. */
    method SendOnce(end: nat, body: Slice, points: int) returns (failed: bool)
      requires Valid() && body.Valid()
      modifies this, outside
      ensures Valid() && pending == old(pending)
      ensures (failed, model) == M.SendOnce(outside.world, end, old(model), old(body.Contents()), points)
    {
      ghost var b := M.Batch(model.next, body.Contents(), points);
      var sent := TryOnce(end, body, b);
      failed := SettleOnce(sent, points, body.len, b);
    }

    method TryOnce(end: nat, body: Slice, ghost b: M.Batch) returns (sent: bool)
      requires Valid() && body.Valid() && body.Contents() == b.body
      modifies outside, `model, `stats
      ensures Valid()
      ensures (sent, model) == M.TryOnce(outside.world, end, old(model), b)
    {
      model := model.(next := model.next + 1);
      sent := OnceAttempts(end, body, b, M.ONCE_DELAYS);
    }

    method OnceAttempts(end: nat, body: Slice, ghost b: M.Batch, ghost delays: seq<nat>) returns (sent: bool)
      requires Valid() && body.Valid() && body.Contents() == b.body
      requires |delays| == M.ONCE_RETRIES && forall i | 0 <= i < |delays| :: delays[i] == M.ONCE_RETRY_DELAY
      modifies outside, `model, `stats
      ensures Valid()
      ensures (sent, model) == M.PostLadder(outside.world, end, old(model), b, M.Once, delays)
    {
      var attempt := 0;
      while attempt <= M.ONCE_RETRIES
        invariant 0 <= attempt <= |delays| && Valid()
        invariant M.PostLadder(outside.world, end, model, b, M.Once, delays[attempt..])
               == M.PostLadder(outside.world, end, old(model), b, M.Once, delays)
        decreases |delays| - attempt
      {
        ghost var left := delays[attempt..];
        assert left != [] ==> left[0] == M.ONCE_RETRY_DELAY && left[1..] == delays[attempt + 1..];
        var outcome := Post(end, body, b, M.Once);
        if outcome.Delivered? {
          return true;
        }
        CountFailure();
        if attempt == M.ONCE_RETRIES || outcome.Rejected? {
          return false;
        }
        var slept := Wait(end, M.ONCE_RETRY_DELAY);
        if !slept {
          return false;
        }
        attempt := attempt + 1;
      }
      assert false;
    }

    method SettleOnce(sent: bool, points: int, size: nat, ghost b: M.Batch) returns (failed: bool)
      requires Valid() && b.points == points && |b.body| == size
      modifies `stats, `model
      ensures Valid() && (failed, model) == M.SettleOnce(sent, old(model), b)
    {
      failed := !sent;
      if sent {
        CountDelivery(points, size, b);
      }
    }
  }
}

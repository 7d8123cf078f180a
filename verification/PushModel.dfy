/** What the pusher does, step by step, against an endpoint and a clock that may behave in any
    way: the specification that the Pusher class meets, and the record it leaves. */
module PushModel {
  import opened Bytes

  // Durations are in nanoseconds.
  const SECOND := 1_000_000_000
  const REQUEST_TIMEOUT := 10 * SECOND
  const SEND_DEADLINE := 12 * SECOND
  const ONCE_RETRY_DELAY := SECOND / 2
  const ONCE_RETRIES := 2
  const MAX_BUFFERED := 4

  /** The delays before the second, third and fourth attempt of Send. */
  const BACKOFF: seq<nat> := [SECOND / 2, SECOND, 2 * SECOND]

  /** The delays before the further attempts of SendOnce. */
  const ONCE_DELAYS: seq<nat> := [ONCE_RETRY_DELAY, ONCE_RETRY_DELAY]

  /** One HTTP attempt that is not cut off: a status code, or a transport error. */
  datatype Reply = Status(code: int) | TransportError

  datatype Outcome = Delivered | Transient | Rejected

  /** post and retryable together. */
  function Judge(r: Reply): Outcome {
    match r
    case TransportError => Transient
    case Status(code) =>
      if 200 <= code < 300 then Delivered
      else if code == 408 || code == 429 then Transient
      else if code < 400 || code >= 500 then Transient
      else Rejected
  }

  /** The outside world, by query number: what the endpoint would answer and after how long, and
      who wins when a sleep and a deadline end at the same instant. */
  datatype World = World(reply: nat -> Reply, took: nat -> nat, timerFirst: nat -> bool)

  datatype Batch = Batch(id: nat, body: Text, points: int)

  datatype Path = Flush | Try | Once

  datatype Event =
    | Posted(batch: Batch, path: Path, outcome: Outcome)
    | Buffered(batch: Batch)
    | Evicted(batch: Batch)

  datatype Stats = Stats(batches: int, points: int, bytes: int, failures: int, dropped: int,
                         retried: int, rejectedDropped: int)
  {
    function Plus(t: Stats): Stats {
      Stats(batches + t.batches, points + t.points, bytes + t.bytes, failures + t.failures,
            dropped + t.dropped, retried + t.retried, rejectedDropped + t.rejectedDropped)
    }
  }

  const NO_STATS := Stats(0, 0, 0, 0, 0, 0, 0)

  /** The queue and the counters; the record of what happened; the next batch number; the clock
      and the number of queries made so far. */
  datatype State = State(pending: seq<Batch>, stats: Stats, log: seq<Event>, next: nat, now: nat, queries: nat)

  const INITIAL := State([], NO_STATS, [], 0, 0, 0)

  function Min(a: nat, b: nat): nat { if a < b then a else b }

  function Max(a: nat, b: nat): nat { if a < b then b else a }

  // ---- the outside ----

  /** One request under a context that ends at `end`. */
  function Request(w: World, end: nat, now: nat, query: nat): (Outcome, nat) {
    var limit := Min(now + REQUEST_TIMEOUT, end);
    if now < end && now + w.took(query) <= limit then (Judge(w.reply(query)), now + w.took(query))
    else (Transient, Max(now, limit))
  }

  function Post(w: World, end: nat, s: State, b: Batch, path: Path): (Outcome, State) {
    if b.body == [] then (Delivered, s.(log := s.log + [Posted(b, path, Delivered)]))
    else
      var (outcome, now) := Request(w, end, s.now, s.queries);
      (outcome, s.(log := s.log + [Posted(b, path, outcome)], now := now, queries := s.queries + 1))
  }

  /** Sleeps under a context. The first result is false when the context ends first. */
  function Sleep(w: World, end: nat, s: State, d: nat): (bool, State) {
    var slept := s.now + d < end || (s.now + d == end && w.timerFirst(s.queries));
    (slept, s.(now := if slept then s.now + d else Max(s.now, end), queries := s.queries + 1))
  }

  // ---- the operations ----

  function CountFailure(s: State): State {
    s.(stats := s.stats.(failures := s.stats.failures + 1))
  }

  function CountDrop(s: State): State {
    s.(stats := s.stats.(dropped := s.stats.dropped + 1))
  }

  function CountDelivery(s: State, b: Batch): State {
    s.(stats := s.stats.(batches := s.stats.batches + 1, points := s.stats.points + b.points,
                         bytes := s.stats.bytes + |b.body|))
  }

  /** One turn of the flush loop: the oldest batch leaves unless it failed for now only. */
  function FlushOldest(w: World, end: nat, s: State): (r: (Outcome, State))
    requires s.pending != []
    ensures r.0.Transient? || r.1.pending == s.pending[1..]
  {
    var (outcome, s1) := Post(w, end, s, s.pending[0], Flush);
    (outcome, SettleOldest(outcome, s1))
  }

  /** The oldest batch after its post. */
  function SettleOldest(outcome: Outcome, s: State): (r: State)
    requires s.pending != []
    ensures outcome.Transient? || r.pending == s.pending[1..]
  {
    match outcome
    case Transient => CountFailure(s)
    case Rejected =>
      var s1 := CountFailure(s).(pending := s.pending[1..]);
      s1.(stats := s1.stats.(rejectedDropped := s1.stats.rejectedDropped + 1))
    case Delivered =>
      var s1 := CountDelivery(s, s.pending[0]).(pending := s.pending[1..]);
      s1.(stats := s1.stats.(retried := s1.stats.retried + 1))
  }

  function FlushPending(w: World, end: nat, s: State): State
    decreases |s.pending|
  {
    if s.pending == [] || s.now >= end then s
    else
      var (outcome, s1) := FlushOldest(w, end, s);
      if outcome.Transient? then s1 else FlushPending(w, end, s1)
  }

  /** Posts one batch, with a sleep from the ladder before each further attempt. The first result
      is true when the batch was delivered. */
  function PostLadder(w: World, end: nat, s: State, b: Batch, path: Path, ladder: seq<nat>): (bool, State)
    decreases |ladder|
  {
    var (outcome, s1) := Post(w, end, s, b, path);
    if outcome.Delivered? then (true, s1)
    else
      var s2 := CountFailure(s1);
      if ladder == [] || outcome.Rejected? then (false, s2)
      else
        var (slept, s3) := Sleep(w, end, s2, ladder[0]);
        if slept then PostLadder(w, end, s3, b, path, ladder[1..]) else (false, s3)
  }

  function Evict(s: State): State
    decreases |s.pending|
  {
    if |s.pending| > MAX_BUFFERED then
      Evict(s.(log := s.log + [Evicted(s.pending[0])], pending := s.pending[1..]))
    else s
  }

  function Buffer(s: State, b: Batch): State {
    Evict(s.(log := s.log + [Buffered(b)], pending := s.pending + [b]))
  }

  /** The part of Send after the flush, for a new batch. */
  function SendNew(w: World, end: nat, s: State, b: Batch): (bool, State) {
    var (sent, s1) := TryNew(w, end, s, b);
    Settle(sent, s1, b)
  }

  function TryNew(w: World, end: nat, s: State, b: Batch): (bool, State) {
    PostLadder(w, end, s.(next := s.next + 1), b, Try, BACKOFF)
  }

  /** A batch that was tried is counted, or counted as dropped and kept. */
  function Settle(sent: bool, s: State, b: Batch): (bool, State) {
    if sent then (false, CountDelivery(s, b)) else (true, Buffer(CountDrop(s), b))
  }

  function SendEnd(parentEnd: nat, s: State): nat { Min(parentEnd, s.now + SEND_DEADLINE) }

  /** The first result is true when Send returns an error. */
  function Send(w: World, parentEnd: nat, s: State, body: Text, points: int): (bool, State) {
    if body == [] && s.pending == [] then (false, s)
    else SendBy(w, SendEnd(parentEnd, s), s, body, points)
  }

  function SendBy(w: World, end: nat, s: State, body: Text, points: int): (bool, State) {
    SendBody(w, end, FlushPending(w, end, s), body, points)
  }

  function SendBody(w: World, end: nat, s: State, body: Text, points: int): (bool, State) {
    if body == [] then (false, s) else SendNew(w, end, s, Batch(s.next, body, points))
  }

  /** The first result is true when SendOnce returns an error. */
  function SendOnce(w: World, end: nat, s: State, body: Text, points: int): (bool, State) {
    var b := Batch(s.next, body, points);
    var (sent, s1) := TryOnce(w, end, s, b);
    SettleOnce(sent, s1, b)
  }

  function TryOnce(w: World, end: nat, s: State, b: Batch): (bool, State) {
    PostLadder(w, end, s.(next := s.next + 1), b, Once, ONCE_DELAYS)
  }

  function SettleOnce(sent: bool, s: State, b: Batch): (bool, State) {
    if sent then (false, CountDelivery(s, b)) else (true, s)
  }

  // ---- runs ----

  /** A call on the pusher: what it waits before, when its context ends, and its arguments. */
  datatype Call =
    | CallSend(wait: nat, end: nat, body: Text, points: int)
    | CallFlush(wait: nat, end: nat)
    | CallOnce(wait: nat, end: nat, body: Text, points: int)

  function Later(s: State, wait: nat): State { s.(now := s.now + wait) }

  function DoAwake(w: World, s: State, c: Call): State {
    match c
    case CallSend(_, end, body, points) => Send(w, end, s, body, points).1
    case CallFlush(_, end) => FlushPending(w, end, s)
    case CallOnce(_, end, body, points) => SendOnce(w, end, s, body, points).1
  }

  function Do(w: World, s: State, c: Call): State {
    DoAwake(w, Later(s, c.wait), c)
  }

  function Run(w: World, s: State, calls: seq<Call>): State
    decreases |calls|
  {
    if calls == [] then s else Run(w, Do(w, s, calls[0]), calls[1..])
  }

  // ---- reading the record ----

  /** What one event adds to the counters, by their meaning. */
  function Worth(e: Event): Stats {
    match e
    case Buffered(_) => NO_STATS.(dropped := 1)
    case Evicted(_) => NO_STATS
    case Posted(b, path, outcome) =>
      if outcome.Delivered? then
        NO_STATS.(batches := 1, points := b.points, bytes := |b.body|, retried := if path.Flush? then 1 else 0)
      else
        NO_STATS.(failures := 1, rejectedDropped := if path.Flush? && outcome.Rejected? then 1 else 0)
  }

  function Tally(log: seq<Event>): Stats {
    if log == [] then NO_STATS else Tally(log[..|log| - 1]).Plus(Worth(log[|log| - 1]))
  }

  /** The batches ever put into the buffer, in order. */
  function EverBuffered(log: seq<Event>): seq<Batch> {
    if log == [] then []
    else EverBuffered(log[..|log| - 1]) + if log[|log| - 1].Buffered? then [log[|log| - 1].batch] else []
  }

  function Evictions(log: seq<Event>): nat {
    if log == [] then 0
    else Evictions(log[..|log| - 1]) + if log[|log| - 1].Evicted? then 1 else 0
  }

  /** The requests made: an empty body is never posted. */
  function Requests(log: seq<Event>): nat {
    if log == [] then 0
    else Requests(log[..|log| - 1])
         + if log[|log| - 1].Posted? && log[|log| - 1].batch.body != [] then 1 else 0
  }

  predicate IsAck(e: Event) { e.Posted? && e.outcome.Delivered? }

  predicate IsRejection(e: Event) { e.Posted? && e.outcome.Rejected? }

  /** After this event its batch is in nobody's hands: it was acknowledged, evicted, or rejected for
      good with no buffer to go to. */
  predicate IsFinal(e: Event) { IsAck(e) || e.Evicted? || (IsRejection(e) && !e.path.Try?) }

  predicate IsFlushAck(e: Event) { IsAck(e) && e.path.Flush? }
}

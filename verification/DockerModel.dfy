/** One collection cycle of the container client: what each goroutine does, and every way the
    goroutines can interleave under the semaphore. */
module DockerModel {
  import opened Wrappers
  import opened Bytes
  import Cpu

  const MAX_PLAUSIBLE_MEMORY := 0x100_0000_0000

  datatype Container = Container(id: Text, name: Text, created: int, running: bool)

  /** The previous CPU reading of a container. `seen` is in nanoseconds. */
  datatype CpuSample = CpuSample(total: nat, system: nat, seen: int)

  /** The answer of the stats endpoint, and the time it was read. */
  datatype StatsReply = StatsReply(
    total: nat, system: nat, onlineCpus: nat, perCpu: nat, seen: int,
    usage: nat, limit: nat, inactiveFile: Option<nat>, totalInactiveFile: Option<nat>, cache: Option<nat>)

  /** The last restart count read for a running container. */
  datatype RestartSample = RestartSample(count: int, cycle: int, have: bool)

  datatype Sample = Sample(container: Container, running: bool, cpuPercent: real, memUsed: nat, memLimit: nat,
                           memPercent: real, memUsedOk: bool, restarts: Option<int>)

  /** The zero value of a result cell. */
  const ZERO_SAMPLE := Sample(Container([], [], 0, false), false, 0.0, 0, 0, 0.0, false, None)

  // ---- the arithmetic of one stats reply ----

  function Cores(r: StatsReply): (n: nat)
    ensures n >= 1
    ensures r.onlineCpus > 0 ==> n == r.onlineCpus
    ensures r.onlineCpus == 0 && r.perCpu > 0 ==> n == r.perCpu
    ensures r.onlineCpus == 0 && r.perCpu == 0 ==> n == 1
  {
    if r.onlineCpus != 0 then r.onlineCpus else if r.perCpu != 0 then r.perCpu else 1
  }

  function ClampPercent(v: real, cores: nat): real {
    var max := cores as real * 100.0;
    if v < 0.0 then 0.0 else if v > max then max else Cpu.Round2(v)
  }

  /** The difference of two unsigned 64-bit counters, which wraps around below zero. */
  function Delta(now: nat, prev: nat): int {
    if now >= prev then now - prev else now - prev + 0x1_0000_0000_0000_0000
  }

  function HostShare(used: real, host: real, cores: nat): real
    requires host > 0.0
  {
    used / host * cores as real * 100.0
  }

  function WallShare(used: real, wall: real): real
    requires wall > 0.0
  {
    used / wall * 100.0
  }

  /** The share since the previous sample, of host CPU time or else of wall-clock time. It is
      missing on a first sample, a counter reset, and a clock that did not advance. */
  function RawCpu(r: StatsReply, prev: Option<CpuSample>): Option<real> {
    if prev.None? || r.total < prev.value.total then None
    else
      var used := Delta(r.total, prev.value.total) as real;
      if r.system > prev.value.system then
        Some(HostShare(used, (r.system - prev.value.system) as real, Cores(r)))
      else if r.seen > prev.value.seen then
        Some(WallShare(used, (r.seen - prev.value.seen) as real))
      else None
  }

  function CpuPercent(r: StatsReply, prev: Option<CpuSample>): real {
    if RawCpu(r, prev).Some? then ClampPercent(RawCpu(r, prev).value, Cores(r)) else 0.0
  }

  /** The page cache that the runtime reports, under the first of its three names. */
  function PageCache(r: StatsReply): Option<nat> {
    if r.inactiveFile.Some? then r.inactiveFile
    else if r.totalInactiveFile.Some? then r.totalInactiveFile
    else r.cache
  }

  function UsedMemory(r: StatsReply): nat {
    if PageCache(r).Some? && PageCache(r).value <= r.usage then r.usage - PageCache(r).value else r.usage
  }

  function SampleOf(ct: Container, r: StatsReply, prev: Option<CpuSample>): Sample {
    var used := UsedMemory(r);
    var limit := if r.limit > MAX_PLAUSIBLE_MEMORY then 0 else r.limit;
    var ok := used <= MAX_PLAUSIBLE_MEMORY;
    var shown := if !ok then 0 else if limit > 0 && used > limit then limit else used;
    Sample(ct, true, CpuPercent(r, prev), shown, limit,
           if ok && limit > 0 then Cpu.Round2(shown as real / limit as real * 100.0) else 0.0, ok, None)
  }

  lemma ClampBounds(v: real, cores: nat)
    ensures 0.0 <= ClampPercent(v, cores) <= cores as real * 100.0
  {
    var max := cores as real * 100.0;
    if 0.0 <= v <= max {
      var n := (v * 100.0 + 0.5).Floor;
      assert n as real <= v * 100.0 + 0.5;
      assert n <= cores * 10000 by {
        assert n as real < (cores * 10000 + 1) as real;
      }
    }
  }

  /** For every reply and every previous sample, the CPU share is between zero and the core count
      times 100. */
  lemma CpuInRange(r: StatsReply, prev: Option<CpuSample>)
    ensures 0.0 <= CpuPercent(r, prev) <= Cores(r) as real * 100.0
  {
    if RawCpu(r, prev).Some? {
      ClampBounds(RawCpu(r, prev).value, Cores(r));
    }
  }

  lemma ShareInRange(part: nat, whole: nat)
    requires part <= whole && whole > 0
    ensures 0.0 <= Cpu.Round2(part as real / whole as real * 100.0) <= 100.0
  {
    var share := part as real / whole as real;
    assert 0.0 <= share <= 1.0;
    Cpu.ClampIsPercent(share * 100.0);
  }

  /** Memory stays under the plausible maximum and under a known limit; a reading above the
      maximum, and only that, gives no memory value. */
  lemma MemoryInRange(ct: Container, r: StatsReply, prev: Option<CpuSample>)
    ensures var s := SampleOf(ct, r, prev);
            && s.memUsed <= 0x100_0000_0000 && s.memLimit <= 0x100_0000_0000
            && (s.memUsedOk <==> UsedMemory(r) <= 0x100_0000_0000)
            && (!s.memUsedOk ==> s.memUsed == 0 && s.memPercent == 0.0)
            && (s.memLimit > 0 ==> s.memUsed <= s.memLimit)
            && 0.0 <= s.memPercent <= 100.0
  {
    var s := SampleOf(ct, r, prev);
    if s.memUsedOk && s.memLimit > 0 {
      ShareInRange(s.memUsed, s.memLimit);
    }
  }

  /** The percentage times the whole is the part, up to the rounding; and a part that is more than
      all cores could give shows as all cores. */
  predicate Shows(percent: real, part: real, whole: real, cores: nat) {
    if part <= cores as real * whole then Cpu.Measures(percent, part, whole) else percent == cores as real * 100.0
  }

  lemma Cancel(v: real, m: real, whole: real)
    requires whole > 0.0
    ensures v * whole <= m * whole <==> v <= m
  {
    if v <= m {
      assert (m - v) * whole >= 0.0;
    } else {
      assert (v - m) * whole > 0.0;
    }
  }

  lemma CapOfPart(v: real, part: real, whole: real, n: real)
    requires whole > 0.0 && v * whole == part * 100.0
    ensures part <= n * whole <==> v <= n * 100.0
  {
    var m := n * 100.0;
    Cancel(v, m, whole);
    assert m * whole == n * whole * 100.0;
  }

  lemma RoundMeasures(v: real, part: real, whole: real)
    requires v >= 0.0 && whole > 0.0 && v * whole == part * 100.0
    ensures Cpu.Measures(Cpu.Round2(v), part, whole)
  {
    Cpu.RoundingIsNear(v);
    Cpu.ScaledNear(Cpu.Round2(v), v, whole, part * 100.0);
  }

  lemma ClampCases(v: real, cores: nat, percent: real)
    requires v >= 0.0 && percent == ClampPercent(v, cores)
    ensures percent == if v <= cores as real * 100.0 then Cpu.Round2(v) else cores as real * 100.0
  {
  }

  lemma ClampShows(v: real, part: real, whole: real, cores: nat, percent: real)
    requires v >= 0.0 && whole > 0.0 && v * whole == part * 100.0 && percent == ClampPercent(v, cores)
    ensures Shows(percent, part, whole, cores)
  {
    CapOfPart(v, part, whole, cores as real);
    RoundMeasures(v, part, whole);
    ClampCases(v, cores, percent);
  }

  lemma HostShareScales(used: real, host: real, cores: nat)
    requires used >= 0.0 && host > 0.0
    ensures HostShare(used, host, cores) >= 0.0
    ensures HostShare(used, host, cores) * host == used * cores as real * 100.0
  {
    var q, n := used / host, cores as real;
    assert q >= 0.0 && q * host == used;
    assert q * n >= 0.0;
    Swap(q, host, used, n);
  }

  lemma Swap(q: real, host: real, used: real, n: real)
    requires q * host == used
    ensures q * n * 100.0 * host == used * n * 100.0
  {
    assert q * n * host == (q * host) * n;
  }

  lemma WallShareScales(used: real, wall: real)
    requires used >= 0.0 && wall > 0.0
    ensures WallShare(used, wall) >= 0.0 && WallShare(used, wall) * wall == used * 100.0
  {
    Cpu.WholeShare(used, wall);
    assert used / wall >= 0.0;
  }

  lemma HostShows(used: real, host: real, cores: nat, percent: real, part: real)
    requires used >= 0.0 && host > 0.0 && percent == ClampPercent(HostShare(used, host, cores), cores)
    requires part == used * cores as real
    ensures Shows(percent, part, host, cores)
  {
    HostShareScales(used, host, cores);
    ClampShows(HostShare(used, host, cores), part, host, cores, percent);
  }

  lemma WallShows(used: real, wall: real, cores: nat, percent: real)
    requires used >= 0.0 && wall > 0.0 && percent == ClampPercent(WallShare(used, wall), cores)
    ensures Shows(percent, used, wall, cores)
  {
    WallShareScales(used, wall);
    ClampShows(WallShare(used, wall), used, wall, cores, percent);
  }

  lemma CpuFromHost(r: StatsReply, prev: CpuSample, used: real, host: real)
    requires prev.total <= r.total && prev.system < r.system
    requires used == (r.total - prev.total) as real && host == (r.system - prev.system) as real
    ensures used >= 0.0 && host > 0.0
    ensures CpuPercent(r, Some(prev)) == ClampPercent(HostShare(used, host, Cores(r)), Cores(r))
  {
  }

  lemma CpuFromWall(r: StatsReply, prev: CpuSample, used: real, wall: real)
    requires prev.total <= r.total && r.system <= prev.system && prev.seen < r.seen
    requires used == (r.total - prev.total) as real && wall == (r.seen - prev.seen) as real
    ensures used >= 0.0 && wall > 0.0
    ensures CpuPercent(r, Some(prev)) == ClampPercent(WallShare(used, wall), Cores(r))
  {
  }

  /** When the host counter advanced: the share times the time that passed on the host is the time
      that the container used on all cores. */
  lemma CpuMeasuresHost(r: StatsReply, prev: CpuSample) returns (percent: real, part: real, host: real)
    requires prev.total <= r.total && prev.system < r.system
    ensures percent == CpuPercent(r, Some(prev))
    ensures part == (r.total - prev.total) as real * Cores(r) as real && host == (r.system - prev.system) as real
    ensures Shows(percent, part, host, Cores(r))
  {
    var used := (r.total - prev.total) as real;
    part, host := used * Cores(r) as real, (r.system - prev.system) as real;
    percent := CpuPercent(r, Some(prev));
    CpuFromHost(r, prev, used, host);
    HostShows(used, host, Cores(r), percent, part);
  }

  /** Else, when the clock advanced: the share times the time that passed is the time that the
      container used. */
  lemma CpuMeasuresWall(r: StatsReply, prev: CpuSample) returns (percent: real, used: real, wall: real)
    requires prev.total <= r.total && r.system <= prev.system && prev.seen < r.seen
    ensures percent == CpuPercent(r, Some(prev))
    ensures used == (r.total - prev.total) as real && wall == (r.seen - prev.seen) as real
    ensures Shows(percent, used, wall, Cores(r))
  {
    used, wall := (r.total - prev.total) as real, (r.seen - prev.seen) as real;
    percent := CpuPercent(r, Some(prev));
    CpuFromWall(r, prev, used, wall);
    WallShows(used, wall, Cores(r), percent);
  }

  /** A first sample, a container counter that went back, and a host counter and a clock that both did
      not advance show zero. */
  lemma CpuShowsZero(r: StatsReply, prev: Option<CpuSample>)
    requires prev.None? || r.total < prev.value.total || (r.system <= prev.value.system && r.seen <= prev.value.seen)
    ensures CpuPercent(r, prev) == 0.0
  {
  }

  /** The page cache that the reply gives: the first of its three counters that is there. */
  predicate GivesCache(r: StatsReply, cache: nat) {
    || r.inactiveFile == Some(cache)
    || (r.inactiveFile.None? && r.totalInactiveFile == Some(cache))
    || (r.inactiveFile.None? && r.totalInactiveFile.None? && r.cache == Some(cache))
  }

  /** Memory, for every plausible reading. Without a plausible limit, the usage without its page cache
      is shown, and no percentage; within the limit also its share of the limit, up to the rounding;
      and above the limit, the limit and one hundred percent. */
  lemma MemoryMeasures(ct: Container, r: StatsReply, prev: Option<CpuSample>)
    requires UsedMemory(r) <= MAX_PLAUSIBLE_MEMORY
    ensures forall cache: nat | GivesCache(r, cache) ::
              UsedMemory(r) == if cache <= r.usage then r.usage - cache else r.usage
    ensures r.inactiveFile.None? && r.totalInactiveFile.None? && r.cache.None? ==> UsedMemory(r) == r.usage
    ensures var s := SampleOf(ct, r, prev);
            if r.limit == 0 || r.limit > MAX_PLAUSIBLE_MEMORY then
              s.memUsed == UsedMemory(r) && s.memLimit == 0 && s.memPercent == 0.0
            else if UsedMemory(r) <= r.limit then
              && s.memUsed == UsedMemory(r) && s.memLimit == r.limit
              && Cpu.Measures(s.memPercent, s.memUsed as real, s.memLimit as real)
            else
              s.memUsed == r.limit == s.memLimit && s.memPercent == 100.0
  {
    var used, limit := UsedMemory(r), r.limit;
    if 0 < limit <= MAX_PLAUSIBLE_MEMORY {
      PercentOfLimit(if used <= limit then used else limit, limit);
    }
  }

  lemma PercentOfLimit(used: nat, limit: nat)
    requires limit > 0
    ensures Cpu.Measures(Cpu.Round2(used as real / limit as real * 100.0), used as real, limit as real)
    ensures used == limit ==> Cpu.Round2(used as real / limit as real * 100.0) == 100.0
  {
    var u, l := used as real, limit as real;
    Cpu.WholeShare(u, l);
    assert u / l >= 0.0;
    RoundMeasures(u / l * 100.0, u, l);
    if used == limit {
      WholeRatio(l);
    }
  }

  lemma WholeRatio(l: real)
    requires l > 0.0
    ensures l / l == 1.0
  {
  }

  // ---- the maps ----

  function Lookup<V>(m: map<Text, V>, id: Text): Option<V> {
    if id in m then Some(m[id]) else None
  }

  /** putRestart on one entry: a failed call moves the cycle stamp only. */
  function PutRestart(entry: Option<RestartSample>, count: Option<int>, cycle: int): RestartSample {
    var r := if entry.Some? then entry.value else RestartSample(0, 0, false);
    if count.Some? then RestartSample(count.value, cycle, true) else r.(cycle := cycle)
  }

  /** getRestart on one entry. */
  function GetRestart(entry: Option<RestartSample>): Option<int> {
    if entry.Some? && entry.value.have then Some(entry.value.count) else None
  }

  // ---- the goroutines ----

  datatype StoppedReply = InspectFailed | TooOld | Recent(running: bool, count: int)

  /** One goroutine, with the answers that the runtime gives it. */
  datatype Task =
    | RunningTask(ct: Container, stats: Option<StatsReply>, due: bool, inspect: Option<int>)
    | StoppedTask(ct: Container, reply: StoppedReply)

  datatype Error = NoError | Skipped | Failure

  /** Where a goroutine is: before the semaphore; inside it; after the locked part of stats; after
      putRestart or without need of it; with its result ready; before the release; gone. */
  datatype Pc = Outside | Inside | Sampled(s: Sample) | Noted(s: Sample) | Ready(s: Sample) | Leaving | Gone

  predicate Holds(pc: Pc) { !pc.Outside? && !pc.Gone? }

  /** The part of the state that one goroutine touches: its own place, the map entries of its own
      container, and its own result cells. */
  datatype Part = Part(pc: Pc, prev: Option<CpuSample>, restart: Option<RestartSample>, out: Sample, err: Error)

  /** One atomic step of a goroutine on its part. */
  function Move(t: Task, cycle: int, p: Part): Part {
    match p.pc
    case Outside => p.(pc := Inside)
    case Inside =>
      (match t
       case RunningTask(ct, stats, _, _) =>
         if stats.None? then p.(err := Failure, pc := Leaving)
         else
           var r := stats.value;
           p.(pc := Sampled(SampleOf(ct, r, p.prev)), prev := Some(CpuSample(r.total, r.system, r.seen)))
       case StoppedTask(ct, reply) =>
         (match reply
          case InspectFailed => p.(err := Failure, pc := Leaving)
          case TooOld => p.(err := Skipped, pc := Leaving)
          case Recent(running, count) =>
            p.(out := ZERO_SAMPLE.(container := ct, running := running, restarts := Some(count)), pc := Leaving)))
    case Sampled(s) =>
      if t.RunningTask? && t.due then p.(restart := Some(PutRestart(p.restart, t.inspect, cycle)), pc := Noted(s))
      else p.(pc := Noted(s))
    case Noted(s) => p.(pc := Ready(s.(restarts := GetRestart(p.restart))))
    case Ready(s) => p.(out := s, pc := Leaving)
    case Leaving => p.(pc := Gone)
    case Gone => p
  }

  function Rank(pc: Pc): nat {
    match pc
    case Outside => 6
    case Inside => 5
    case Sampled(_) => 4
    case Noted(_) => 3
    case Ready(_) => 2
    case Leaving => 1
    case Gone => 0
  }

  /** A goroutine run to its end, with nobody else. */
  function Alone(t: Task, cycle: int, p: Part): (r: Part)
    ensures r.pc.Gone?
    decreases Rank(p.pc)
  {
    if p.pc.Gone? then p else Alone(t, cycle, Move(t, cycle, p))
  }

  // ---- all of them ----

  datatype Fan = Fan(pcs: seq<Pc>, prev: map<Text, CpuSample>, restart: map<Text, RestartSample>,
                     out: seq<Sample>, errs: seq<Error>, held: int)

  ghost predicate Fits(tasks: seq<Task>, s: Fan) {
    |s.pcs| == |s.out| == |s.errs| == |tasks|
  }

  predicate DistinctIds(tasks: seq<Task>) {
    forall i, j | 0 <= i < j < |tasks| :: tasks[i].ct.id != tasks[j].ct.id
  }

  function PartOf(tasks: seq<Task>, s: Fan, i: nat): Part
    requires |s.pcs| == |s.out| == |s.errs| == |tasks| && i < |tasks|
  {
    var id := tasks[i].ct.id;
    Part(s.pcs[i], Lookup(s.prev, id), Lookup(s.restart, id), s.out[i], s.errs[i])
  }

  function Put<V>(m: map<Text, V>, id: Text, v: Option<V>): map<Text, V> {
    if v.Some? then m[id := v.value] else m - {id}
  }

  /** Goroutine i makes a step. The semaphore counts those that hold it. */
  function Step(tasks: seq<Task>, cycle: int, s: Fan, i: nat): Fan
    requires |s.pcs| == |s.out| == |s.errs| == |tasks| && i < |tasks|
  {
    var id := tasks[i].ct.id;
    var p := Move(tasks[i], cycle, PartOf(tasks, s, i));
    Fan(s.pcs[i := p.pc], Put(s.prev, id, p.prev), Put(s.restart, id, p.restart), s.out[i := p.out], s.errs[i := p.err],
        if s.pcs[i].Outside? then s.held + 1 else if s.pcs[i].Leaving? then s.held - 1 else s.held)
  }

  /** A goroutine waits only for a place in the semaphore. */
  predicate Enabled(s: Fan, batch: nat, i: nat) {
    i < |s.pcs| && !s.pcs[i].Gone? && (s.pcs[i].Outside? ==> s.held < batch)
  }

  predicate AllGone(s: Fan) { forall i | 0 <= i < |s.pcs| :: s.pcs[i].Gone? }

  function Holders(pcs: seq<Pc>): nat {
    if pcs == [] then 0 else (if Holds(pcs[0]) then 1 else 0) + Holders(pcs[1..])
  }

  function TotalRank(pcs: seq<Pc>): nat {
    if pcs == [] then 0 else Rank(pcs[0]) + TotalRank(pcs[1..])
  }

  ghost predicate Inv(tasks: seq<Task>, batch: nat, s: Fan) {
    Fits(tasks, s) && s.held == Holders(s.pcs) <= batch
  }

  /** What two states of one cycle have in common at any two moments: every goroutine has the same
      end before it, and nobody touched the other entries. */
  ghost predicate SameEnd(tasks: seq<Task>, cycle: int, s: Fan, s': Fan)
    requires Fits(tasks, s) && Fits(tasks, s')
  {
    && (forall i | 0 <= i < |tasks| ::
          Alone(tasks[i], cycle, PartOf(tasks, s, i)) == Alone(tasks[i], cycle, PartOf(tasks, s', i)))
    && (forall id | forall i | 0 <= i < |tasks| :: tasks[i].ct.id != id ::
          Lookup(s.prev, id) == Lookup(s'.prev, id) && Lookup(s.restart, id) == Lookup(s'.restart, id))
  }
}

/** The CPU percentages between two samples, over the reals. */
module Cpu {

  datatype Times = Times(user: real, system: real, nice: real, iowait: real, irq: real, softirq: real,
                         steal: real, idle: real)

  datatype Percents = Percents(usage: real, user: real, system: real, iowait: real, steal: real, idle: real)

  function Busy(t: Times): real {
    t.user + t.system + t.nice + t.iowait + t.irq + t.softirq + t.steal
  }

  function Total(t: Times): real { Busy(t) + t.idle }

  /** Rounds half up to two decimals, which is what math.Round does on what is not negative. */
  function Round2(v: real): real
    requires v >= 0.0
  {
    (v * 100.0 + 0.5).Floor as real / 100.0
  }

  function ClampPercent(v: real): real {
    if v < 0.0 then 0.0 else if v > 100.0 then 100.0 else Round2(v)
  }

  function Share(part: real, total: real): real
    requires total > 0.0
  {
    ClampPercent(part / total * 100.0)
  }

  const STILL := Percents(0.0, 0.0, 0.0, 0.0, 0.0, 0.0)

  /** The percentages of one cycle. A total that did not advance reports no movement. */
  function PercentsOf(now: Times, prev: Times): Percents {
    var total := Total(now) - Total(prev);
    if total <= 0.0 then STILL
    else Percents(
           Share(Busy(now) - Busy(prev), total),
           Share((now.user + now.nice) - (prev.user + prev.nice), total),
           Share((now.system + now.irq + now.softirq) - (prev.system + prev.irq + prev.softirq), total),
           Share(now.iowait - prev.iowait, total),
           Share(now.steal - prev.steal, total),
           Share(now.idle - prev.idle, total))
  }

  predicate IsPercent(v: real) { 0.0 <= v <= 100.0 }

  predicate Near(a: real, b: real, eps: real) { -eps <= a - b <= eps }

  /** No counter went backwards. */
  predicate Forward(prev: Times, now: Times) {
    && prev.user <= now.user && prev.system <= now.system && prev.nice <= now.nice && prev.iowait <= now.iowait
    && prev.irq <= now.irq && prev.softirq <= now.softirq && prev.steal <= now.steal && prev.idle <= now.idle
  }

  lemma RoundingIsNear(v: real)
    requires v >= 0.0
    ensures Near(Round2(v), v, 0.005)
  {
    var n := (v * 100.0 + 0.5).Floor;
    assert n as real <= v * 100.0 + 0.5 < n as real + 1.0;
  }

  lemma ClampIsPercent(v: real)
    ensures IsPercent(ClampPercent(v))
    ensures IsPercent(v) ==> Near(ClampPercent(v), v, 0.005)
  {
    if IsPercent(v) {
      var n := (v * 100.0 + 0.5).Floor;
      assert n as real <= v * 100.0 + 0.5 < n as real + 1.0;
      assert n <= 10000;
    }
  }

  lemma ShareIsNear(part: real, total: real)
    requires total > 0.0 && 0.0 <= part <= total
    ensures IsPercent(part / total * 100.0)
    ensures Near(Share(part, total), part / total * 100.0, 0.005)
  {
    assert part / total <= 1.0;
    ClampIsPercent(part / total * 100.0);
  }

  lemma SharesAdd(a: real, b: real, total: real)
    requires total > 0.0
    ensures (a + b) / total * 100.0 == a / total * 100.0 + b / total * 100.0
  {
  }

  /** Every percentage is one, for any two samples. */
  lemma PercentsInRange(now: Times, prev: Times)
    ensures var p := PercentsOf(now, prev);
            && IsPercent(p.usage) && IsPercent(p.user) && IsPercent(p.system)
            && IsPercent(p.iowait) && IsPercent(p.steal) && IsPercent(p.idle)
  {
    var total := Total(now) - Total(prev);
    if total > 0.0 {
      ClampIsPercent((Busy(now) - Busy(prev)) / total * 100.0);
      ClampIsPercent(((now.user + now.nice) - (prev.user + prev.nice)) / total * 100.0);
      ClampIsPercent(((now.system + now.irq + now.softirq) - (prev.system + prev.irq + prev.softirq)) / total * 100.0);
      ClampIsPercent((now.iowait - prev.iowait) / total * 100.0);
      ClampIsPercent((now.steal - prev.steal) / total * 100.0);
      ClampIsPercent((now.idle - prev.idle) / total * 100.0);
    }
  }

  /** The exact shares of five parts add up to the whole. */
  lemma ExactShares(a: real, b: real, c: real, d: real, e: real, total: real)
    requires total > 0.0 && total == a + b + c + d + e
    ensures a / total * 100.0 + b / total * 100.0 + c / total * 100.0 + d / total * 100.0
         == (a + b + c + d) / total * 100.0
    ensures (a + b + c + d) / total * 100.0 + e / total * 100.0 == 100.0
  {
    SharesAdd(a, b, total);
    SharesAdd(a + b, c, total);
    SharesAdd(a + b + c, d, total);
    SharesAdd(a + b + c + d, e, total);
    assert total / total == 1.0;
  }

  lemma RoundedShares(a: real, b: real, c: real, d: real, e: real, total: real)
    requires a >= 0.0 && b >= 0.0 && c >= 0.0 && d >= 0.0 && e >= 0.0
    requires total > 0.0 && total == a + b + c + d + e
    ensures var parts := Share(a, total) + Share(b, total) + Share(c, total) + Share(d, total);
            && Near(parts + Share(e, total), 100.0, 0.025)
            && Near(Share(a + b + c + d, total) + Share(e, total), 100.0, 0.01)
            && Near(Share(a + b + c + d, total), parts, 0.025)
  {
    ExactShares(a, b, c, d, e, total);
    ShareIsNear(a, total);
    ShareIsNear(b, total);
    ShareIsNear(c, total);
    ShareIsNear(d, total);
    ShareIsNear(e, total);
    ShareIsNear(a + b + c + d, total);
  }

  /** When no counter went backwards and the total advanced, the parts make up the whole, up to
      the rounding of each. */
  lemma PercentsAddUp(now: Times, prev: Times)
    requires Forward(prev, now) && Total(prev) < Total(now)
    ensures var p := PercentsOf(now, prev);
            && Near(p.user + p.system + p.iowait + p.steal + p.idle, 100.0, 0.025)
            && Near(p.usage + p.idle, 100.0, 0.01)
            && Near(p.usage, p.user + p.system + p.iowait + p.steal, 0.025)
  {
    var total := Total(now) - Total(prev);
    var user := (now.user + now.nice) - (prev.user + prev.nice);
    var system := (now.system + now.irq + now.softirq) - (prev.system + prev.irq + prev.softirq);
    var iowait, steal, idle := now.iowait - prev.iowait, now.steal - prev.steal, now.idle - prev.idle;
    assert Busy(now) - Busy(prev) == user + system + iowait + steal;
    RoundedShares(user, system, iowait, steal, idle, total);
  }

  /** A percentage times the whole is the part, up to the rounding. */
  predicate Measures(percent: real, part: real, total: real) {
    Near(percent * total, part * 100.0, 0.005 * total)
  }

  lemma ScaledNear(a: real, b: real, t: real, c: real)
    requires t > 0.0 && Near(a, b, 0.005) && b * t == c
    ensures Near(a * t, c, 0.005 * t)
  {
    assert (a - b) * t <= 0.005 * t;
    assert (b - a) * t <= 0.005 * t;
  }

  lemma Percent(q: real, t: real, part: real)
    requires q * t == part
    ensures q * 100.0 * t == part * 100.0
  {
  }

  lemma WholeShare(part: real, total: real)
    requires total > 0.0
    ensures part / total * 100.0 * total == part * 100.0
  {
    var q := part / total;
    assert q * total == part;
    Percent(q, total, part);
  }

  /** What a percentage shows of a part: nothing of one that went backwards, all of one that is more
      than the whole, and else the part up to the rounding. */
  predicate Shows(percent: real, part: real, total: real) {
    if part < 0.0 then percent == 0.0
    else if part > total then percent == 100.0
    else Measures(percent, part, total)
  }

  lemma ShareSign(part: real, total: real)
    requires total > 0.0
    ensures part / total * 100.0 < 0.0 <==> part < 0.0
    ensures part / total * 100.0 > 100.0 <==> part > total
  {
    var q := part / total;
    assert q * total == part;
    if q >= 0.0 {
      assert q * total >= 0.0;
    } else {
      assert q * total < 0.0;
    }
    if q > 1.0 {
      assert (q - 1.0) * total > 0.0;
    } else {
      assert (1.0 - q) * total >= 0.0;
    }
  }

  lemma ShareShows(part: real, total: real)
    requires total > 0.0
    ensures Shows(Share(part, total), part, total)
  {
    ShareSign(part, total);
    if 0.0 <= part <= total {
      ShareIsNear(part, total);
      WholeShare(part, total);
      ScaledNear(Share(part, total), part / total * 100.0, total, part * 100.0);
    }
  }

  /** The time of all eight counters. */
  function Elapsed(now: Times, prev: Times): real {
    (now.user - prev.user) + (now.system - prev.system) + (now.nice - prev.nice) + (now.iowait - prev.iowait)
    + (now.irq - prev.irq) + (now.softirq - prev.softirq) + (now.steal - prev.steal) + (now.idle - prev.idle)
  }

  /** For any two samples: when no time elapsed over all counters, every percentage is zero; else each
      one shows its own counters, nice time with user time, both interrupt times with system time, and
      as usage all but the idle time. */
  lemma PercentsMeasure(now: Times, prev: Times)
    ensures var p, total := PercentsOf(now, prev), Elapsed(now, prev);
            if total <= 0.0 then p == Percents(0.0, 0.0, 0.0, 0.0, 0.0, 0.0)
            else
              && Shows(p.user, (now.user - prev.user) + (now.nice - prev.nice), total)
              && Shows(p.system, (now.system - prev.system) + (now.irq - prev.irq) + (now.softirq - prev.softirq), total)
              && Shows(p.iowait, now.iowait - prev.iowait, total)
              && Shows(p.steal, now.steal - prev.steal, total)
              && Shows(p.idle, now.idle - prev.idle, total)
              && Shows(p.usage, total - (now.idle - prev.idle), total)
  {
    var total := Elapsed(now, prev);
    assert total == Total(now) - Total(prev);
    if total > 0.0 {
      ShareShows((now.user + now.nice) - (prev.user + prev.nice), total);
      ShareShows((now.system + now.irq + now.softirq) - (prev.system + prev.irq + prev.softirq), total);
      ShareShows(now.iowait - prev.iowait, total);
      ShareShows(now.steal - prev.steal, total);
      ShareShows(now.idle - prev.idle, total);
      ShareShows(Busy(now) - Busy(prev), total);
    }
  }
}

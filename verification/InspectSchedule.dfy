/** When a running container is inspected: over a stay of one container in the running list, with
    any outcome of its stats reads. */
module InspectSchedule {
  import opened Wrappers
  import opened DockerModel

  /** needsInspect on one entry. */
  predicate NeedsInspect(entry: Option<RestartSample>, cycle: int, every: nat, slot: nat)
    requires every > 0
  {
    entry.None? || (cycle - entry.value.cycle >= every && (cycle + slot) % every == 0)
  }

  /** What one cycle gives a running container: whether its stats read succeeds, and the answer of
      an inspect call if one is made. */
  datatype Day = Day(statsOk: bool, inspect: Option<int>)

  /** The entry of a running container after one cycle. */
  function NextEntry(entry: Option<RestartSample>, cycle: int, every: nat, slot: nat, day: Day): Option<RestartSample>
    requires every > 0
  {
    if day.statsOk && NeedsInspect(entry, cycle, every, slot) then Some(PutRestart(entry, day.inspect, cycle))
    else entry
  }

  /** A stay: the cycle before it, the entry at that time, and every day after it, by cycle. */
  datatype Stay = Stay(every: nat, slot: nat, start: int, entry: Option<RestartSample>, day: int -> Day)

  /** The stamp of an entry lies in the past. */
  ghost predicate Proper(s: Stay) {
    s.every > 0 && (s.entry.Some? ==> s.entry.value.cycle <= s.start)
  }

  function Entry(s: Stay, c: int): Option<RestartSample>
    requires s.every > 0
    decreases c - s.start
  {
    if c <= s.start then s.entry else NextEntry(Entry(s, c - 1), c, s.every, s.slot, s.day(c))
  }

  lemma EntryFollows(s: Stay, c: int, before: Option<RestartSample>, now: Option<RestartSample>, day: Day)
    requires s.every > 0 && c > s.start && day == s.day(c)
    requires before == Entry(s, c - 1)
    requires now == NextEntry(before, c, s.every, s.slot, day)
    ensures now == Entry(s, c)
  {
  }

  /** The container is inspected, and the entry stamped, in this cycle. */
  predicate Stamped(s: Stay, c: int)
    requires s.every > 0
  {
    c > s.start && s.day(c).statsOk && NeedsInspect(Entry(s, c - 1), c, s.every, s.slot)
  }

  lemma StampMeans(s: Stay, c: int, before: Option<RestartSample>, day: Day)
    requires s.every > 0 && c > s.start && day == s.day(c) && before == Entry(s, c - 1)
    ensures Stamped(s, c) <==> day.statsOk && NeedsInspect(before, c, s.every, s.slot)
  {
  }

  predicate SlotCycle(s: Stay, c: int)
    requires s.every > 0
  {
    (c + s.slot) % s.every == 0
  }

  // ---- arithmetic ----

  lemma AtLeastOne(d: int, n: nat)
    requires d >= 1
    ensures d * n >= n && (-d) * n == -(d * n)
  {
  }

  lemma ModUnique(x: int, n: nat, q: int, r: int)
    requires n > 0 && 0 <= r < n && x == q * n + r
    ensures x % n == r
  {
    var d := x / n - q;
    assert d * n == r - x % n by {
      assert x == (x / n) * n + x % n;
      assert (x / n) * n - q * n == d * n;
    }
    if d >= 1 {
      AtLeastOne(d, n);
    } else if d <= -1 {
      AtLeastOne(-d, n);
    }
  }

  lemma ModNext(x: int, n: nat)
    requires n > 0
    ensures (x + 1) % n == if x % n == n - 1 then 0 else x % n + 1
  {
    var q, r := x / n, x % n;
    assert x == q * n + r;
    if r == n - 1 {
      assert x + 1 == (q + 1) * n + 0;
      ModUnique(x + 1, n, q + 1, 0);
    } else {
      ModUnique(x + 1, n, q, r + 1);
    }
  }

  lemma {:induction false} ModAhead(x: int, n: nat, k: nat)
    requires n > 0 && x % n + k < n
    ensures (x + k) % n == x % n + k
  {
    if k > 0 {
      ModAhead(x, n, k - 1);
      ModNext(x + k - 1, n);
    }
  }

  // ---- the gap between two inspections ----

  lemma {:induction false} EntryInPast(s: Stay, c: int)
    requires Proper(s) && c >= s.start
    ensures Entry(s, c).Some? ==> Entry(s, c).value.cycle <= c
    decreases c - s.start
  {
    if c > s.start {
      EntryInPast(s, c - 1);
    }
  }

  lemma {:induction false} StampStays(s: Stay, a: int, c: int)
    requires Proper(s) && Stamped(s, a) && a <= c
    ensures Entry(s, c).Some? && Entry(s, c).value.cycle >= a
    decreases c - a
  {
    if a < c {
      StampStays(s, a, c - 1);
      EntryInPast(s, c - 1);
    }
  }

  /** Two inspections of one stay are at least `every` cycles apart. */
  lemma InspectsAreSpaced(s: Stay, a: int, b: int)
    requires Proper(s) && Stamped(s, a) && Stamped(s, b) && a < b
    ensures b - a >= s.every
  {
    StampStays(s, a, b - 1);
  }

  lemma {:induction false} EntryHolds(s: Stay, a: int, c: int)
    requires Proper(s) && Stamped(s, a) && a <= c
    requires forall d | a < d <= c :: d - a < s.every || !SlotCycle(s, d)
    ensures Entry(s, c).Some? && Entry(s, c).value.cycle == a
    ensures forall d | a < d <= c :: !Stamped(s, d)
    decreases c - a
  {
    if a < c {
      EntryHolds(s, a, c - 1);
      assert c - a < s.every || !SlotCycle(s, c);
      assert !Stamped(s, c);
    }
  }

  lemma {:induction false} NoReadNoEntry(s: Stay, c: int)
    requires Proper(s) && s.entry == None && c >= s.start
    requires forall d | s.start < d <= c :: !s.day(d).statsOk
    ensures Entry(s, c) == None
    decreases c - s.start
  {
    if c > s.start {
      NoReadNoEntry(s, c - 1);
    }
  }

  /** A container without an entry is inspected on its first day with a successful stats read, and
      its entry then holds what the inspect call gave. */
  lemma FirstReadIsStamped(s: Stay, c: int)
    requires Proper(s) && s.entry == None && c > s.start && s.day(c).statsOk
    requires forall d | s.start < d < c :: !s.day(d).statsOk
    ensures Stamped(s, c) && forall d | s.start < d < c :: !Stamped(s, d)
    ensures Entry(s, c).Some? && Entry(s, c).value.cycle == c && GetRestart(Entry(s, c)) == s.day(c).inspect
  {
    NoReadNoEntry(s, c - 1);
  }

  /** The slot cycle after an inspection: it is `every` to 2*every-1 cycles later, and exactly
      `every` when the inspection was on a slot cycle itself. */
  function NextSlot(s: Stay, a: int): int
    requires s.every > 0
  {
    var over := (a + s.slot) % s.every;
    a + s.every + if over == 0 then 0 else s.every - over
  }

  lemma SlotAhead(s: Stay, a: int)
    requires s.every > 0
    ensures (a + s.slot + s.every) % s.every == (a + s.slot) % s.every
  {
    var x, n := a + s.slot, s.every;
    ModUnique(x + n, n, x / n + 1, x % n) by { assert x == (x / n) * n + x % n; }
  }

  lemma NoSlotBefore(s: Stay, a: int, d: int)
    requires s.every > 0 && a + s.every <= d < NextSlot(s, a)
    ensures !SlotCycle(s, d)
  {
    SlotAhead(s, a);
    ModAhead(a + s.slot + s.every, s.every, d - a - s.every);
  }

  lemma NextSlotIsSlot(s: Stay, a: int)
    requires s.every > 0
    ensures SlotCycle(s, NextSlot(s, a))
  {
    var t := NextSlot(s, a);
    SlotAhead(s, a);
    if t > a + s.every {
      ModAhead(a + s.slot + s.every, s.every, t - 1 - a - s.every);
      ModNext(t - 1 + s.slot, s.every);
    }
  }

  lemma NextSlotIsFirst(s: Stay, a: int)
    requires s.every > 0
    ensures SlotCycle(s, NextSlot(s, a))
    ensures a + s.every <= NextSlot(s, a) <= a + 2 * s.every - 1
    ensures NextSlot(s, a) == a + s.every <==> SlotCycle(s, a)
    ensures forall d | a + s.every <= d < NextSlot(s, a) :: !SlotCycle(s, d)
  {
    NextSlotIsSlot(s, a);
    forall d | a + s.every <= d < NextSlot(s, a)
      ensures !SlotCycle(s, d)
    {
      NoSlotBefore(s, a, d);
    }
  }

  /** After an inspection there is none before the next slot cycle, and there is one on that cycle
      exactly when the stats read of the cycle succeeds. So the gap is at most 2*every-1 when it
      does, and exactly `every` from the first inspection on a slot cycle on. */
  lemma NextInspect(s: Stay, a: int)
    requires Proper(s) && Stamped(s, a)
    ensures var t := NextSlot(s, a);
            && a + s.every <= t <= a + 2 * s.every - 1 && SlotCycle(s, t)
            && (t == a + s.every <==> SlotCycle(s, a))
            && (forall d | a < d < t :: !Stamped(s, d))
            && (Stamped(s, t) <==> s.day(t).statsOk)
  {
    NextSlotIsFirst(s, a);
    EntryHolds(s, a, NextSlot(s, a) - 1);
  }

  /** The entry carries the last slot cycle. */
  predicate Aligned(s: Stay, c: int)
    requires s.every > 0
  {
    Entry(s, c).Some? && Entry(s, c).value.cycle == c - (c + s.slot) % s.every
  }

  lemma AlignedDay(s: Stay, c: int)
    requires Proper(s) && c - 1 >= s.start && Aligned(s, c - 1)
    requires SlotCycle(s, c) ==> s.day(c).statsOk
    ensures Aligned(s, c)
    ensures Stamped(s, c) <==> SlotCycle(s, c)
  {
    ModNext(c - 1 + s.slot, s.every);
  }

  lemma AlignedStart(s: Stay, a: int)
    requires Proper(s) && Stamped(s, a) && SlotCycle(s, a)
    ensures Aligned(s, a)
  {
  }

  lemma {:induction false} StaysAligned(s: Stay, a: int, c: int)
    requires Proper(s) && Stamped(s, a) && SlotCycle(s, a) && a <= c
    requires forall d | a < d <= c && SlotCycle(s, d) :: s.day(d).statsOk
    ensures Aligned(s, c)
    decreases c - a
  {
    if a < c {
      StaysAligned(s, a, c - 1);
      AlignedDay(s, c);
    } else {
      AlignedStart(s, a);
    }
  }

  lemma AlignedStamps(s: Stay, a: int, c: int)
    requires Proper(s) && Stamped(s, a) && SlotCycle(s, a) && a < c
    requires forall d | a < d <= c && SlotCycle(s, d) :: s.day(d).statsOk
    ensures Stamped(s, c) <==> SlotCycle(s, c)
  {
    StaysAligned(s, a, c - 1);
    AlignedDay(s, c);
  }

  lemma SlotInWindow(s: Stay, w: int) returns (c: int)
    requires s.every > 0
    ensures w < c <= w + s.every && SlotCycle(s, c)
  {
    var x := w + s.slot;
    var over := x % s.every;
    c := w + s.every - over;
    ModAhead(x, s.every, s.every - over - 1);
    ModNext(x + (s.every - over - 1), s.every);
  }

  /** Once a container has been inspected on a slot cycle, and as long as its stats reads succeed on
      slot cycles, it is inspected on all slot cycles and on no others: every window of `every`
      consecutive cycles holds exactly one inspection. */
  lemma ExactlyOncePerWindow(s: Stay, a: int, w: int)
    requires Proper(s) && Stamped(s, a) && SlotCycle(s, a) && a <= w
    requires forall d | a < d <= w + s.every && SlotCycle(s, d) :: s.day(d).statsOk
    ensures exists c :: w < c <= w + s.every && Stamped(s, c)
    ensures forall c, d | w < c <= w + s.every && w < d <= w + s.every && Stamped(s, c) && Stamped(s, d) :: c == d
  {
    var c := SlotInWindow(s, w);
    AlignedStamps(s, a, c);
    forall c, d | w < c < d <= w + s.every && Stamped(s, c) && Stamped(s, d)
      ensures false
    {
      InspectsAreSpaced(s, c, d);
    }
  }
}

/** The tags of a line: base tags first, then the tags of the point, sorted stably by key,
    with only the last entry of every key kept. */
module TagSet {
  import opened Bytes

  datatype Tag = Tag(key: Text, value: Text)

  predicate Usable(t: Tag) { t.key != [] && t.value != [] }

  /** The entries that Point copies into its scratch slice. */
  function NonEmpty(ts: seq<Tag>): (r: seq<Tag>)
    ensures forall t | t in r :: Usable(t)
  {
    if ts == [] then [] else (if Usable(ts[0]) then [ts[0]] else []) + NonEmpty(ts[1..])
  }

  /** Puts a tag before every entry whose key is not smaller. */
  function Insert(t: Tag, ts: seq<Tag>): seq<Tag> {
    if ts == [] || !Less(ts[0].key, t.key) then [t] + ts else [ts[0]] + Insert(t, ts[1..])
  }

  /** sort.SliceStable by key. A list has one stable sort only: see StableSortUnique. */
  function StableSort(ts: seq<Tag>): seq<Tag> {
    if ts == [] then [] else Insert(ts[0], StableSort(ts[1..]))
  }

  /** The writing loop: an entry is skipped when the next one has the same key. */
  function DropOverridden(ts: seq<Tag>): seq<Tag> {
    if ts == [] then []
    else if |ts| > 1 && ts[1].key == ts[0].key then DropOverridden(ts[1..])
    else [ts[0]] + DropOverridden(ts[1..])
  }

  /** The tags that Point writes for one list of tags. */
  function Emitted(ts: seq<Tag>): seq<Tag> {
    DropOverridden(StableSort(NonEmpty(ts)))
  }

  /** The reference meaning of a tag list: each key has the value of its last entry, where entries with
      an empty key or value do not count. */
  function LastWins(ts: seq<Tag>): map<Text, Text> {
    if ts == [] then map[]
    else
      var rest := LastWins(ts[1..]);
      if ts[0].key == [] || ts[0].value == [] || ts[0].key in rest then rest else rest[ts[0].key := ts[0].value]
  }

  predicate Sorted(ts: seq<Tag>) {
    |ts| < 2 || (!Less(ts[1].key, ts[0].key) && Sorted(ts[1..]))
  }

  predicate Increasing(ts: seq<Tag>) {
    |ts| < 2 || (Less(ts[0].key, ts[1].key) && Increasing(ts[1..]))
  }

  /** The entries of one key, in order. */
  function WithKey(ts: seq<Tag>, k: Text): seq<Tag> {
    if ts == [] then [] else (if ts[0].key == k then [ts[0]] else []) + WithKey(ts[1..], k)
  }

  lemma {:induction false} NonEmptyConcat(a: seq<Tag>, b: seq<Tag>)
    ensures NonEmpty(a + b) == NonEmpty(a) + NonEmpty(b)
  {
    if a == [] {
      assert a + b == b;
    } else {
      assert (a + b)[1..] == a[1..] + b;
      NonEmptyConcat(a[1..], b);
    }
  }

  lemma NonEmptyAppend(ts: seq<Tag>, t: Tag)
    ensures NonEmpty(ts + [t]) == if Usable(t) then NonEmpty(ts) + [t] else NonEmpty(ts)
  {
    NonEmptyConcat(ts, [t]);
    assert NonEmpty([t]) == if Usable(t) then [t] else [];
  }

  /** The writing loop at entry i, with what it has written so far. */
  lemma DropAt(ts: seq<Tag>, i: nat, written: seq<Tag>)
    requires i < |ts|
    ensures var more := if i + 1 < |ts| && ts[i + 1].key == ts[i].key then written else written + [ts[i]];
            written + DropOverridden(ts[i..]) == more + DropOverridden(ts[i + 1..])
  {
    assert ts[i..][1..] == ts[i + 1..];
  }

  // ---- the sort ----

  lemma {:induction false} InsertSorted(t: Tag, ts: seq<Tag>)
    requires Sorted(ts)
    ensures Sorted(Insert(t, ts))
  {
    if ts != [] {
      if Less(ts[0].key, t.key) {
        InsertSorted(t, ts[1..]);
        LessTotal(ts[0].key, t.key);
        assert !Less(t.key, ts[0].key) by {
          if Less(t.key, ts[0].key) {
            LessTransitive(t.key, ts[0].key, t.key);
            LessIrreflexive(t.key);
          }
        }
      } else {
        assert Insert(t, ts)[1..] == ts;
      }
    }
  }

  lemma {:induction false} InsertWithKey(t: Tag, ts: seq<Tag>, k: Text)
    ensures WithKey(Insert(t, ts), k) == WithKey([t] + ts, k)
  {
    assert ([t] + ts)[1..] == ts;
    if ts != [] && Less(ts[0].key, t.key) {
      LessIrreflexive(t.key);
      InsertWithKey(t, ts[1..], k);
      assert ([t] + ts[1..])[1..] == ts[1..];
    }
  }

  /** The sort orders the keys and keeps the entries of every key in their order. */
  lemma {:induction false} StableSortSorts(ts: seq<Tag>)
    ensures Sorted(StableSort(ts))
    ensures forall k :: WithKey(StableSort(ts), k) == WithKey(ts, k)
  {
    if ts != [] {
      StableSortSorts(ts[1..]);
      InsertSorted(ts[0], StableSort(ts[1..]));
      forall k
        ensures WithKey(StableSort(ts), k) == WithKey(ts, k)
      {
        InsertWithKey(ts[0], StableSort(ts[1..]), k);
        assert ([ts[0]] + StableSort(ts[1..]))[1..] == StableSort(ts[1..]);
      }
    }
  }

  lemma {:induction false} SortedHead(ts: seq<Tag>, k: Text)
    requires Sorted(ts) && ts != []
    requires WithKey(ts, k) != []
    ensures k == ts[0].key || Less(ts[0].key, k)
  {
    if ts[0].key != k {
      SortedHead(ts[1..], k);
      LessTotal(ts[0].key, ts[1].key);
      if Less(ts[1].key, k) && Less(ts[0].key, ts[1].key) {
        LessTransitive(ts[0].key, ts[1].key, k);
      }
    }
  }

  lemma SameHead(a: seq<Tag>, b: seq<Tag>)
    requires Sorted(a) && Sorted(b) && a != [] && b != []
    requires WithKey(a, a[0].key) == WithKey(b, a[0].key)
    requires WithKey(a, b[0].key) == WithKey(b, b[0].key)
    ensures a[0] == b[0]
  {
    SortedHead(b, a[0].key);
    SortedHead(a, b[0].key);
    if Less(a[0].key, b[0].key) && Less(b[0].key, a[0].key) {
      LessTransitive(a[0].key, b[0].key, a[0].key);
      LessIrreflexive(a[0].key);
    }
    assert a[0] == WithKey(a, a[0].key)[0];
  }

  lemma TailWithKey(ts: seq<Tag>, k: Text)
    requires ts != []
    ensures WithKey(ts[1..], k) == if ts[0].key == k then WithKey(ts, k)[1..] else WithKey(ts, k)
  {
  }

  /** Two sorted lists with the same entries per key, in the same order, are one list. So the
      result of a stable sort does not depend on the algorithm. */
  lemma {:induction false} StableSortUnique(a: seq<Tag>, b: seq<Tag>)
    requires Sorted(a) && Sorted(b)
    requires forall k :: WithKey(a, k) == WithKey(b, k)
    ensures a == b
  {
    if a != [] { assert WithKey(a, a[0].key) != []; }
    if b != [] { assert WithKey(b, b[0].key) != []; }
    if a != [] {
      SameHead(a, b);
      forall k
        ensures WithKey(a[1..], k) == WithKey(b[1..], k)
      {
        TailWithKey(a, k);
        TailWithKey(b, k);
      }
      StableSortUnique(a[1..], b[1..]);
      assert a == [a[0]] + a[1..] && b == [b[0]] + b[1..];
    }
  }

  // ---- the override rule ----

  lemma {:induction false} InsertLastWins(t: Tag, ts: seq<Tag>)
    requires Usable(t)
    ensures LastWins(Insert(t, ts)) == LastWins([t] + ts)
  {
    assert ([t] + ts)[1..] == ts;
    if ts != [] && Less(ts[0].key, t.key) {
      LessIrreflexive(t.key);
      InsertLastWins(t, ts[1..]);
      assert ([t] + ts[1..])[1..] == ts[1..];
    }
  }

  lemma {:induction false} SortLastWins(ts: seq<Tag>)
    requires forall t | t in ts :: Usable(t)
    ensures LastWins(StableSort(ts)) == LastWins(ts)
  {
    if ts != [] {
      SortLastWins(ts[1..]);
      InsertLastWins(ts[0], StableSort(ts[1..]));
      assert ([ts[0]] + StableSort(ts[1..]))[1..] == StableSort(ts[1..]);
    }
  }

  lemma {:induction false} NonEmptyLastWins(ts: seq<Tag>)
    ensures LastWins(NonEmpty(ts)) == LastWins(ts)
  {
    if ts != [] {
      NonEmptyLastWins(ts[1..]);
      if Usable(ts[0]) {
        assert NonEmpty(ts)[1..] == NonEmpty(ts[1..]);
      } else {
        assert NonEmpty(ts) == NonEmpty(ts[1..]);
      }
    }
  }

  lemma {:induction false} DropLastWins(ts: seq<Tag>)
    requires forall t | t in ts :: Usable(t)
    ensures LastWins(DropOverridden(ts)) == LastWins(ts)
    ensures forall t | t in DropOverridden(ts) :: t in ts
  {
    if ts != [] {
      DropLastWins(ts[1..]);
      assert ts[0] in ts && Usable(ts[0]);
      assert |ts| > 1 ==> ts[1] in ts && Usable(ts[1]) && ts[1].key in LastWins(ts[1..]);
      if !(|ts| > 1 && ts[1].key == ts[0].key) {
        assert DropOverridden(ts)[1..] == DropOverridden(ts[1..]);
      }
    }
  }

  lemma {:induction false} DropIncreasing(ts: seq<Tag>)
    requires Sorted(ts)
    ensures Increasing(DropOverridden(ts))
    ensures ts != [] ==> DropOverridden(ts) != [] && DropOverridden(ts)[0].key == ts[0].key
  {
    if |ts| > 1 {
      DropIncreasing(ts[1..]);
      if ts[1].key != ts[0].key {
        LessTotal(ts[0].key, ts[1].key);
        assert DropOverridden(ts)[1..] == DropOverridden(ts[1..]);
      }
    }
  }

  lemma {:induction false} StableSortMembers(ts: seq<Tag>, t: Tag)
    ensures t in StableSort(ts) <==> t in ts
  {
    if ts != [] {
      StableSortMembers(ts[1..], t);
      InsertMembers(ts[0], StableSort(ts[1..]), t);
    }
  }

  lemma {:induction false} InsertMembers(t: Tag, ts: seq<Tag>, x: Tag)
    ensures x in Insert(t, ts) <==> x == t || x in ts
  {
    if ts != [] && Less(ts[0].key, t.key) {
      InsertMembers(t, ts[1..], x);
    }
  }

  /** What Point writes refines the last-wins map: strictly increasing keys, no empty key or
      value, and exactly the bindings of the map. */
  lemma EmittedRefinesMap(ts: seq<Tag>)
    ensures Increasing(Emitted(ts))
    ensures forall t | t in Emitted(ts) :: Usable(t)
    ensures LastWins(Emitted(ts)) == LastWins(ts)
  {
    var sorted := StableSort(NonEmpty(ts));
    StableSortSorts(NonEmpty(ts));
    forall t | t in sorted
      ensures Usable(t)
    {
      StableSortMembers(NonEmpty(ts), t);
    }
    DropIncreasing(sorted);
    DropLastWins(sorted);
    SortLastWins(NonEmpty(ts));
    NonEmptyLastWins(ts);
  }

  lemma {:induction false} KeysAbove(ts: seq<Tag>, k: Text)
    requires Increasing(ts) && ts != []
    requires k in LastWins(ts)
    ensures k == ts[0].key || Less(ts[0].key, k)
  {
    if k != ts[0].key {
      KeysAbove(ts[1..], k);
      if k != ts[1].key {
        LessTransitive(ts[0].key, ts[1].key, k);
      }
    }
  }

  lemma HeadKeyOnce(ts: seq<Tag>)
    requires Increasing(ts) && ts != []
    ensures ts[0].key !in LastWins(ts[1..])
  {
    if ts[0].key in LastWins(ts[1..]) {
      KeysAbove(ts[1..], ts[0].key);
      if Less(ts[1].key, ts[0].key) {
        LessTransitive(ts[0].key, ts[1].key, ts[0].key);
      }
      LessIrreflexive(ts[0].key);
    }
  }

  /** A map has one strictly increasing list only. */
  lemma {:induction false} IncreasingUnique(a: seq<Tag>, b: seq<Tag>)
    requires Increasing(a) && Increasing(b)
    requires forall t | t in a :: Usable(t)
    requires forall t | t in b :: Usable(t)
    requires LastWins(a) == LastWins(b)
    ensures a == b
  {
    if a != [] { assert a[0] in a && Usable(a[0]) && a[0].key in LastWins(a); }
    if b != [] { assert b[0] in b && Usable(b[0]) && b[0].key in LastWins(b); }
    assert a == [] <==> b == [];
    if a != [] {
      HeadKeyOnce(a);
      HeadKeyOnce(b);
      KeysAbove(a, b[0].key);
      KeysAbove(b, a[0].key);
      if Less(a[0].key, b[0].key) && Less(b[0].key, a[0].key) {
        LessTransitive(a[0].key, b[0].key, a[0].key);
        LessIrreflexive(a[0].key);
      }
      assert a[0] == b[0];
      assert LastWins(a[1..]) == LastWins(a) - {a[0].key};
      assert LastWins(b[1..]) == LastWins(b) - {b[0].key};
      IncreasingUnique(a[1..], b[1..]);
      assert a == [a[0]] + a[1..] && b == [b[0]] + b[1..];
    }
  }

  /** Two tag lists give the same written tags exactly when they mean the same map. */
  lemma EmittedEqualIffSameMap(a: seq<Tag>, b: seq<Tag>)
    ensures Emitted(a) == Emitted(b) <==> LastWins(a) == LastWins(b)
  {
    EmittedRefinesMap(a);
    EmittedRefinesMap(b);
    if LastWins(a) == LastWins(b) {
      IncreasingUnique(Emitted(a), Emitted(b));
    }
  }
}

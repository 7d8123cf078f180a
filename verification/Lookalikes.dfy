/** Points that look the same on the wire: what no reader of the lines can give back. */
module Lookalikes {
  import opened Wrappers
  import opened Bytes
  import opened TagSet
  import opened LineFormat
  import opened LineParser
  import opened RoundTrip

  /** A line feed for a carriage return and the other way round. */
  function SwappedByte(c: byte): byte { if c == LF then CR else if c == CR then LF else c }

  function Swapped(s: Text): (r: Text)
    ensures |r| == |s| && forall i | 0 <= i < |s| :: r[i] == SwappedByte(s[i])
  {
    if s == [] then [] else [SwappedByte(s[0])] + Swapped(s[1..])
  }

  lemma {:induction false} SwappedLooksAlike(s: Text, cls: EscapeClass)
    ensures Escaped(Swapped(s), cls) == Escaped(s, cls)
  {
    if s != [] {
      SwappedLooksAlike(s[1..], cls);
      assert Swapped(s)[1..] == Swapped(s[1..]);
    }
  }

  lemma SwappedDiffers(s: Text)
    ensures Swapped(s) == s <==> OneLine(s)
  {
    if Swapped(s) == s {
      forall c | c in s
        ensures !EndsLine(c)
      {
        var i :| 0 <= i < |s| && s[i] == c;
        assert Swapped(s)[i] == SwappedByte(c);
      }
    }
    if OneLine(s) {
      forall i | 0 <= i < |s|
        ensures Swapped(s)[i] == s[i]
      {
        assert s[i] in s;
      }
    }
  }

  // ---- tags ----

  function SwappedTag(t: Tag): Tag { Tag(t.key, Swapped(t.value)) }

  function SwappedTags(ts: seq<Tag>): (r: seq<Tag>)
    ensures |r| == |ts| && forall i | 0 <= i < |ts| :: r[i] == SwappedTag(ts[i])
  {
    if ts == [] then [] else [SwappedTag(ts[0])] + SwappedTags(ts[1..])
  }

  lemma {:induction false} SwappedTagsIncrease(ts: seq<Tag>)
    requires Increasing(ts)
    ensures Increasing(SwappedTags(ts))
  {
    if |ts| > 1 {
      SwappedTagsIncrease(ts[1..]);
      assert SwappedTags(ts)[1..] == SwappedTags(ts[1..]);
    }
  }

  lemma {:induction false} SwappedTagsText(ts: seq<Tag>)
    ensures TagsText(SwappedTags(ts)) == TagsText(ts)
  {
    if ts != [] {
      SwappedTagsText(ts[1..]);
      SwappedLooksAlike(ts[0].value, EscTag);
      assert SwappedTags(ts)[1..] == SwappedTags(ts[1..]);
      assert TagText(SwappedTag(ts[0])) == TagText(ts[0]);
    }
  }

  lemma SwappedTagsDiffer(ts: seq<Tag>)
    ensures SwappedTags(ts) == ts <==> forall t | t in ts :: OneLine(t.value)
  {
    forall i | 0 <= i < |ts|
      ensures SwappedTags(ts)[i] == ts[i] <==> OneLine(ts[i].value)
    {
      SwappedDiffers(ts[i].value);
    }
    if SwappedTags(ts) == ts {
      forall t | t in ts
        ensures OneLine(t.value)
      {
        var i :| 0 <= i < |ts| && ts[i] == t;
        assert SwappedTags(ts)[i] == ts[i];
      }
    }
  }

  // ---- tags over the same base tags ----

  lemma {:induction false} TagHasKey(ts: seq<Tag>, t: Tag)
    requires t in ts && Usable(t)
    ensures t.key in LastWins(ts)
  {
    if ts[0] != t {
      TagHasKey(ts[1..], t);
    }
  }

  lemma {:induction false} KeyHasTag(ts: seq<Tag>, k: Text) returns (i: nat)
    requires k in LastWins(ts)
    ensures i < |ts| && Usable(ts[i]) && ts[i].key == k
  {
    if k in LastWins(ts[1..]) {
      var j := KeyHasTag(ts[1..], k);
      i := j + 1;
    } else {
      i := 0;
    }
  }

  /** Every usable base tag is overridden by the list. */
  predicate Covers(ts: seq<Tag>, base: seq<Tag>) {
    forall b | b in base && Usable(b) :: b.key in LastWins(ts)
  }

  lemma {:induction false} CoveredBase(base: seq<Tag>, ts: seq<Tag>)
    requires Covers(ts, base)
    ensures LastWins(base + ts) == LastWins(ts)
  {
    if base == [] {
      assert base + ts == ts;
    } else {
      assert (base + ts)[1..] == base[1..] + ts;
      CoveredBase(base[1..], ts);
    }
  }

  /** A list that overrides all base tags is written as it stands. */
  lemma EmittedOverBase(base: seq<Tag>, ts: seq<Tag>)
    requires Increasing(ts) && Covers(ts, base) && forall t | t in ts :: Usable(t)
    ensures Emitted(base + ts) == ts
  {
    CoveredBase(base, ts);
    EmittedRefinesMap(base + ts);
    IncreasingUnique(Emitted(base + ts), ts);
  }

  /** The written tags of a point have the key of every usable base tag. */
  lemma BaseIsWritten(base: seq<Tag>, tags: seq<Tag>, b: Tag) returns (i: nat)
    requires b in base && Usable(b)
    ensures i < |Emitted(base + tags)| && Emitted(base + tags)[i].key == b.key
  {
    assert b in base + tags;
    TagHasKey(base + tags, b);
    EmittedRefinesMap(base + tags);
    i := KeyHasTag(Emitted(base + tags), b.key);
  }

  lemma SwappedTagsAreEmitted(base: seq<Tag>, tags: seq<Tag>)
    ensures Emitted(base + SwappedTags(Emitted(base + tags))) == SwappedTags(Emitted(base + tags))
  {
    var written := Emitted(base + tags);
    var swapped := SwappedTags(written);
    EmittedRefinesMap(base + tags);
    SwappedTagsIncrease(written);
    forall t | t in swapped
      ensures Usable(t)
    {
      var i :| 0 <= i < |swapped| && swapped[i] == t;
      assert written[i] in written;
    }
    forall b | b in base && Usable(b)
      ensures b.key in LastWins(swapped)
    {
      var i := BaseIsWritten(base, tags, b);
      TagHasKey(swapped, swapped[i]);
    }
    EmittedOverBase(base, swapped);
  }

  // ---- keys ----

  function KeySwapped(t: Tag): Tag { Tag(Swapped(t.key), t.value) }

  function KeysSwapped(ts: seq<Tag>): (r: seq<Tag>)
    ensures |r| == |ts| && forall i | 0 <= i < |ts| :: r[i] == KeySwapped(ts[i])
  {
    if ts == [] then [] else [KeySwapped(ts[0])] + KeysSwapped(ts[1..])
  }

  lemma {:induction false} KeysSwappedText(ts: seq<Tag>)
    ensures TagsText(KeysSwapped(ts)) == TagsText(ts)
  {
    if ts != [] {
      KeysSwappedText(ts[1..]);
      SwappedLooksAlike(ts[0].key, EscTag);
      assert KeysSwapped(ts)[1..] == KeysSwapped(ts[1..]);
      assert TagText(KeySwapped(ts[0])) == TagText(ts[0]);
    }
  }

  lemma KeysSwappedDiffer(ts: seq<Tag>)
    ensures KeysSwapped(ts) == ts <==> forall t | t in ts :: OneLine(t.key)
  {
    forall i | 0 <= i < |ts|
      ensures KeysSwapped(ts)[i] == ts[i] <==> OneLine(ts[i].key)
    {
      SwappedDiffers(ts[i].key);
    }
    if KeysSwapped(ts) == ts {
      forall t | t in ts
        ensures OneLine(t.key)
      {
        var i :| 0 <= i < |ts| && ts[i] == t;
        assert KeysSwapped(ts)[i] == ts[i];
      }
    }
  }

  lemma KeysSwappedAreEmitted(base: seq<Tag>, tags: seq<Tag>)
    requires Increasing(KeysSwapped(Emitted(base + tags)))
    requires forall b | b in base && Usable(b) :: OneLine(b.key)
    ensures Emitted(base + KeysSwapped(Emitted(base + tags))) == KeysSwapped(Emitted(base + tags))
  {
    var written := Emitted(base + tags);
    var swapped := KeysSwapped(written);
    EmittedRefinesMap(base + tags);
    forall t | t in swapped
      ensures Usable(t)
    {
      var i :| 0 <= i < |swapped| && swapped[i] == t;
      assert written[i] in written;
    }
    forall b | b in base && Usable(b)
      ensures b.key in LastWins(swapped)
    {
      var i := BaseIsWritten(base, tags, b);
      SwappedDiffers(b.key);
      TagHasKey(swapped, swapped[i]);
    }
    EmittedOverBase(base, swapped);
  }

  // ---- fields ----

  /** Another value of a foreign type: neither is written. */
  function SwappedField(f: Field): Field {
    Field(Swapped(f.key), if f.value.Other? then Other(f.value.what + [NUL]) else f.value)
  }

  function SwappedFields(fs: seq<Field>): (r: seq<Field>)
    ensures |r| == |fs|
  {
    if fs == [] then [] else [SwappedField(fs[0])] + SwappedFields(fs[1..])
  }

  lemma {:induction false} SwappedFieldsValid(fs: seq<Field>)
    requires forall f | f in fs :: FieldValid(f)
    ensures ValidFields(SwappedFields(fs)) == SwappedFields(fs)
  {
    if fs != [] {
      SwappedFieldsValid(fs[1..]);
      assert FieldValid(fs[0]);
      assert FieldValid(SwappedField(fs[0]));
      assert SwappedFields(fs)[1..] == SwappedFields(fs[1..]);
    }
  }

  lemma SwappedFieldText(f: Field)
    ensures FieldText(SwappedField(f)) == FieldText(f)
  {
    SwappedLooksAlike(f.key, EscTag);
  }

  lemma {:induction false} SwappedFieldsText(fs: seq<Field>)
    ensures FieldsText(SwappedFields(fs)) == FieldsText(fs)
  {
    if fs != [] {
      SwappedFieldText(fs[0]);
      SwappedFieldsText(fs[1..]);
      assert SwappedFields(fs)[1..] == SwappedFields(fs[1..]);
    }
  }

  function NormalField(f: Field): Field { Field(f.key, Normal(f.value)) }

  lemma SwappedFieldDiffers(f: Field)
    ensures NormalField(SwappedField(f)) == NormalField(f) <==> CleanField(f)
  {
    SwappedDiffers(f.key);
    if f.value.Other? {
      assert |f.value.what + [NUL]| > |f.value.what|;
    }
  }

  lemma {:induction false} SwappedFieldsDiffer(fs: seq<Field>)
    ensures NormalFields(SwappedFields(fs)) == NormalFields(fs) <==> forall f | f in fs :: CleanField(f)
  {
    if fs != [] {
      var swapped := SwappedFields(fs);
      SwappedFieldDiffers(fs[0]);
      SwappedFieldsDiffer(fs[1..]);
      assert swapped[1..] == SwappedFields(fs[1..]);
      SameList(NormalField(fs[0]), NormalFields(fs[1..]), NormalField(swapped[0]), NormalFields(swapped[1..]));
      assert forall f :: f in fs <==> f == fs[0] || f in fs[1..];
    }
  }

  lemma SameList(x: Field, xs: seq<Field>, y: Field, ys: seq<Field>)
    ensures [x] + xs == [y] + ys <==> x == y && xs == ys
  {
    if [x] + xs == [y] + ys {
      assert ([x] + xs)[0] == ([y] + ys)[0] && ([x] + xs)[1..] == ([y] + ys)[1..];
    }
  }

  // ---- points ----

  /** A point that looks the same on the wire. */
  function Double(base: seq<Tag>, p: Point): Point {
    Point(Swapped(p.measurement), SwappedTags(Emitted(base + p.tags)), SwappedFields(ValidFields(p.fields)), p.ts)
  }

  lemma DoubleLooksAlike(base: seq<Tag>, p: Point)
    requires Accepted(p)
    ensures Accepted(Double(base, p)) && LineText(base, Double(base, p)) == LineText(base, p)
  {
    SwappedLooksAlike(p.measurement, EscMeasurement);
    SwappedTagsAreEmitted(base, p.tags);
    SwappedTagsText(Emitted(base + p.tags));
    SwappedFieldsValid(ValidFields(p.fields));
    SwappedFieldsText(ValidFields(p.fields));
  }

  /** The failure does not depend on the reader, nor on what it knows of the base tags: every accepted
      point has the very bytes of another accepted point of the same encoder, and the two have one
      meaning only if the first has no line end in its measurement, in its written tag values and in
      its written field keys, and no value of a foreign type. So no reader can give back both. */
  lemma UnfaithfulIsAmbiguous(base: seq<Tag>, p: Point)
    requires Accepted(p)
    ensures var q := Double(base, p);
            && Accepted(q) && LineText(base, q) == LineText(base, p)
            && (Meaning(base, q) == Meaning(base, p) <==>
                  && OneLine(p.measurement)
                  && (forall t | t in Emitted(base + p.tags) :: OneLine(t.value))
                  && (forall f | f in ValidFields(p.fields) :: CleanField(f)))
  {
    DoubleLooksAlike(base, p);
    SwappedTagsAreEmitted(base, p.tags);
    SwappedFieldsValid(ValidFields(p.fields));
    SwappedDiffers(p.measurement);
    SwappedTagsDiffer(Emitted(base + p.tags));
    SwappedFieldsDiffer(ValidFields(p.fields));
  }

  /** The same for line ends in tag keys, when the swapped keys are still in order and the base tags
      have none: the point with the swapped keys has the same bytes, and another meaning exactly when
      a written key has a line end. */
  lemma UnfaithfulKeysAreAmbiguous(base: seq<Tag>, p: Point)
    requires Accepted(p) && Increasing(KeysSwapped(Emitted(base + p.tags)))
    requires forall b | b in base && Usable(b) :: OneLine(b.key)
    ensures var q := p.(tags := KeysSwapped(Emitted(base + p.tags)));
            && Accepted(q) && LineText(base, q) == LineText(base, p)
            && (Meaning(base, q) == Meaning(base, p) <==> forall t | t in Emitted(base + p.tags) :: OneLine(t.key))
  {
    KeysSwappedAreEmitted(base, p.tags);
    KeysSwappedText(Emitted(base + p.tags));
    KeysSwappedDiffer(Emitted(base + p.tags));
  }

  /** One point that does not read back: a measurement of two letters with a line feed between them. */
  lemma LineFeedIsLost(p: Point)
    requires p.measurement == [97, LF, 98] && p.tags == [] && p.fields == [Field([102], BoolV(true))]
    ensures Accepted(p) && ReadBatch(BatchText([], [p])) != Some(BatchMeaning([], [p]))
  {
    assert FieldValid(p.fields[0]);
    assert EndsLine(p.measurement[1]) && p in [p];
    assert !OneLine(p.measurement);
    BatchRoundTrip([], [p]);
  }
}

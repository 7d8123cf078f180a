/** Nothing is lost on the way: what a batch reads back as, by the points that were handed in alone. */
module WholePoints {
  import opened Wrappers
  import opened Bytes
  import opened TagSet
  import opened LineFormat
  import opened LineParser
  import opened RoundTrip

  /** A number that is finite, a boolean or a string. */
  predicate Plain(v: Value) {
    v.IntV? || v.UintV? || v.BoolV? || v.StringV? || (v.FloatV? && v.f.Finite?)
  }

  predicate Wanted(f: Field) { f.key != [] && Plain(f.value) }

  /** A field that is written: a wanted one, or one of a foreign type, whose value stays empty. */
  predicate Shown(f: Field) { f.key != [] && (Plain(f.value) || f.value.Other?) }

  function ShownFields(fs: seq<Field>): seq<Field> {
    if fs == [] then [] else (if Shown(fs[0]) then [fs[0]] else []) + ShownFields(fs[1..])
  }

  lemma {:induction false} ValidIsShown(fs: seq<Field>)
    ensures ValidFields(fs) == ShownFields(fs)
  {
    if fs != [] {
      ValidIsShown(fs[1..]);
    }
  }

  lemma {:induction false} ShownExists(fs: seq<Field>)
    ensures ShownFields(fs) != [] <==> exists f :: f in fs && Shown(f)
  {
    if fs != [] {
      ShownExists(fs[1..]);
      if Shown(fs[0]) {
        assert fs[0] in fs;
      } else if f :| f in fs && Shown(f) {
        assert f in fs[1..];
      }
    }
  }

  /** Point adds a line exactly for a measurement with a field to show, and the line shows every such
      field, in order, between its tags and its time. */
  lemma LineShowsEveryField(base: seq<Tag>, p: Point)
    ensures BatchText(base, [p])
         == if p.measurement != [] && exists f :: f in p.fields && Shown(f)
            then Escaped(p.measurement, EscMeasurement) + TagsText(Emitted(base + p.tags)) + [SPACE]
                 + FieldsText(ShownFields(p.fields)) + StampText(p.ts) + [LF]
            else []
    ensures |AcceptedPoints([p])| == if p.measurement != [] && exists f :: f in p.fields && Shown(f) then 1 else 0
  {
    ValidIsShown(p.fields);
    ShownExists(p.fields);
    assert BatchText(base, [p]) == (if Accepted(p) then LineText(base, p) else []) + BatchText(base, [][..]);
    assert AcceptedPoints([p]) == (if Accepted(p) then [p] else []) + AcceptedPoints([][..]);
    Regroup(LineHead(base, p), [SPACE], FieldsText(ShownFields(p.fields)), StampText(p.ts), []);
  }

  // ---- reading back ----

  /** The fields that come back: every wanted one, with its normal value. */
  function ReadBack(fs: seq<Field>): seq<Field> {
    if fs == [] then []
    else (if Wanted(fs[0]) then [Field(fs[0].key, Normal(fs[0].value))] else []) + ReadBack(fs[1..])
  }

  /** A point with something to write. */
  predicate Writes(p: Point) { p.measurement != [] && exists f :: f in p.fields && Wanted(f) }

  function Written(ps: seq<Point>): seq<Point> {
    if ps == [] then [] else (if Writes(ps[0]) then [ps[0]] else []) + Written(ps[1..])
  }

  /** No line end in the measurement, in the bindings of the tags or in a field key, and no value of a
      foreign type. */
  predicate Clean(base: seq<Tag>, p: Point) {
    var tags := LastWins(base + p.tags);
    && OneLine(p.measurement)
    && (forall k | k in tags :: OneLine(k) && OneLine(tags[k]))
    && (forall f | f in p.fields && f.key != [] :: OneLine(f.key))
    && NoForeign(p.fields)
  }

  /** What the line of a point gives back. */
  predicate CameBack(base: seq<Tag>, p: Point, q: Point) {
    && q.measurement == p.measurement && q.ts == p.ts
    && Increasing(q.tags) && LastWins(q.tags) == LastWins(base + p.tags)
    && q.fields == ReadBack(p.fields)
  }

  predicate NoForeign(fs: seq<Field>) { forall f | f in fs && f.key != [] :: !f.value.Other? }

  lemma {:induction false} ShownReadsBack(fs: seq<Field>)
    requires NoForeign(fs)
    ensures NormalFields(ShownFields(fs)) == ReadBack(fs)
  {
    if fs != [] {
      assert fs[0] in fs;
      ShownReadsBack(fs[1..]);
      if Shown(fs[0]) {
        assert Wanted(fs[0]);
        assert ShownFields(fs)[1..] == ShownFields(fs[1..]);
      } else {
        assert ShownFields(fs) == ShownFields(fs[1..]);
      }
    }
  }

  lemma {:induction false} ShownMembers(fs: seq<Field>, f: Field)
    ensures f in ShownFields(fs) <==> f in fs && Shown(f)
  {
    if fs != [] {
      ShownMembers(fs[1..], f);
    }
  }

  lemma {:induction false} MemberBinds(ts: seq<Tag>, t: Tag)
    requires Increasing(ts) && t in ts && forall u | u in ts :: Usable(u)
    ensures t.key in LastWins(ts) && LastWins(ts)[t.key] == t.value
  {
    HeadKeyOnce(ts);
    if t != ts[0] {
      MemberBinds(ts[1..], t);
    }
  }

  lemma CleanTagsAreFaithful(base: seq<Tag>, p: Point)
    requires Clean(base, p)
    ensures forall t | t in Emitted(base + p.tags) :: CleanTag(t)
  {
    EmittedRefinesMap(base + p.tags);
    forall t | t in Emitted(base + p.tags)
      ensures CleanTag(t)
    {
      MemberBinds(Emitted(base + p.tags), t);
    }
  }

  lemma CleanIsFaithful(base: seq<Tag>, p: Point)
    requires Clean(base, p)
    ensures Faithful(base, p) && CameBack(base, p, Meaning(base, p))
  {
    CleanTagsAreFaithful(base, p);
    EmittedRefinesMap(base + p.tags);
    ValidIsShown(p.fields);
    ShownReadsBack(p.fields);
    forall f | f in ValidFields(p.fields)
      ensures CleanField(f)
    {
      ShownMembers(p.fields, f);
    }
  }

  /** A point that writes nothing has no measurement or no field to show. */
  predicate Silent(p: Point) { p.measurement == [] || forall f | f in p.fields :: !Shown(f) }

  lemma WritesIsAccepted(p: Point)
    ensures Writes(p) ==> Accepted(p)
    ensures Silent(p) ==> !Accepted(p)
  {
    ValidIsShown(p.fields);
    ShownExists(p.fields);
    if Writes(p) {
      var f :| f in p.fields && Wanted(f);
      assert Shown(f);
    }
  }

  /** The points came back one by one. */
  predicate AllCameBack(base: seq<Tag>, ps: seq<Point>, qs: seq<Point>) {
    |qs| == |ps| && forall i | 0 <= i < |ps| :: CameBack(base, ps[i], qs[i])
  }

  lemma OneMoreCameBack(base: seq<Tag>, p: Point, ps: seq<Point>, q: Point, qs: seq<Point>)
    requires CameBack(base, p, q) && AllCameBack(base, ps, qs)
    ensures AllCameBack(base, [p] + ps, [q] + qs)
  {
  }

  /** What a caller can check about a point: it is clean, or it writes nothing. */
  predicate Readable(base: seq<Tag>, p: Point) { if Writes(p) then Clean(base, p) else Silent(p) }

  /** One call more at the front of a batch. */
  lemma FirstComesBack(base: seq<Tag>, p: Point, text: Text, rest: seq<Point>)
    requires Writes(p) && Clean(base, p) && ReadBatch(text) == Some(rest)
    ensures ReadBatch(LineText(base, p) + text) == Some([Meaning(base, p)] + rest)
    ensures CameBack(base, p, Meaning(base, p))
  {
    WritesIsAccepted(p);
    CleanIsFaithful(base, p);
    ReadLineText(base, p, text);
  }

  lemma BatchStep(base: seq<Tag>, ps: seq<Point>)
    requires ps != [] && Readable(base, ps[0])
    ensures BatchText(base, ps) == (if Writes(ps[0]) then LineText(base, ps[0]) else []) + BatchText(base, ps[1..])
    ensures |AcceptedPoints(ps)| == (if Writes(ps[0]) then 1 else 0) + |AcceptedPoints(ps[1..])|
    ensures Written(ps) == (if Writes(ps[0]) then [ps[0]] else []) + Written(ps[1..])
  {
    WritesIsAccepted(ps[0]);
  }

  /** The batch, by the points alone: after any Point calls with clean arguments the buffer reads back
      as one point for each call with a measurement and a wanted field, in order, and each has the very
      measurement, time and tag bindings, and all the wanted fields, in order. */
  lemma {:induction false} BatchComesBack(base: seq<Tag>, ps: seq<Point>) returns (qs: seq<Point>)
    requires forall p | p in ps :: Readable(base, p)
    ensures ReadBatch(BatchText(base, ps)) == Some(qs)
    ensures AllCameBack(base, Written(ps), qs) && |AcceptedPoints(ps)| == |qs|
  {
    if ps == [] {
      qs := [];
    } else {
      var p, text := ps[0], BatchText(base, ps[1..]);
      assert p in ps;
      var rest := BatchComesBack(base, ps[1..]);
      BatchStep(base, ps);
      if Writes(p) {
        FirstComesBack(base, p, text, rest);
        OneMoreCameBack(base, p, Written(ps[1..]), Meaning(base, p), rest);
        qs := [Meaning(base, p)] + rest;
      } else {
        assert [] + text == text && [] + Written(ps[1..]) == Written(ps[1..]);
        qs := rest;
      }
    }
  }

  lemma {:induction false} WrittenSplit(ps: seq<Point>, p: Point, qs: seq<Point>)
    requires Writes(p)
    ensures Written(ps + [p] + qs) == Written(ps) + [p] + Written(qs)
  {
    if ps == [] {
      assert ps + [p] + qs == [p] + qs && ([p] + qs)[1..] == qs;
    } else {
      var first := if Writes(ps[0]) then [ps[0]] else [];
      assert (ps + [p] + qs)[1..] == ps[1..] + [p] + qs;
      WrittenSplit(ps[1..], p, qs);
      assert first + (Written(ps[1..]) + [p] + Written(qs)) == first + Written(ps[1..]) + [p] + Written(qs);
    }
  }
}

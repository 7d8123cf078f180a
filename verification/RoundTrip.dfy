/** Reading back what the encoder writes. */
module RoundTrip {
  import opened Wrappers
  import opened Bytes
  import opened TagSet
  import opened LineFormat
  import opened LineParser

  /** Line ends become spaces; nothing else changes. */
  function Flatten(s: Text): (r: Text)
    ensures |r| == |s|
    ensures OneLine(s) ==> r == s
  {
    if s == [] then [] else [if EndsLine(s[0]) then SPACE else s[0]] + Flatten(s[1..])
  }

  /** The value a reader sees. An unsigned number that fits is a signed one. */
  function Normal(v: Value): Value {
    match v
    case UintV(u, wide) => if u <= MAX_INT64 then IntV(u) else FloatV(Finite(wide))
    case StringV(s) => StringV(Flatten(s))
    case _ => v
  }

  function NormalFields(fs: seq<Field>): seq<Field> {
    if fs == [] then [] else [Field(fs[0].key, Normal(fs[0].value))] + NormalFields(fs[1..])
  }

  /** The meaning of an accepted point: the last-wins tags in key order, and its valid fields in
      their order. */
  function Meaning(base: seq<Tag>, p: Point): Point {
    Point(p.measurement, Emitted(base + p.tags), NormalFields(ValidFields(p.fields)), p.ts)
  }

  /** The meaning of the points that a batch holds, in order. */
  function BatchMeaning(base: seq<Tag>, ps: seq<Point>): seq<Point> {
    if ps == [] then []
    else (if Accepted(ps[0]) then [Meaning(base, ps[0])] else []) + BatchMeaning(base, ps[1..])
  }

  /** What a caller can check about a point: no CR or LF in the measurement, in a written tag
      or in a written field key, and no value of a foreign type. */
  predicate Faithful(base: seq<Tag>, p: Point) {
    && OneLine(p.measurement)
    && (forall t | t in Emitted(base + p.tags) :: CleanTag(t))
    && (forall f | f in ValidFields(p.fields) :: CleanField(f))
  }

  // ---- names ----

  predicate Ends(s: Text, cls: EscapeClass) { s == [] || Stops(cls, s[0]) }

  lemma ReadNameByte(c: byte, cls: EscapeClass, tail: Text)
    requires !EndsLine(c) || cls == EscString
    ensures var (name, rest) := ReadName(tail, cls);
            ReadName(EscapedByte(c, cls) + tail, cls) == (Flatten([c]) + name, rest)
  {
    var whole := EscapedByte(c, cls) + tail;
    assert Flatten([c]) == [if EndsLine(c) then SPACE else c];
    if !EndsLine(c) && Escapes(cls, c) {
      assert whole[2..] == tail;
    } else {
      assert whole[1..] == tail;
    }
  }

  /** Reading a name undoes escaping it, whatever stop byte follows. */
  lemma {:induction false} ReadNameEscaped(s: Text, cls: EscapeClass, rest: Text)
    requires Ends(rest, cls)
    requires OneLine(s) || cls == EscString
    ensures ReadName(Escaped(s, cls) + rest, cls) == (Flatten(s), rest)
  {
    if s == [] {
      assert Escaped(s, cls) + rest == rest;
    } else {
      ReadNameEscaped(s[1..], cls, rest);
      var tail := Escaped(s[1..], cls) + rest;
      Assoc(EscapedByte(s[0], cls), Escaped(s[1..], cls), rest);
      ReadNameByte(s[0], cls, tail);
      assert Flatten(s) == Flatten([s[0]]) + Flatten(s[1..]);
    }
  }

  lemma ReadWordEscaped(s: Text, cls: EscapeClass, rest: Text)
    requires Ends(rest, cls) && s != [] && OneLine(s)
    ensures ReadWord(Escaped(s, cls) + rest, cls) == Some((s, rest))
  {
    ReadNameEscaped(s, cls, rest);
  }

  // ---- tags ----

  lemma ReadTagText(t: Tag, rest: Text)
    requires Usable(t) && CleanTag(t) && Ends(rest, EscTag)
    ensures ReadTag(PairText(t) + rest) == Some((t, rest))
  {
    var valueText := Escaped(t.value, EscTag) + rest;
    Assoc(Escaped(t.key, EscTag) + [EQUALS], Escaped(t.value, EscTag), rest);
    Assoc(Escaped(t.key, EscTag), [EQUALS], valueText);
    ReadWordEscaped(t.key, EscTag, [EQUALS] + valueText);
    assert ([EQUALS] + valueText)[1..] == valueText;
    ReadWordEscaped(t.value, EscTag, rest);
  }

  lemma ReadTagsStep(t: Tag, more: Text)
    requires Usable(t) && CleanTag(t) && Ends(more, EscTag)
    requires ReadTags(more).Some?
    ensures var (ts, rest) := ReadTags(more).value;
            ReadTags(TagText(t) + more) == Some(([t] + ts, rest))
  {
    Assoc([COMMA], PairText(t), more);
    assert ([COMMA] + (PairText(t) + more))[1..] == PairText(t) + more;
    ReadTagText(t, more);
  }

  lemma {:induction false} ReadTagsText(ts: seq<Tag>, rest: Text)
    requires forall t | t in ts :: Usable(t) && CleanTag(t)
    requires rest != [] && rest[0] == SPACE
    ensures ReadTags(TagsText(ts) + rest) == Some((ts, rest))
  {
    if ts == [] {
      assert TagsText(ts) + rest == rest;
    } else {
      var more := TagsText(ts[1..]) + rest;
      ReadTagsText(ts[1..], rest);
      Assoc(TagText(ts[0]), TagsText(ts[1..]), rest);
      assert Ends(more, EscTag);
      ReadTagsStep(ts[0], more);
      assert [ts[0]] + ts[1..] == ts;
    }
  }

  // ---- values ----

  predicate EndsToken(s: Text) {
    s != [] && (s[0] == COMMA || s[0] == SPACE || s[0] == LF)
  }

  predicate TokenByte(c: byte) { c != COMMA && c != SPACE && !EndsLine(c) }

  lemma {:induction false} ReadTokenWhole(token: Text, rest: Text)
    requires forall c | c in token :: TokenByte(c)
    requires EndsToken(rest)
    ensures ReadToken(token + rest) == (token, rest)
  {
    if token == [] {
      assert token + rest == rest;
    } else {
      var whole := token + rest;
      assert whole[0] == token[0] && whole[0] in token;
      assert whole[1..] == token[1..] + rest;
      ReadTokenWhole(token[1..], rest);
      assert token == [token[0]] + token[1..];
    }
  }

  lemma ClassifyInt(v: int64)
    ensures Classify(FormatInt(v) + [LOWER_I]) == Some(IntV(v))
  {
    var token := FormatInt(v) + [LOWER_I];
    assert token[..|token| - 1] == FormatInt(v);
    FormatIntParses(v);
    assert |token| > 1;
  }

  lemma ClassifyFloat(text: FloatText)
    ensures Classify(text) == Some(FloatV(Finite(text)))
  {
    assert FloatByte(text[0]) && FloatByte(text[|text| - 1]);
  }

  /** The text of a number or of a boolean is one token, and the token has one value. */
  lemma TokenOf(v: Value)
    requires !v.StringV? && !v.Other? && !v.Nil? && (v.FloatV? ==> v.f.Finite?)
    ensures forall c | c in ValueText(v) :: TokenByte(c) && c != QUOTE
    ensures ValueText(v) != []
    ensures Classify(ValueText(v)) == Some(Normal(v))
  {
    match v
    case FloatV(f) =>
      ClassifyFloat(f.text);
      assert forall c | c in f.text :: FloatByte(c);
    case IntV(i) =>
      ClassifyInt(i);
      assert forall c | c in FormatInt(i) :: IsDigit(c) || c == MINUS;
    case UintV(u, wide) =>
      if u <= MAX_INT64 {
        ClassifyInt(u);
        assert forall c | c in Digits(u) :: IsDigit(c);
      } else {
        ClassifyFloat(wide);
        assert forall c | c in wide :: FloatByte(c);
      }
    case BoolV(b) =>
  }

  lemma QuotedParts(s: Text, rest: Text)
    ensures ValueText(StringV(s)) + rest == [QUOTE] + (Escaped(s, EscString) + ([QUOTE] + rest))
  {
    Assoc([QUOTE] + Escaped(s, EscString), [QUOTE], rest);
    Assoc([QUOTE], Escaped(s, EscString), [QUOTE] + rest);
  }

  lemma ReadQuotedText(s: Text, rest: Text)
    ensures ReadValue(ValueText(StringV(s)) + rest) == Some((StringV(Flatten(s)), rest))
  {
    var close := [QUOTE] + rest;
    var inner := Escaped(s, EscString) + close;
    QuotedParts(s, rest);
    assert ([QUOTE] + inner)[0] == QUOTE && ([QUOTE] + inner)[1..] == inner;
    ReadNameEscaped(s, EscString, close);
    assert close[1..] == rest && Expect(close, QUOTE) == Some(rest);
  }

  lemma ReadPlainText(v: Value, rest: Text)
    requires FieldValid(Field([ZERO], v)) && !v.Other? && !v.StringV?
    requires EndsToken(rest)
    ensures ReadValue(ValueText(v) + rest) == Some((Normal(v), rest))
  {
    var token := ValueText(v);
    TokenOf(v);
    assert (token + rest)[0] == token[0] && token[0] in token;
    ReadTokenWhole(token, rest);
  }

  lemma ReadValueText(v: Value, rest: Text)
    requires FieldValid(Field([ZERO], v)) && !v.Other?
    requires EndsToken(rest)
    ensures ReadValue(ValueText(v) + rest) == Some((Normal(v), rest))
  {
    if v.StringV? {
      ReadQuotedText(v.s, rest);
    } else {
      ReadPlainText(v, rest);
    }
  }

  // ---- fields ----

  lemma FieldParts(f: Field, rest: Text)
    ensures FieldText(f) + rest == Escaped(f.key, EscTag) + ([EQUALS] + (ValueText(f.value) + rest))
  {
    Assoc(Escaped(f.key, EscTag) + [EQUALS], ValueText(f.value), rest);
    Assoc(Escaped(f.key, EscTag), [EQUALS], ValueText(f.value) + rest);
  }

  lemma ReadFieldText(f: Field, rest: Text)
    requires FieldValid(f) && CleanField(f) && EndsToken(rest)
    ensures ReadField(FieldText(f) + rest) == Some((Field(f.key, Normal(f.value)), rest))
  {
    var valueText := ValueText(f.value) + rest;
    FieldParts(f, rest);
    ReadWordEscaped(f.key, EscTag, [EQUALS] + valueText);
    assert ([EQUALS] + valueText)[1..] == valueText;
    ReadValueText(f.value, rest);
  }

  lemma ReadFieldsStep(f: Field, more: Text)
    requires FieldValid(f) && CleanField(f)
    requires ReadFields(more).Some?
    ensures var (fs, rest) := ReadFields(more).value;
            ReadFields(FieldText(f) + ([COMMA] + more)) == Some(([Field(f.key, Normal(f.value))] + fs, rest))
  {
    ReadFieldText(f, [COMMA] + more);
    assert ([COMMA] + more)[1..] == more;
  }

  lemma {:induction false} ReadFieldsText(fs: seq<Field>, rest: Text)
    requires fs != []
    requires forall f | f in fs :: FieldValid(f) && CleanField(f)
    requires rest != [] && (rest[0] == SPACE || rest[0] == LF)
    ensures ReadFields(FieldsText(fs) + rest) == Some((NormalFields(fs), rest))
  {
    assert fs[0] in fs;
    if |fs| == 1 {
      var field := Field(fs[0].key, Normal(fs[0].value));
      assert NormalFields(fs) == [field] by {
        assert NormalFields(fs[1..]) == [];
      }
      assert FieldsText(fs) == FieldText(fs[0]);
      ReadFieldText(fs[0], rest);
      assert ReadFields(FieldsText(fs) + rest) == Some(([field], rest));
    } else {
      var more := FieldsText(fs[1..]) + rest;
      ReadFieldsText(fs[1..], rest);
      Assoc(FieldText(fs[0]) + [COMMA], FieldsText(fs[1..]), rest);
      Assoc(FieldText(fs[0]), [COMMA], more);
      ReadFieldsStep(fs[0], more);
    }
  }

  // ---- lines and batches ----

  lemma ReadStampText(ts: Timestamp, rest: Text)
    requires rest != [] && rest[0] == LF
    ensures ReadStamp(StampText(ts) + rest) == Some((ts, rest))
  {
    if ts.ZeroTime? {
      assert StampText(ts) + rest == rest;
    } else {
      var token := FormatInt(ts.nanos);
      assert (StampText(ts) + rest)[1..] == token + rest;
      assert forall c | c in token :: IsDigit(c) || c == MINUS;
      ReadTokenWhole(token, rest);
      FormatIntParses(ts.nanos);
    }
  }

  lemma ReadLineText(base: seq<Tag>, p: Point, rest: Text)
    requires Accepted(p) && Faithful(base, p)
    ensures ReadLine(LineText(base, p) + rest) == Some((Meaning(base, p), rest))
  {
    var tags, fields := Emitted(base + p.tags), ValidFields(p.fields);
    var afterStamp := [LF] + rest;
    var afterFields := StampText(p.ts) + afterStamp;
    var fieldText := FieldsText(fields) + afterFields;
    var afterTags := [SPACE] + fieldText;
    var afterName := TagsText(tags) + afterTags;
    assert LineText(base, p) + rest == Escaped(p.measurement, EscMeasurement) + afterName by {
      LineParts(base, p, rest);
    }
    assert Ends(afterName, EscMeasurement);
    ReadWordEscaped(p.measurement, EscMeasurement, afterName);
    EmittedRefinesMap(base + p.tags);
    ReadTagsText(tags, afterTags);
    assert afterTags[1..] == fieldText;
    assert afterFields != [] && (afterFields[0] == SPACE || afterFields[0] == LF);
    ReadFieldsText(fields, afterFields);
    ReadStampText(p.ts, afterStamp);
    assert afterStamp[1..] == rest;
  }

  lemma LineParts(base: seq<Tag>, p: Point, rest: Text)
    ensures LineText(base, p) + rest
         == Escaped(p.measurement, EscMeasurement)
            + (TagsText(Emitted(base + p.tags))
               + ([SPACE] + (FieldsText(ValidFields(p.fields)) + (StampText(p.ts) + ([LF] + rest)))))
  {
    var a, b := Escaped(p.measurement, EscMeasurement), TagsText(Emitted(base + p.tags));
    var c, d := FieldsText(ValidFields(p.fields)), StampText(p.ts);
    var end := [LF] + rest;
    Assoc(LineHead(base, p) + LineTail(p), [LF], rest);
    Assoc(LineHead(base, p), LineTail(p), end);
    Assoc(a, b, LineTail(p) + end);
    Assoc([SPACE] + c, d, end);
    Assoc([SPACE], c, d + end);
  }

  lemma {:induction false} ReadBatchText(base: seq<Tag>, ps: seq<Point>)
    requires forall p | p in ps && Accepted(p) :: Faithful(base, p)
    ensures ReadBatch(BatchText(base, ps)) == Some(BatchMeaning(base, ps))
  {
    if ps != [] {
      ReadBatchText(base, ps[1..]);
      if Accepted(ps[0]) {
        assert ps[0] in ps;
        ReadLineText(base, ps[0], BatchText(base, ps[1..]));
      } else {
        assert BatchText(base, ps) == BatchText(base, ps[1..]);
        assert BatchMeaning(base, ps) == BatchMeaning(base, ps[1..]);
      }
    }
  }

  lemma {:induction false} NormalFieldsClean(fs: seq<Field>)
    ensures (forall f | f in NormalFields(fs) :: CleanField(f)) <==> (forall f | f in fs :: CleanField(f))
  {
    if fs != [] {
      NormalFieldsClean(fs[1..]);
      var head := Field(fs[0].key, Normal(fs[0].value));
      assert CleanField(head) <==> CleanField(fs[0]);
      assert forall f :: f in NormalFields(fs) <==> f == head || f in NormalFields(fs[1..]);
      assert forall f :: f in fs <==> f == fs[0] || f in fs[1..];
    }
  }

  lemma {:induction false} MeaningMembers(base: seq<Tag>, ps: seq<Point>, p: Point)
    requires p in ps && Accepted(p)
    ensures Meaning(base, p) in BatchMeaning(base, ps)
  {
    if ps[0] != p {
      MeaningMembers(base, ps[1..], p);
    }
  }

  /** The round trip of a whole batch, exactly: the buffer of any list of Point calls reads back
      as the meaning of the accepted points, in order, if and only if those points are
      faithful. */
  lemma BatchRoundTrip(base: seq<Tag>, ps: seq<Point>)
    ensures ReadBatch(BatchText(base, ps)) == Some(BatchMeaning(base, ps))
       <==> forall p | p in ps && Accepted(p) :: Faithful(base, p)
  {
    if forall p | p in ps && Accepted(p) :: Faithful(base, p) {
      ReadBatchText(base, ps);
    } else {
      var p :| p in ps && Accepted(p) && !Faithful(base, p);
      MeaningMembers(base, ps, p);
      NormalFieldsClean(ValidFields(p.fields));
      assert !CleanPoint(Meaning(base, p));
    }
  }

  /** Different tag maps give different lines, and equal maps give equal lines. */
  lemma TagsDecideTheLine(base: seq<Tag>, p: Point, q: Point)
    requires p.measurement == q.measurement && p.fields == q.fields && p.ts == q.ts
    requires Accepted(p) && Faithful(base, p) && Faithful(base, q)
    ensures LineText(base, p) == LineText(base, q)
       <==> LastWins(base + p.tags) == LastWins(base + q.tags)
  {
    EmittedEqualIffSameMap(base + p.tags, base + q.tags);
    ReadLineText(base, p, []);
    ReadLineText(base, q, []);
  }
}

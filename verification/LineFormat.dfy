/** The text of one point and of one batch in InfluxDB line protocol, as the encoder writes it. */
module LineFormat {
  import opened Bytes
  import opened TagSet

  /** A finite float is known by the text that strconv.FormatFloat gives it. */
  predicate FloatByte(c: byte) {
    IsDigit(c) || c == DOT || c == LOWER_E || c == PLUS || c == MINUS
  }

  predicate IsFloatText(s: Text) { s != [] && forall c | c in s :: FloatByte(c) }

  type FloatText = s: Text | IsFloatText(s) witness [ZERO]

  datatype Float = NaN | Infinite(negative: bool) | Finite(text: FloatText)

  /** The dynamic values of a field. `Wide` carries the text of float64(u), which is written
      when u does not fit a signed integer. `Other` is a value of any dynamic type that
      the switch of writeValue does not name, and `Nil` is no value. */
  datatype Value =
    | FloatV(f: Float)
    | IntV(i: int64)
    | UintV(u: uint64, wide: FloatText)
    | BoolV(b: bool)
    | StringV(s: Text)
    | Other(what: Text)
    | Nil

  datatype Field = Field(key: Text, value: Value)

  datatype Timestamp = ZeroTime | At(nanos: int64)

  datatype Point = Point(measurement: Text, tags: seq<Tag>, fields: seq<Field>, ts: Timestamp)

  predicate FieldValid(f: Field) {
    if f.key == [] then false
    else if f.value.FloatV? then f.value.f.Finite?
    else !f.value.Nil?
  }

  function ValidFields(fs: seq<Field>): (r: seq<Field>)
    ensures forall f | f in r :: FieldValid(f)
  {
    if fs == [] then [] else (if FieldValid(fs[0]) then [fs[0]] else []) + ValidFields(fs[1..])
  }

  /** Point writes a line for these points and for no others. */
  predicate Accepted(p: Point) {
    p.measurement != [] && ValidFields(p.fields) != []
  }

  // ---- escaping ----

  datatype EscapeClass = EscMeasurement | EscTag | EscString

  predicate Escapes(cls: EscapeClass, c: byte) {
    match cls
    case EscMeasurement => c == COMMA || c == SPACE || c == BACKSLASH
    case EscTag => c == COMMA || c == SPACE || c == EQUALS || c == BACKSLASH
    case EscString => c == QUOTE || c == BACKSLASH
  }

  predicate EndsLine(c: byte) { c == LF || c == CR }

  function EscapedByte(c: byte, cls: EscapeClass): Text {
    if EndsLine(c) then [SPACE] else if Escapes(cls, c) then [BACKSLASH, c] else [c]
  }

  function Escaped(s: Text, cls: EscapeClass): Text {
    if s == [] then [] else EscapedByte(s[0], cls) + Escaped(s[1..], cls)
  }

  // ---- lines ----

  function PairText(t: Tag): Text {
    Escaped(t.key, EscTag) + [EQUALS] + Escaped(t.value, EscTag)
  }

  function TagText(t: Tag): Text { [COMMA] + PairText(t) }

  function TagsText(ts: seq<Tag>): Text {
    if ts == [] then [] else TagText(ts[0]) + TagsText(ts[1..])
  }

  function ValueText(v: Value): Text {
    match v
    case FloatV(f) => if f.Finite? then f.text else []
    case IntV(i) => FormatInt(i) + [LOWER_I]
    case UintV(u, wide) => if u <= MAX_INT64 then Digits(u) + [LOWER_I] else wide
    case BoolV(b) => [if b then UPPER_T else UPPER_F]
    case StringV(s) => [QUOTE] + Escaped(s, EscString) + [QUOTE]
    case Other(_) => []
    case Nil => []
  }

  function FieldText(f: Field): Text {
    Escaped(f.key, EscTag) + [EQUALS] + ValueText(f.value)
  }

  function FieldsText(fs: seq<Field>): Text {
    if fs == [] then []
    else if |fs| == 1 then FieldText(fs[0])
    else FieldText(fs[0]) + [COMMA] + FieldsText(fs[1..])
  }

  function StampText(ts: Timestamp): Text {
    if ts.ZeroTime? then [] else [SPACE] + FormatInt(ts.nanos)
  }

  function LineHead(base: seq<Tag>, p: Point): Text {
    Escaped(p.measurement, EscMeasurement) + TagsText(Emitted(base + p.tags))
  }

  function LineTail(p: Point): Text {
    [SPACE] + FieldsText(ValidFields(p.fields)) + StampText(p.ts)
  }

  function LineText(base: seq<Tag>, p: Point): Text {
    LineHead(base, p) + LineTail(p) + [LF]
  }

  /** The buffer after these Point calls on an empty encoder. */
  function BatchText(base: seq<Tag>, ps: seq<Point>): Text {
    if ps == [] then []
    else (if Accepted(ps[0]) then LineText(base, ps[0]) else []) + BatchText(base, ps[1..])
  }

  function AcceptedPoints(ps: seq<Point>): seq<Point> {
    if ps == [] then []
    else (if Accepted(ps[0]) then [ps[0]] else []) + AcceptedPoints(ps[1..])
  }

  // ---- appending, which is how the loops of the encoder build these texts ----

  lemma {:induction false} EscapedAppend(s: Text, c: byte, cls: EscapeClass)
    ensures Escaped(s + [c], cls) == Escaped(s, cls) + EscapedByte(c, cls)
  {
    if s == [] {
      assert s + [c] == [c];
    } else {
      assert (s + [c])[1..] == s[1..] + [c];
      EscapedAppend(s[1..], c, cls);
    }
  }

  lemma {:induction false} TagsTextAppend(ts: seq<Tag>, t: Tag)
    ensures TagsText(ts + [t]) == TagsText(ts) + TagText(t)
  {
    if ts == [] {
      assert ts + [t] == [t];
    } else {
      assert (ts + [t])[1..] == ts[1..] + [t];
      TagsTextAppend(ts[1..], t);
    }
  }

  lemma {:induction false} FieldsTextAppend(fs: seq<Field>, f: Field)
    ensures FieldsText(fs + [f]) == FieldsText(fs) + (if fs == [] then [] else [COMMA]) + FieldText(f)
  {
    if fs == [] {
      assert fs + [f] == [f];
    } else {
      var first, rest := FieldText(fs[0]), fs[1..];
      assert (fs + [f])[1..] == rest + [f];
      assert FieldsText(fs + [f]) == first + [COMMA] + FieldsText(rest + [f]);
      if rest == [] {
        assert rest + [f] == [f] && FieldsText(fs) == first;
      } else {
        FieldsTextAppend(rest, f);
        assert FieldsText(fs) == first + [COMMA] + FieldsText(rest);
        Regroup(first + [COMMA], FieldsText(rest), [COMMA], FieldText(f), []);
      }
    }
  }

  lemma {:induction false} ValidFieldsAppend(fs: seq<Field>, f: Field)
    ensures ValidFields(fs + [f]) == ValidFields(fs) + if FieldValid(f) then [f] else []
  {
    if fs == [] {
      assert fs + [f] == [f];
    } else {
      assert (fs + [f])[1..] == fs[1..] + [f];
      ValidFieldsAppend(fs[1..], f);
      var head := if FieldValid(fs[0]) then [fs[0]] else [];
      assert ValidFields(fs + [f]) == head + ValidFields(fs[1..] + [f]);
    }
  }

  lemma {:induction false} BatchTextAppend(base: seq<Tag>, ps: seq<Point>, p: Point)
    ensures BatchText(base, ps + [p]) == BatchText(base, ps) + if Accepted(p) then LineText(base, p) else []
  {
    var last := if Accepted(p) then LineText(base, p) else [];
    if ps == [] {
      assert ps + [p] == [p];
      assert BatchText(base, [p]) == last + BatchText(base, []);
    } else {
      var first := if Accepted(ps[0]) then LineText(base, ps[0]) else [];
      assert (ps + [p])[1..] == ps[1..] + [p];
      BatchTextAppend(base, ps[1..], p);
      Assoc(first, BatchText(base, ps[1..]), last);
    }
  }

  lemma {:induction false} AcceptedAppend(ps: seq<Point>, p: Point)
    ensures AcceptedPoints(ps + [p]) == AcceptedPoints(ps) + if Accepted(p) then [p] else []
  {
    if ps == [] {
      assert ps + [p] == [p];
      assert AcceptedPoints([p]) == (if Accepted(p) then [p] else []) + AcceptedPoints([]);
    } else {
      var first := if Accepted(ps[0]) then [ps[0]] else [];
      var last := if Accepted(p) then [p] else [];
      assert (ps + [p])[1..] == ps[1..] + [p];
      AcceptedAppend(ps[1..], p);
      assert first + (AcceptedPoints(ps[1..]) + last) == first + AcceptedPoints(ps[1..]) + last;
    }
  }

  // ---- line framing, with no condition on the strings ----

  function Count(s: Text, c: byte): nat {
    if s == [] then 0 else (if s[0] == c then 1 else 0) + Count(s[1..], c)
  }

  predicate OneLine(s: Text) { forall c | c in s :: !EndsLine(c) }

  lemma {:induction false} CountConcat(a: Text, b: Text, c: byte)
    ensures Count(a + b, c) == Count(a, c) + Count(b, c)
  {
    if a == [] {
      assert a + b == b;
    } else {
      assert (a + b)[1..] == a[1..] + b;
      CountConcat(a[1..], b, c);
    }
  }

  lemma {:induction false} CountAbsent(s: Text, c: byte)
    requires c !in s
    ensures Count(s, c) == 0
  {
    if s != [] {
      CountAbsent(s[1..], c);
    }
  }

  lemma {:induction false} EscapedOneLine(s: Text, cls: EscapeClass)
    ensures OneLine(Escaped(s, cls))
  {
    if s != [] {
      EscapedOneLine(s[1..], cls);
    }
  }

  lemma {:induction false} TagsOneLine(ts: seq<Tag>)
    ensures OneLine(TagsText(ts))
  {
    if ts != [] {
      EscapedOneLine(ts[0].key, EscTag);
      EscapedOneLine(ts[0].value, EscTag);
      TagsOneLine(ts[1..]);
    }
  }

  lemma ValueOneLine(v: Value)
    ensures OneLine(ValueText(v))
  {
    match v
    case FloatV(f) =>
      if f.Finite? { assert forall c | c in f.text :: FloatByte(c); }
    case IntV(i) => assert forall c | c in FormatInt(i) :: IsDigit(c) || c == MINUS;
    case UintV(u, wide) =>
      assert forall c | c in Digits(u) :: IsDigit(c);
      assert forall c | c in wide :: FloatByte(c);
    case StringV(s) => EscapedOneLine(s, EscString);
    case _ =>
  }

  lemma {:induction false} FieldsOneLine(fs: seq<Field>)
    ensures OneLine(FieldsText(fs))
  {
    if fs != [] {
      EscapedOneLine(fs[0].key, EscTag);
      ValueOneLine(fs[0].value);
      FieldsOneLine(fs[1..]);
    }
  }

  lemma OneLineConcat(a: Text, b: Text)
    requires OneLine(a) && OneLine(b)
    ensures OneLine(a + b)
  {
  }

  lemma StampOneLine(ts: Timestamp)
    ensures OneLine(StampText(ts))
  {
    if ts.At? {
      assert forall c | c in FormatInt(ts.nanos) :: IsDigit(c) || c == MINUS;
      OneLineConcat([SPACE], FormatInt(ts.nanos));
    }
  }

  /** A line holds no line end but its last byte, for every string in the point. */
  lemma LineIsOneLine(base: seq<Tag>, p: Point)
    ensures OneLine(LineHead(base, p) + LineTail(p))
  {
    var fields := FieldsText(ValidFields(p.fields));
    EscapedOneLine(p.measurement, EscMeasurement);
    TagsOneLine(Emitted(base + p.tags));
    OneLineConcat(Escaped(p.measurement, EscMeasurement), TagsText(Emitted(base + p.tags)));
    FieldsOneLine(ValidFields(p.fields));
    StampOneLine(p.ts);
    OneLineConcat([SPACE], fields);
    OneLineConcat([SPACE] + fields, StampText(p.ts));
    OneLineConcat(LineHead(base, p), LineTail(p));
  }

  lemma LineFraming(base: seq<Tag>, p: Point)
    ensures var s := LineText(base, p);
            Count(s, LF) == 1 && CR !in s && s[|s| - 1] == LF
  {
    var body := LineHead(base, p) + LineTail(p);
    LineIsOneLine(base, p);
    CountConcat(body, [LF], LF);
    CountAbsent(body, LF);
  }

  /** Every batch is a sequence of lines: it is empty or ends in a newline, it has one newline
      per accepted point, and it has no carriage return. */
  lemma {:induction false} BatchFraming(base: seq<Tag>, ps: seq<Point>)
    ensures var s := BatchText(base, ps);
            && (s == [] || s[|s| - 1] == LF)
            && Count(s, LF) == |AcceptedPoints(ps)|
            && CR !in s
            && (s == [] <==> AcceptedPoints(ps) == [])
  {
    if ps != [] {
      BatchFraming(base, ps[1..]);
      if Accepted(ps[0]) {
        LineFraming(base, ps[0]);
        CountConcat(LineText(base, ps[0]), BatchText(base, ps[1..]), LF);
      } else {
        assert BatchText(base, ps) == BatchText(base, ps[1..]);
      }
    }
  }
}

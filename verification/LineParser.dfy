/** A reader for the lines the encoder writes: line protocol with `\` escapes, one line per
    point. It is deterministic, and total on every byte string. */
module LineParser {
  import opened Wrappers
  import opened Bytes
  import opened TagSet
  import opened LineFormat

  /** The unescaped bytes that end a name of the class. */
  predicate Stops(cls: EscapeClass, c: byte) {
    || EndsLine(c)
    || match cls
       case EscMeasurement => c == COMMA || c == SPACE
       case EscTag => c == COMMA || c == SPACE || c == EQUALS
       case EscString => c == QUOTE
  }

  /** The bytes that lose a backslash before them, by the class. */
  predicate Unescapes(cls: EscapeClass, c: byte) {
    match cls
    case EscMeasurement => c in {COMMA, SPACE, BACKSLASH}
    case EscTag => c in {COMMA, SPACE, EQUALS, BACKSLASH}
    case EscString => c in {QUOTE, BACKSLASH}
  }

  /** Reads a name up to an unescaped stop byte. A backslash before a byte that the class does
      not unescape stands for itself. */
  function ReadName(s: Text, cls: EscapeClass): (r: (Text, Text))
    ensures |r.1| <= |s|
    ensures OneLine(r.0)
  {
    if s == [] || Stops(cls, s[0]) then ([], s)
    else if s[0] == BACKSLASH && |s| > 1 && Unescapes(cls, s[1]) then
      var (name, rest) := ReadName(s[2..], cls);
      ([s[1]] + name, rest)
    else
      var (name, rest) := ReadName(s[1..], cls);
      ([s[0]] + name, rest)
  }

  /** Steps over one expected byte. */
  function Expect(s: Text, c: byte): (r: Option<Text>)
    ensures r.Some? ==> |r.value| < |s|
  {
    if s != [] && s[0] == c then Some(s[1..]) else None
  }

  /** Reads a text that is not empty. */
  function ReadWord(s: Text, cls: EscapeClass): (r: Option<(Text, Text)>)
    ensures r.Some? ==> r.value.0 != [] && OneLine(r.value.0) && |r.value.1| <= |s|
  {
    var word := ReadName(s, cls);
    if word.0 == [] then None else Some(word)
  }

  function ReadTag(s: Text): (r: Option<(Tag, Text)>)
    ensures r.Some? ==> CleanTag(r.value.0) && |r.value.1| < |s|
  {
    var (key, afterKey) :- ReadWord(s, EscTag);
    var valueText :- Expect(afterKey, EQUALS);
    var (value, rest) :- ReadWord(valueText, EscTag);
    Some((Tag(key, value), rest))
  }

  /** Zero or more tags, each after a comma. */
  function ReadTags(s: Text): (r: Option<(seq<Tag>, Text)>)
    ensures r.Some? ==> |r.value.1| <= |s|
    ensures r.Some? ==> forall t | t in r.value.0 :: CleanTag(t)
    decreases |s|
  {
    if s == [] || s[0] != COMMA then Some(([], s))
    else
      var (tag, afterTag) :- ReadTag(s[1..]);
      var (tags, rest) :- ReadTags(afterTag);
      Some(([tag] + tags, rest))
  }

  /** A token ends at a comma, a space or a line end. */
  function ReadToken(s: Text): (r: (Text, Text))
    ensures |r.1| <= |s|
  {
    if s == [] || s[0] == COMMA || s[0] == SPACE || EndsLine(s[0]) then ([], s)
    else
      var (token, rest) := ReadToken(s[1..]);
      ([s[0]] + token, rest)
  }

  function ReadInt64(token: Text): Option<int64> {
    var v :- ParseInt(token);
    if MIN_INT64 <= v <= MAX_INT64 then Some(v) else None
  }

  function Classify(token: Text): (r: Option<Value>)
    ensures r.Some? ==> !r.value.Other?
  {
    if token == [UPPER_T] then Some(BoolV(true))
    else if token == [UPPER_F] then Some(BoolV(false))
    else if token != [] && token[|token| - 1] == LOWER_I then
      var v :- ReadInt64(token[..|token| - 1]);
      Some(IntV(v))
    else if IsFloatText(token) then Some(FloatV(Finite(token)))
    else None
  }

  function ReadValue(s: Text): (r: Option<(Value, Text)>)
    ensures r.Some? ==> !r.value.0.Other? && |r.value.1| <= |s|
  {
    if s != [] && s[0] == QUOTE then
      var (str, afterText) := ReadName(s[1..], EscString);
      var rest :- Expect(afterText, QUOTE);
      Some((StringV(str), rest))
    else
      var (token, rest) := ReadToken(s);
      var v :- Classify(token);
      Some((v, rest))
  }

  function ReadField(s: Text): (r: Option<(Field, Text)>)
    ensures r.Some? ==> CleanField(r.value.0) && |r.value.1| < |s|
  {
    var (key, afterKey) :- ReadWord(s, EscTag);
    var valueText :- Expect(afterKey, EQUALS);
    var (value, rest) :- ReadValue(valueText);
    Some((Field(key, value), rest))
  }

  /** One or more fields. */
  function ReadFields(s: Text): (r: Option<(seq<Field>, Text)>)
    ensures r.Some? ==> |r.value.1| < |s|
    ensures r.Some? ==> forall f | f in r.value.0 :: CleanField(f)
    decreases |s|
  {
    var (field, rest) :- ReadField(s);
    if rest != [] && rest[0] == COMMA then
      var (fields, end) :- ReadFields(rest[1..]);
      Some(([field] + fields, end))
    else
      Some(([field], rest))
  }

  function ReadStamp(s: Text): (r: Option<(Timestamp, Text)>)
    ensures r.Some? ==> |r.value.1| <= |s|
  {
    if s == [] || s[0] != SPACE then Some((ZeroTime, s))
    else
      var (token, rest) := ReadToken(s[1..]);
      var v :- ReadInt64(token);
      Some((At(v), rest))
  }

  function ReadLine(s: Text): (r: Option<(Point, Text)>)
    ensures r.Some? ==> CleanPoint(r.value.0) && |r.value.1| < |s|
  {
    var (measurement, afterName) :- ReadWord(s, EscMeasurement);
    var (tags, afterTags) :- ReadTags(afterName);
    var fieldText :- Expect(afterTags, SPACE);
    var (fields, afterFields) :- ReadFields(fieldText);
    var (ts, afterStamp) :- ReadStamp(afterFields);
    var rest :- Expect(afterStamp, LF);
    Some((Point(measurement, tags, fields, ts), rest))
  }

  function ReadBatch(s: Text): (r: Option<seq<Point>>)
    ensures r.Some? ==> forall p | p in r.value :: CleanPoint(p)
    decreases |s|
  {
    if s == [] then Some([])
    else
      var (p, rest) :- ReadLine(s);
      var ps :- ReadBatch(rest);
      Some([p] + ps)
  }

  // ---- what a line can carry ----

  predicate CleanTag(t: Tag) { OneLine(t.key) && OneLine(t.value) }

  predicate CleanField(f: Field) { OneLine(f.key) && !f.value.Other? }

  /** No line end in a name, and every value of a type the encoder knows. */
  predicate CleanPoint(p: Point) {
    && OneLine(p.measurement)
    && (forall t | t in p.tags :: CleanTag(t))
    && (forall f | f in p.fields :: CleanField(f))
  }
}

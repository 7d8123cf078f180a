/** The encoder: one buffer, reused over the collection cycles, and the loops that fill it. */
module LineEncoder {
  import opened Bytes
  import opened TagSet
  import opened LineFormat
  import opened LineParser
  import opened RoundTrip
  import opened Wrappers

  /** A byte slice: the first `len` cells of an array that somebody else may own. */
  datatype Slice = Slice(cells: array<byte>, len: nat) {
    ghost predicate Valid() { len <= cells.Length }

    ghost function Contents(): Text
      requires Valid()
      reads cells
    {
      cells[..len]
    }
  }

  /** A growing byte buffer, as bytes.Buffer. Reset keeps the storage, so a slice handed out
      before it shares its cells with whatever is written next. */
  class Buffer {
    var data: array<byte>
    var len: nat

    ghost predicate Valid()
      reads this
    {
      len <= data.Length
    }

    ghost function Contents(): Text
      requires Valid()
      reads this, data
    {
      data[..len]
    }

    constructor ()
      ensures Valid() && fresh(data)
      ensures Contents() == []
    {
      data := new byte[0];
      len := 0;
    }

    method WriteByte(b: byte)
      requires Valid()
      modifies this, data
      ensures Valid() && (data == old(data) || fresh(data))
      ensures Contents() == old(Contents()) + [b]
    {
      if len == data.Length {
        var bigger := new byte[2 * len + 64];
        forall i | 0 <= i < len {
          bigger[i] := data[i];
        }
        data := bigger;
      }
      data[len] := b;
      len := len + 1;
    }

    method WriteString(s: Text)
      requires Valid()
      modifies this, data
      ensures Valid() && (data == old(data) || fresh(data))
      ensures Contents() == old(Contents()) + s
    {
      for i := 0 to |s|
        invariant Valid() && (data == old(data) || fresh(data))
        invariant Contents() == old(Contents()) + s[..i]
      {
        WriteByte(s[i]);
      }
    }

    method Reset()
      requires Valid()
      modifies this
      ensures Valid() && data == old(data)
      ensures Contents() == []
    {
      len := 0;
    }
  }

  method WriteEscapedByte(buf: Buffer, c: byte, cls: EscapeClass)
    requires buf.Valid()
    modifies buf, buf.data
    ensures buf.Valid() && (buf.data == old(buf.data) || fresh(buf.data))
    ensures buf.Contents() == old(buf.Contents()) + EscapedByte(c, cls)
  {
    if c == LF || c == CR {
      buf.WriteByte(SPACE);
      return;
    }
    if Escapes(cls, c) {
      buf.WriteByte(BACKSLASH);
    }
    buf.WriteByte(c);
  }

  method WriteEscaped(buf: Buffer, s: Text, cls: EscapeClass)
    requires buf.Valid()
    modifies buf, buf.data
    ensures buf.Valid() && (buf.data == old(buf.data) || fresh(buf.data))
    ensures buf.Contents() == old(buf.Contents()) + Escaped(s, cls)
  {
    ghost var before := buf.Contents();
    for i := 0 to |s|
      invariant buf.Valid() && (buf.data == old(buf.data) || fresh(buf.data))
      invariant buf.Contents() == before + Escaped(s[..i], cls)
    {
      WriteEscapedByte(buf, s[i], cls);
      EscapedAppend(s[..i], s[i], cls);
      assert s[..i + 1] == s[..i] + [s[i]];
      Assoc(before, Escaped(s[..i], cls), EscapedByte(s[i], cls));
    }
    assert s[..|s|] == s;
  }

  method WriteQuoted(buf: Buffer, s: Text)
    requires buf.Valid()
    modifies buf, buf.data
    ensures buf.Valid() && (buf.data == old(buf.data) || fresh(buf.data))
    ensures buf.Contents() == old(buf.Contents()) + ([QUOTE] + Escaped(s, EscString) + [QUOTE])
  {
    ghost var before := buf.Contents();
    buf.WriteByte(QUOTE);
    WriteEscaped(buf, s, EscString);
    buf.WriteByte(QUOTE);
    Regroup(before, [QUOTE], Escaped(s, EscString), [QUOTE], []);
  }

  method WriteValue(buf: Buffer, v: Value)
    requires buf.Valid() && FieldValid(Field([ZERO], v))
    modifies buf, buf.data
    ensures buf.Valid() && (buf.data == old(buf.data) || fresh(buf.data))
    ensures buf.Contents() == old(buf.Contents()) + ValueText(v)
  {
    ghost var before := buf.Contents();
    match v
    case FloatV(f) =>
      buf.WriteString(f.text);
    case IntV(i) =>
      buf.WriteString(FormatInt(i));
      buf.WriteByte(LOWER_I);
      Assoc(before, FormatInt(i), [LOWER_I]);
    case UintV(u, wide) =>
      if u <= MAX_INT64 {
        buf.WriteString(Digits(u));
        buf.WriteByte(LOWER_I);
        Assoc(before, Digits(u), [LOWER_I]);
      } else {
        buf.WriteString(wide);
      }
    case BoolV(b) =>
      buf.WriteByte(if b then UPPER_T else UPPER_F);
    case StringV(s) =>
      WriteQuoted(buf, s);
    case Other(_) =>
  }

  method WriteTag(buf: Buffer, t: Tag)
    requires buf.Valid()
    modifies buf, buf.data
    ensures buf.Valid() && (buf.data == old(buf.data) || fresh(buf.data))
    ensures buf.Contents() == old(buf.Contents()) + TagText(t)
  {
    ghost var before := buf.Contents();
    buf.WriteByte(COMMA);
    WriteEscaped(buf, t.key, EscTag);
    buf.WriteByte(EQUALS);
    WriteEscaped(buf, t.value, EscTag);
    Regroup(before + [COMMA], Escaped(t.key, EscTag), [EQUALS], Escaped(t.value, EscTag), []);
    Assoc(before, [COMMA], PairText(t));
  }

  method WriteField(buf: Buffer, f: Field)
    requires buf.Valid() && FieldValid(f)
    modifies buf, buf.data
    ensures buf.Valid() && (buf.data == old(buf.data) || fresh(buf.data))
    ensures buf.Contents() == old(buf.Contents()) + FieldText(f)
  {
    ghost var before := buf.Contents();
    WriteEscaped(buf, f.key, EscTag);
    buf.WriteByte(EQUALS);
    WriteValue(buf, f.value);
    Regroup(before, Escaped(f.key, EscTag), [EQUALS], ValueText(f.value), []);
  }

  method WriteStamp(buf: Buffer, ts: Timestamp)
    requires buf.Valid()
    modifies buf, buf.data
    ensures buf.Valid() && (buf.data == old(buf.data) || fresh(buf.data))
    ensures buf.Contents() == old(buf.Contents()) + StampText(ts)
  {
    ghost var before := buf.Contents();
    if ts.At? {
      buf.WriteByte(SPACE);
      buf.WriteString(FormatInt(ts.nanos));
      Assoc(before, [SPACE], FormatInt(ts.nanos));
    }
  }

  class Encoder {
    const base: seq<Tag>
    const buf: Buffer
    var points: nat
    var scratch: seq<Tag>
    /** The Point calls since the last Reset. */
    ghost var calls: seq<Point>

    ghost predicate Valid()
      reads this, buf, buf.data
    {
      && buf.Valid()
      && buf.Contents() == BatchText(base, calls)
      && points == |AcceptedPoints(calls)|
    }

    ghost function Contents(): Text
      requires Valid()
      reads this, buf, buf.data
    {
      buf.Contents()
    }

    constructor (base: seq<Tag>)
      ensures Valid() && fresh(buf) && fresh(buf.data)
      ensures this.base == base && calls == [] && Contents() == [] && points == 0
    {
      this.base := base;
      buf := new Buffer();
      points := 0;
      scratch := [];
      calls := [];
    }

    /** Appends one line, or drops the point. The buffer is afterwards the batch of one more
        call; a dropped point leaves buffer and count as they were. */
    method Point(measurement: Text, tags: seq<Tag>, fields: seq<Field>, ts: Timestamp)
      requires Valid()
      modifies this, buf, buf.data
      ensures Valid() && (buf.data == old(buf.data) || fresh(buf.data))
      ensures calls == old(calls) + [LineFormat.Point(measurement, tags, fields, ts)]
      ensures var p := LineFormat.Point(measurement, tags, fields, ts);
              && Contents() == old(Contents()) + (if Accepted(p) then LineText(base, p) else [])
              && points == old(points) + if Accepted(p) then 1 else 0
    {
      ghost var p := LineFormat.Point(measurement, tags, fields, ts);
      BatchTextAppend(base, calls, p);
      AcceptedAppend(calls, p);
      calls := calls + [p];
      if measurement == [] {
        return;
      }
      var valid := CountValid(fields);
      if valid == 0 {
        return;
      }

      WriteLine(measurement, tags, fields, ts);
      points := points + 1;
    }

    method WriteLine(measurement: Text, tags: seq<Tag>, fields: seq<Field>, ts: Timestamp)
      requires buf.Valid()
      modifies `scratch, buf, buf.data
      ensures buf.Valid() && (buf.data == old(buf.data) || fresh(buf.data))
      ensures buf.Contents() == old(buf.Contents()) + LineText(base, LineFormat.Point(measurement, tags, fields, ts))
    {
      ghost var p := LineFormat.Point(measurement, tags, fields, ts);
      ghost var before, head := buf.Contents(), LineHead(base, p);
      FillScratch(tags);
      WriteHead(measurement);
      buf.WriteByte(SPACE);
      WriteFields(fields);
      WriteStamp(buf, ts);
      buf.WriteByte(LF);
      Regroup(before + head, [SPACE], FieldsText(ValidFields(fields)), StampText(ts), []);
      Regroup(before, head, LineTail(p), [LF], []);
    }

    method WriteHead(measurement: Text)
      requires buf.Valid()
      modifies buf, buf.data
      ensures buf.Valid() && (buf.data == old(buf.data) || fresh(buf.data))
      ensures buf.Contents() == old(buf.Contents())
                                + (Escaped(measurement, EscMeasurement) + TagsText(DropOverridden(scratch)))
    {
      ghost var before := buf.Contents();
      WriteEscaped(buf, measurement, EscMeasurement);
      WriteTags();
      Assoc(before, Escaped(measurement, EscMeasurement), TagsText(DropOverridden(scratch)));
    }

    method CountValid(fields: seq<Field>) returns (valid: nat)
      ensures valid == |ValidFields(fields)|
    {
      valid := 0;
      for i := 0 to |fields|
        invariant valid == |ValidFields(fields[..i])|
      {
        assert fields[..i + 1] == fields[..i] + [fields[i]];
        ValidFieldsAppend(fields[..i], fields[i]);
        if FieldValid(fields[i]) {
          valid := valid + 1;
        }
      }
      assert fields[..|fields|] == fields;
    }

    /** Refills the scratch list with the usable base tags, then with the usable tags of the
        point, and sorts it. */
    method FillScratch(tags: seq<Tag>)
      modifies `scratch
      ensures scratch == StableSort(NonEmpty(base + tags))
    {
      scratch := [];
      CopyUsable(base);
      assert scratch == NonEmpty(base);
      CopyUsable(tags);
      NonEmptyConcat(base, tags);
      scratch := StableSort(scratch);
    }

    method CopyUsable(tags: seq<Tag>)
      modifies `scratch
      ensures scratch == old(scratch) + NonEmpty(tags)
    {
      for i := 0 to |tags|
        invariant scratch == old(scratch) + NonEmpty(tags[..i])
      {
        assert tags[..i + 1] == tags[..i] + [tags[i]];
        NonEmptyAppend(tags[..i], tags[i]);
        if tags[i].key != [] && tags[i].value != [] {
          scratch := scratch + [tags[i]];
        }
      }
      assert tags[..|tags|] == tags;
    }

    method WriteTags()
      requires buf.Valid()
      modifies buf, buf.data
      ensures buf.Valid() && (buf.data == old(buf.data) || fresh(buf.data))
      ensures buf.Contents() == old(buf.Contents()) + TagsText(DropOverridden(scratch))
    {
      ghost var before := buf.Contents();
      ghost var written: seq<Tag> := [];
      for i := 0 to |scratch|
        invariant buf.Valid() && (buf.data == old(buf.data) || fresh(buf.data))
        invariant buf.Contents() == before + TagsText(written)
        invariant written + DropOverridden(scratch[i..]) == DropOverridden(scratch)
      {
        var t := scratch[i];
        DropAt(scratch, i, written);
        if i + 1 < |scratch| && scratch[i + 1].key == t.key {
          continue;
        }
        WriteTag(buf, t);
        TagsTextAppend(written, t);
        Assoc(before, TagsText(written), TagText(t));
        written := written + [t];
      }
      assert written == DropOverridden(scratch);
    }

    method WriteFields(fields: seq<Field>)
      requires buf.Valid()
      modifies buf, buf.data
      ensures buf.Valid() && (buf.data == old(buf.data) || fresh(buf.data))
      ensures buf.Contents() == old(buf.Contents()) + FieldsText(ValidFields(fields))
    {
      ghost var before := buf.Contents();
      var first := true;
      for i := 0 to |fields|
        invariant buf.Valid() && (buf.data == old(buf.data) || fresh(buf.data))
        invariant first <==> ValidFields(fields[..i]) == []
        invariant buf.Contents() == before + FieldsText(ValidFields(fields[..i]))
      {
        var f := fields[i];
        assert fields[..i + 1] == fields[..i] + [f];
        ValidFieldsAppend(fields[..i], f);
        ghost var done := ValidFields(fields[..i]);
        if !FieldValid(f) {
          assert ValidFields(fields[..i + 1]) == done;
          continue;
        }
        FieldsTextAppend(done, f);
        WriteNextField(f, first);
        Assoc(before, FieldsText(done), (if first then [] else [COMMA]) + FieldText(f));
        Assoc(FieldsText(done), if first then [] else [COMMA], FieldText(f));
        first := false;
      }
      assert fields[..|fields|] == fields;
    }

    method WriteNextField(f: Field, first: bool)
      requires buf.Valid() && FieldValid(f)
      modifies buf, buf.data
      ensures buf.Valid() && (buf.data == old(buf.data) || fresh(buf.data))
      ensures buf.Contents() == old(buf.Contents()) + ((if first then [] else [COMMA]) + FieldText(f))
    {
      if !first {
        buf.WriteByte(COMMA);
        Assoc(old(buf.Contents()), [COMMA], FieldText(f));
      }
      WriteField(buf, f);
    }

    /** Hands out the cells of the buffer themselves, not a copy. */
    method Bytes() returns (r: Slice)
      requires Valid()
      ensures r.Valid() && r.cells == buf.data && r.Contents() == Contents()
    {
      r := Slice(buf.data, buf.len);
    }

    function Len(): (n: nat)
      requires Valid()
      reads this, buf, buf.data
      ensures n == |Contents()|
      ensures n == 0 <==> points == 0
    {
      BatchFraming(base, calls);
      buf.len
    }

    method Reset()
      requires Valid()
      modifies this, buf
      ensures Valid() && buf.data == old(buf.data)
      ensures calls == [] && Contents() == [] && points == 0
    {
      buf.Reset();
      points := 0;
      calls := [];
    }
  }

  /** In every state that calls of Point and Reset can reach, the cells of the buffer are a
      whole number of lines, one for each counted point. */
  lemma BufferIsFramed(e: Encoder)
    requires e.Valid()
    ensures e.Contents() == [] || e.Contents()[|e.Contents()| - 1] == LF
    ensures Count(e.Contents(), LF) == e.points
    ensures CR !in e.Contents()
  {
    BatchFraming(e.base, e.calls);
  }

  /** And the cells read back as the meaning of the points accepted since Reset, exactly when
      these points are faithful. */
  lemma BufferReadsBack(e: Encoder)
    requires e.Valid()
    ensures ReadBatch(e.Contents()) == Some(BatchMeaning(e.base, e.calls))
       <==> forall p | p in e.calls && Accepted(p) :: Faithful(e.base, p)
  {
    BatchRoundTrip(e.base, e.calls);
  }
}

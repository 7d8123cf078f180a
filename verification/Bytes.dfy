/** Byte strings: the order Go uses on strings, and decimal numbers as text. */
module Bytes {
  import opened Wrappers

  newtype byte = x: int | 0 <= x < 256

  /** A Go string or byte slice: any bytes at all. */
  type Text = seq<byte>

  const NUL: byte := 0
  const LF: byte := '\n' as int as byte
  const CR: byte := '\r' as int as byte
  const SPACE: byte := ' ' as int as byte
  const QUOTE: byte := '\"' as int as byte
  const PLUS: byte := '+' as int as byte
  const COMMA: byte := ',' as int as byte
  const MINUS: byte := '-' as int as byte
  const DOT: byte := '.' as int as byte
  const ZERO: byte := '0' as int as byte
  const EQUALS: byte := '=' as int as byte
  const UPPER_F: byte := 'F' as int as byte
  const UPPER_T: byte := 'T' as int as byte
  const BACKSLASH: byte := '\\' as int as byte
  const LOWER_E: byte := 'e' as int as byte
  const LOWER_I: byte := 'i' as int as byte

  const MAX_INT64 := 0x7fff_ffff_ffff_ffff
  const MIN_INT64 := -0x8000_0000_0000_0000

  type int64 = x: int | MIN_INT64 <= x <= MAX_INT64
  type uint64 = x: int | 0 <= x < 0x1_0000_0000_0000_0000

  /** Go's `<` on strings: byte by byte, a proper prefix first. */
  predicate Less(a: Text, b: Text) {
    b != [] && (a == [] || a[0] < b[0] || (a[0] == b[0] && Less(a[1..], b[1..])))
  }

  /** The texts agree up to position k, where the first one ends or has the smaller byte. */
  predicate SmallerAt(a: Text, b: Text, k: nat) {
    k <= |a| && k < |b| && a[..k] == b[..k] && (k == |a| || a[k] < b[k])
  }

  lemma {:induction false} LessHasPosition(a: Text, b: Text) returns (k: nat)
    requires Less(a, b)
    ensures SmallerAt(a, b, k)
  {
    if a == [] || a[0] < b[0] {
      k := 0;
    } else {
      var j := LessHasPosition(a[1..], b[1..]);
      k := j + 1;
      assert a[..k] == [a[0]] + a[1..][..j] && b[..k] == [b[0]] + b[1..][..j];
    }
  }

  lemma {:induction false} PositionMeansLess(a: Text, b: Text, k: nat)
    requires SmallerAt(a, b, k)
    ensures Less(a, b)
    decreases k
  {
    if k > 0 {
      assert a[0] == a[..k][0] == b[..k][0] == b[0];
      assert a[1..][..k - 1] == a[..k][1..] && b[1..][..k - 1] == b[..k][1..];
      PositionMeansLess(a[1..], b[1..], k - 1);
    }
  }

  /** The order is decided at the first position where the texts differ. */
  lemma LessIsByteOrder(a: Text, b: Text)
    ensures Less(a, b) <==> exists k: nat :: SmallerAt(a, b, k)
  {
    if Less(a, b) {
      var k := LessHasPosition(a, b);
    }
    if k: nat :| SmallerAt(a, b, k) {
      PositionMeansLess(a, b, k);
    }
  }

  lemma {:induction false} LessTotal(a: Text, b: Text)
    ensures Less(a, b) || a == b || Less(b, a)
  {
    if a != [] && b != [] && a[0] == b[0] {
      LessTotal(a[1..], b[1..]);
      if a[1..] == b[1..] {
        assert a == [a[0]] + a[1..] && b == [b[0]] + b[1..];
      }
    }
  }

  lemma {:induction false} LessTransitive(a: Text, b: Text, c: Text)
    requires Less(a, b) && Less(b, c)
    ensures Less(a, c)
  {
    if a != [] && a[0] == b[0] && b[0] == c[0] {
      LessTransitive(a[1..], b[1..], c[1..]);
    }
  }

  lemma {:induction false} LessIrreflexive(a: Text)
    ensures !Less(a, a)
  {
    if a != [] {
      LessIrreflexive(a[1..]);
    }
  }

  lemma Assoc(a: Text, b: Text, c: Text)
    ensures (a + b) + c == a + (b + c)
  {
  }

  lemma Regroup(s: Text, a: Text, b: Text, c: Text, d: Text)
    ensures s + a + b + c == s + (a + b + c)
    ensures s + a + b + c + d == s + (a + b + c + d)
  {
    Assoc(s, a, b);
    Assoc(s, a + b, c);
    Assoc(s, a + b + c, d);
  }

  predicate IsDigit(c: byte) { ZERO <= c <= ZERO + 9 }

  /** The decimal text of a natural number, as strconv.FormatUint prints it. */
  function Digits(n: nat): (s: Text)
    ensures s != []
    ensures forall c | c in s :: IsDigit(c)
    ensures s[0] == ZERO <==> n == 0
    ensures n == 0 ==> |s| == 1
  {
    if n < 10 then [ZERO + n as byte] else Digits(n / 10) + [ZERO + (n % 10) as byte]
  }

  /** The decimal text of an integer, as strconv.FormatInt prints it. */
  function FormatInt(v: int): (s: Text)
    ensures s != []
    ensures forall c | c in s :: IsDigit(c) || c == MINUS
  {
    if v < 0 then [MINUS] + Digits(-v) else Digits(v)
  }

  function ParseNat(s: Text): Option<nat> {
    if s == [] || !IsDigit(s[|s| - 1]) then None
    else if |s| == 1 then Some((s[0] - ZERO) as int)
    else
      var high :- ParseNat(s[..|s| - 1]);
      Some(high * 10 + (s[|s| - 1] - ZERO) as int)
  }

  function ParseInt(s: Text): Option<int> {
    if s != [] && s[0] == MINUS then
      var n: int :- ParseNat(s[1..]);
      Some(-n)
    else
      ParseNat(s)
  }

  lemma {:induction false} DigitsParse(n: nat)
    ensures ParseNat(Digits(n)) == Some(n)
  {
    if n >= 10 {
      DigitsParse(n / 10);
      var s := Digits(n);
      assert s[..|s| - 1] == Digits(n / 10);
    }
  }

  lemma MinusParses(v: int)
    requires v < 0
    ensures ParseInt([MINUS] + Digits(-v)) == Some(v)
  {
    DigitsParse(-v);
    assert ([MINUS] + Digits(-v))[1..] == Digits(-v);
  }

  lemma FormatIntParses(v: int)
    ensures ParseInt(FormatInt(v)) == Some(v)
  {
    if v < 0 {
      MinusParses(v);
    } else {
      DigitsParse(v);
      assert Digits(v)[0] in Digits(v);
    }
  }

  lemma LastNul(d: Text, m: nat)
    ensures var s := d + [NUL] + Digits(m);
            s[|d|] == NUL && forall i | |d| < i < |s| :: s[i] != NUL
  {
    var s := d + [NUL] + Digits(m);
    forall i | |d| < i < |s|
      ensures s[i] != NUL
    {
      assert s[i] == Digits(m)[i - |d| - 1] && s[i] in Digits(m);
    }
  }

  /** A text, a NUL and a decimal number: the number never holds a NUL, so the last NUL of
      the whole splits it again, whatever bytes the text holds. */
  lemma NulSplitInjective(d: Text, m: nat, e: Text, n: nat)
    requires d + [NUL] + Digits(m) == e + [NUL] + Digits(n)
    ensures d == e && m == n
  {
    var s, t := d + [NUL] + Digits(m), e + [NUL] + Digits(n);
    LastNul(d, m);
    LastNul(e, n);
    assert |d| == |e|;
    assert d == s[..|d|] && e == t[..|e|];
    assert Digits(m) == s[|d| + 1..] && Digits(n) == t[|e| + 1..];
    DigitsParse(m);
    DigitsParse(n);
  }
}

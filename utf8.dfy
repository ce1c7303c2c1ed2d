/**
 * Well-formed UTF-8 as defined by the syntax in section 4 of RFC 3629: the check
 * behind the status code of the `log` system call.
 */
module Utf8 {
  import opened Memory

  /** UTF8-tail = %x80-BF */
  predicate IsTail(b: Byte) {
    0x80 <= b <= 0xBF
  }

  /**
   * The length of the UTF8-char that `s` starts with, or 0 when `s` does not
   * start with one.
   */
  function HeadLength(s: seq<Byte>): (n: nat)
    ensures n <= |s| && n <= 4
    ensures n > 0 ==> |s| > 0
  {
    if |s| == 0 then 0
    else
      var b := s[0];
      if b <= 0x7F then 1
      else if 0xC2 <= b <= 0xDF then
        if |s| >= 2 && IsTail(s[1]) then 2 else 0
      else if b == 0xE0 then
        if |s| >= 3 && 0xA0 <= s[1] <= 0xBF && IsTail(s[2]) then 3 else 0
      else if 0xE1 <= b <= 0xEC || 0xEE <= b <= 0xEF then
        if |s| >= 3 && IsTail(s[1]) && IsTail(s[2]) then 3 else 0
      else if b == 0xED then
        if |s| >= 3 && 0x80 <= s[1] <= 0x9F && IsTail(s[2]) then 3 else 0
      else if b == 0xF0 then
        if |s| >= 4 && 0x90 <= s[1] <= 0xBF && IsTail(s[2]) && IsTail(s[3]) then 4 else 0
      else if 0xF1 <= b <= 0xF3 then
        if |s| >= 4 && IsTail(s[1]) && IsTail(s[2]) && IsTail(s[3]) then 4 else 0
      else if b == 0xF4 then
        if |s| >= 4 && 0x80 <= s[1] <= 0x8F && IsTail(s[2]) && IsTail(s[3]) then 4 else 0
      else 0
  }

  /** UTF8-octets = *( UTF8-char ) */
  predicate WellFormed(s: seq<Byte>)
    decreases |s|
  {
    |s| == 0 || (HeadLength(s) > 0 && WellFormed(s[HeadLength(s)..]))
  }

  /** A Unicode scalar value: a code point that is not a surrogate. */
  predicate IsScalarValue(c: nat) {
    c <= 0x10FFFF && !(0xD800 <= c <= 0xDFFF)
  }

  /** The UTF-8 encoding of one scalar value (the table in section 3 of RFC 3629). */
  function EncodeScalar(c: nat): (s: seq<Byte>)
    requires IsScalarValue(c)
    ensures 1 <= |s| <= 4
  {
    if c < 0x80 then [c]
    else if c < 0x800 then [0xC0 + c / 0x40, 0x80 + c % 0x40]
    else if c < 0x10000 then [0xE0 + c / 0x1000, 0x80 + c / 0x40 % 0x40, 0x80 + c % 0x40]
    else [0xF0 + c / 0x40000, 0x80 + c / 0x1000 % 0x40, 0x80 + c / 0x40 % 0x40, 0x80 + c % 0x40]
  }

  predicate AllScalarValues(cs: seq<nat>) {
    forall i :: 0 <= i < |cs| ==> IsScalarValue(cs[i])
  }

  /** The UTF-8 encoding of a string of scalar values. */
  function Encode(cs: seq<nat>): seq<Byte>
    requires AllScalarValues(cs)
  {
    if cs == [] then [] else EncodeScalar(cs[0]) + Encode(cs[1..])
  }

  /** The encoding of a scalar value is read back as exactly one UTF8-char. */
  lemma EncodeScalarIsOneChar(c: nat, rest: seq<Byte>)
    requires IsScalarValue(c)
    ensures HeadLength(EncodeScalar(c) + rest) == |EncodeScalar(c)|
  {
    if c >= 0x10000 {
      FourByteHead(c, rest);
    } else if c >= 0x800 {
      ThreeByteHead(c, rest);
    }
  }

  /** A scalar value from U+10000 on is read back as one 4-byte UTF8-char. */
  lemma FourByteHead(c: nat, rest: seq<Byte>)
    requires 0x10000 <= c <= 0x10FFFF
    ensures HeadLength(EncodeScalar(c) + rest) == 4
  {
    var s := EncodeScalar(c) + rest;
    assert s[0] == 0xF0 + c / 0x40000 && s[1] == 0x80 + c / 0x1000 % 0x40;
    assert IsTail(s[2]) && IsTail(s[3]);
    assert 0xF0 <= s[0] <= 0xF4;
    assert s[0] == 0xF0 ==> 0x90 <= s[1];
    assert s[0] == 0xF4 ==> s[1] <= 0x8F;
  }

  /** A scalar value from U+0800 to U+FFFF is read back as one 3-byte UTF8-char. */
  lemma ThreeByteHead(c: nat, rest: seq<Byte>)
    requires 0x800 <= c < 0x10000 && !(0xD800 <= c <= 0xDFFF)
    ensures HeadLength(EncodeScalar(c) + rest) == 3
  {
    var s := EncodeScalar(c) + rest;
    assert s[0] == 0xE0 + c / 0x1000 && s[1] == 0x80 + c / 0x40 % 0x40;
    assert IsTail(s[2]);
    assert s[0] == 0xE0 ==> 0xA0 <= s[1];
    assert s[0] == 0xED ==> s[1] <= 0x9F;
  }

  /** Every string of scalar values encodes to well-formed UTF-8. */
  lemma {:induction false} EncodeIsWellFormed(cs: seq<nat>)
    requires AllScalarValues(cs)
    ensures WellFormed(Encode(cs))
  {
    if cs != [] {
      var e, rest := EncodeScalar(cs[0]), Encode(cs[1..]);
      EncodeScalarIsOneChar(cs[0], rest);
      assert (e + rest)[|e|..] == rest;
      EncodeIsWellFormed(cs[1..]);
    }
  }

  /** Well-formed UTF-8 followed by well-formed UTF-8 is well-formed. */
  lemma {:induction false} WellFormedConcat(a: seq<Byte>, b: seq<Byte>)
    requires WellFormed(a) && WellFormed(b)
    ensures WellFormed(a + b)
    decreases |a|
  {
    if a == [] {
      assert a + b == b;
    } else {
      var n := HeadLength(a);
      HeadLengthExtends(a, b);
      assert (a + b)[n..] == a[n..] + b;
      WellFormedConcat(a[n..], b);
    }
  }

  /** What the head of a sequence decodes to does not depend on what follows it. */
  lemma HeadLengthExtends(a: seq<Byte>, b: seq<Byte>)
    requires HeadLength(a) > 0
    ensures HeadLength(a + b) == HeadLength(a)
  {
    assert forall i :: 0 <= i < |a| ==> (a + b)[i] == a[i];
  }

  /** The scalar value of the UTF8-char `s` starts with: the bit layout of section 3 of RFC 3629, read back. */
  function HeadValue(s: seq<Byte>): nat
    requires HeadLength(s) > 0
  {
    var n := HeadLength(s);
    var b: seq<int> := s[..n];
    if n == 1 then b[0]
    else if n == 2 then (b[0] - 0xC0) * 0x40 + (b[1] - 0x80)
    else if n == 3 then (b[0] - 0xE0) * 0x1000 + (b[1] - 0x80) * 0x40 + (b[2] - 0x80)
    else (b[0] - 0xF0) * 0x40000 + (b[1] - 0x80) * 0x1000 + (b[2] - 0x80) * 0x40 + (b[3] - 0x80)
  }

  /** A 2-byte UTF8-char holds a scalar value from U+0080 to U+07FF and is its encoding. */
  lemma TwoByteValue(s: seq<Byte>)
    requires HeadLength(s) == 2
    ensures 0x80 <= HeadValue(s) < 0x800 && IsScalarValue(HeadValue(s))
    ensures EncodeScalar(HeadValue(s)) == s[..2]
  {
    var c: int, hi: int, lo: int := HeadValue(s), s[0] as int - 0xC0, s[1] as int - 0x80;
    assert c == hi * 0x40 + lo && 0 <= lo < 0x40;
    assert c / 0x40 == hi && c % 0x40 == lo;
  }

  /** A 3-byte UTF8-char holds a scalar value from U+0800 to U+FFFF, not a surrogate, and is its encoding. */
  lemma ThreeByteValue(s: seq<Byte>)
    requires HeadLength(s) == 3
    ensures 0x800 <= HeadValue(s) < 0x10000 && IsScalarValue(HeadValue(s))
    ensures EncodeScalar(HeadValue(s)) == s[..3]
  {
    var c: int, a: int, b: int, d: int := HeadValue(s), s[0] as int - 0xE0, s[1] as int - 0x80, s[2] as int - 0x80;
    assert c == a * 0x1000 + b * 0x40 + d && 0 <= b < 0x40 && 0 <= d < 0x40;
    assert c / 0x40 == a * 0x40 + b && c % 0x40 == d;
    assert c / 0x1000 == a;
    assert c / 0x40 % 0x40 == b;
  }

  /** A 4-byte UTF8-char holds a scalar value from U+10000 to U+10FFFF and is its encoding. */
  lemma FourByteValue(s: seq<Byte>)
    requires HeadLength(s) == 4
    ensures 0x10000 <= HeadValue(s) <= 0x10FFFF && IsScalarValue(HeadValue(s))
    ensures EncodeScalar(HeadValue(s)) == s[..4]
  {
    var c: int, a: int, b: int, d: int, e: int := HeadValue(s), s[0] as int - 0xF0, s[1] as int - 0x80, s[2] as int - 0x80, s[3] as int - 0x80;
    assert c == a * 0x40000 + b * 0x1000 + d * 0x40 + e && 0 <= b < 0x40 && 0 <= d < 0x40 && 0 <= e < 0x40;
    assert c / 0x40 == a * 0x1000 + b * 0x40 + d && c % 0x40 == e;
    assert c / 0x1000 == a * 0x40 + b;
    assert c / 0x40000 == a;
    assert c / 0x1000 % 0x40 == b && c / 0x40 % 0x40 == d;
  }

  /** The UTF8-char `s` starts with is the encoding of the scalar value it holds. */
  lemma HeadValueEncodes(s: seq<Byte>)
    requires HeadLength(s) > 0
    ensures IsScalarValue(HeadValue(s)) && EncodeScalar(HeadValue(s)) == s[..HeadLength(s)]
  {
    var n := HeadLength(s);
    if n == 2 {
      TwoByteValue(s);
    } else if n == 3 {
      ThreeByteValue(s);
    } else if n == 4 {
      FourByteValue(s);
    }
  }

  /** The scalar values that well-formed UTF-8 encodes, one per UTF8-char. */
  function Decode(s: seq<Byte>): (cs: seq<nat>)
    requires WellFormed(s)
    ensures AllScalarValues(cs)
    decreases |s|
  {
    if |s| == 0 then []
    else
      HeadValueEncodes(s);
      [HeadValue(s)] + Decode(s[HeadLength(s)..])
  }

  /** Encoding a scalar value followed by a string encodes one after the other. */
  lemma EncodeCons(c: nat, cs: seq<nat>, head: seq<Byte>, rest: seq<Byte>)
    requires IsScalarValue(c) && AllScalarValues(cs)
    requires EncodeScalar(c) == head && Encode(cs) == rest
    ensures AllScalarValues([c] + cs) && Encode([c] + cs) == head + rest
  {
    assert ([c] + cs)[1..] == cs;
  }

  /** The inductive step of `DecodeEncodes`: the first UTF8-char encodes the first value. */
  lemma DecodeEncodesHead(s: seq<Byte>)
    requires WellFormed(s) && |s| > 0
    requires Encode(Decode(s[HeadLength(s)..])) == s[HeadLength(s)..]
    ensures Encode(Decode(s)) == s
  {
    var n := HeadLength(s);
    var head, rest := s[..n], s[n..];
    HeadValueEncodes(s);
    EncodeCons(HeadValue(s), Decode(rest), head, rest);
    SplitJoins(s, n);
  }

  /** Cutting a byte string anywhere and joining the halves gives it back. */
  lemma SplitJoins(s: seq<Byte>, n: nat)
    requires n <= |s|
    ensures s[..n] + s[n..] == s
  {
  }

  /** Well-formed UTF-8 is the encoding of what it decodes to. */
  lemma {:induction false} DecodeEncodes(s: seq<Byte>)
    requires WellFormed(s)
    ensures Encode(Decode(s)) == s
    decreases |s|
  {
    if |s| > 0 {
      DecodeEncodes(s[HeadLength(s)..]);
      DecodeEncodesHead(s);
    }
  }

  /** A byte string is well-formed UTF-8 exactly when it encodes some string of scalar values. */
  lemma WellFormedIsEncoding(s: seq<Byte>)
    ensures WellFormed(s) <==> exists cs :: AllScalarValues(cs) && Encode(cs) == s
  {
    if WellFormed(s) {
      DecodeEncodes(s);
      assert AllScalarValues(Decode(s)) && Encode(Decode(s)) == s;
    }
    if exists cs :: AllScalarValues(cs) && Encode(cs) == s {
      var cs :| AllScalarValues(cs) && Encode(cs) == s;
      EncodeIsWellFormed(cs);
    }
  }

  /**
   * Overlong forms (`C0 80`, `E0 80 80`), a surrogate (`ED A0 80`) and a code point
   * past U+10FFFF (`F4 90 80 80`) are rejected, whatever follows them.
   */
  lemma RejectsInvalidForms(rest: seq<Byte>)
    ensures !WellFormed([0xC0, 0x80] + rest)
    ensures !WellFormed([0xE0, 0x80, 0x80] + rest)
    ensures !WellFormed([0xED, 0xA0, 0x80] + rest)
    ensures !WellFormed([0xF4, 0x90, 0x80, 0x80] + rest)
  {
    assert HeadLength([0xC0, 0x80] + rest) == 0;
    assert HeadLength([0xE0, 0x80, 0x80] + rest) == 0;
    assert HeadLength([0xED, 0xA0, 0x80] + rest) == 0;
    assert HeadLength([0xF4, 0x90, 0x80, 0x80] + rest) == 0;
  }
}

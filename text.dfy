/**
 * Bytes and text as the Python runtime treats them: byte strings, strict
 * UTF-8 decoding (`bytes.decode("UTF-8")`), the whitespace class of `str`
 * (`str.isspace`, `\s` in a `str` pattern, `str.strip()`), `str(int)` and
 * `int(str)`.
 */
module Text {
  import opened Wrappers

  newtype byte = b: int | 0 <= b < 256
  type bytes = seq<byte>

  const CR: byte := 13
  const LF: byte := 10
  /** `b'\r\n'` */
  const CRLF: bytes := [CR, LF]

  predicate IsAscii(s: string) {
    forall i :: 0 <= i < |s| ==> s[i] as int < 128
  }

  /** The bytes of an ASCII string, one per character: a `b'...'` literal. */
  function Ascii(s: string): (r: bytes)
    requires IsAscii(s)
    ensures |r| == |s|
    ensures forall i :: 0 <= i < |s| ==> r[i] as int == s[i] as int
  {
    seq(|s|, i requires 0 <= i < |s| => s[i] as int as byte)
  }

  lemma AsciiConcat(a: string, b: string)
    requires IsAscii(a) && IsAscii(b)
    ensures IsAscii(a + b) && Ascii(a + b) == Ascii(a) + Ascii(b)
  {
  }

  // ---------------------------------------------------------------------------
  // Whitespace

  /** Characters for which Python's `str.isspace()` holds (also `\s` in a `str` regex). */
  predicate IsPySpace(c: char) {
    || (9 <= c as int <= 13)
    || (0x1C <= c as int <= 0x20)
    || c as int == 0x85 || c as int == 0xA0 || c as int == 0x1680
    || (0x2000 <= c as int <= 0x200A)
    || c as int == 0x2028 || c as int == 0x2029 || c as int == 0x202F
    || c as int == 0x205F || c as int == 0x3000
  }

  /** `s.lstrip()` */
  function StripLeft(s: string): (r: string)
    ensures |r| <= |s| && r == s[|s| - |r|..]
    ensures r == [] || !IsPySpace(r[0])
    ensures forall i :: 0 <= i < |s| - |r| ==> IsPySpace(s[i])
  {
    if s != [] && IsPySpace(s[0]) then StripLeft(s[1..]) else s
  }

  /** `s.rstrip()` */
  function StripRight(s: string): (r: string)
    ensures |r| <= |s| && r == s[..|r|]
    ensures r == [] || !IsPySpace(r[|r| - 1])
    ensures forall i :: |r| <= i < |s| ==> IsPySpace(s[i])
  {
    if s != [] && IsPySpace(s[|s| - 1]) then StripRight(s[..|s| - 1]) else s
  }

  /** `s.strip()` */
  function Strip(s: string): string {
    StripRight(StripLeft(s))
  }

  lemma StripUnspaced(s: string)
    requires s != [] ==> !IsPySpace(s[0]) && !IsPySpace(s[|s| - 1])
    ensures Strip(s) == s
  {
  }

  // ---------------------------------------------------------------------------
  // Decimal integers

  predicate IsDigit(c: char) { '0' <= c <= '9' }

  function DigitChar(d: nat): (c: char)
    requires d < 10
    ensures IsDigit(c) && c as int - '0' as int == d
  {
    ('0' as int + d) as char
  }

  /** `str(n)` for a non-negative integer. */
  function NatToString(n: nat): (s: string)
    ensures |s| > 0
    ensures forall i :: 0 <= i < |s| ==> IsDigit(s[i])
    decreases n
  {
    if n < 10 then [DigitChar(n)] else NatToString(n / 10) + [DigitChar(n % 10)]
  }

  /** `str(n)` */
  function IntToString(n: int): string {
    if n < 0 then "-" + NatToString(-n) else NatToString(n)
  }

  /** The value of a string of decimal digits, most significant first. */
  function DigitsValue(s: string): nat
    requires forall i :: 0 <= i < |s| ==> IsDigit(s[i])
  {
    if s == [] then 0
    else
      assert IsDigit(s[|s| - 1]);
      DigitsValue(s[..|s| - 1]) * 10 + (s[|s| - 1] as int - '0' as int)
  }

  lemma {:induction false} DigitsOfNat(n: nat)
    ensures DigitsValue(NatToString(n)) == n
    decreases n
  {
    if n >= 10 {
      var s := NatToString(n);
      assert s[..|s| - 1] == NatToString(n / 10);
      DigitsOfNat(n / 10);
    }
  }

  /** The digits of `s` with every `_` removed. */
  function DropUnderscores(s: string): (r: string)
    ensures |r| <= |s|
    ensures (forall i :: 0 <= i < |s| ==> IsDigit(s[i]) || s[i] == '_') ==>
              forall i :: 0 <= i < |r| ==> IsDigit(r[i])
  {
    if s == [] then []
    else if s[|s| - 1] == '_' then DropUnderscores(s[..|s| - 1])
    else DropUnderscores(s[..|s| - 1]) + [s[|s| - 1]]
  }

  lemma {:induction false} DropUnderscoresDigits(s: string)
    requires forall i :: 0 <= i < |s| ==> IsDigit(s[i])
    ensures DropUnderscores(s) == s
  {
    if s != [] {
      DropUnderscoresDigits(s[..|s| - 1]);
    }
  }

  /**
   * The body of a decimal literal as `int()` accepts it: ASCII digits, with single
   * underscores allowed between two digits.
   */
  predicate IsDigitRun(s: string) {
    && s != []
    && IsDigit(s[0]) && IsDigit(s[|s| - 1])
    && (forall i :: 0 <= i < |s| ==> IsDigit(s[i]) || s[i] == '_')
    && (forall i :: 0 <= i < |s| - 1 ==> s[i] == '_' ==> s[i + 1] != '_')
  }

  /**
   * Python's `int(s)` for a `str`: surrounding whitespace is ignored, one optional
   * sign, then a digit run. None stands for the ValueError it raises.
   */
  function ParsePyInt(s: string): (r: Option<int>)
    ensures var t := Strip(s);
      r.Some? <==> IsDigitRun(t) || (t != [] && (t[0] == '-' || t[0] == '+') && IsDigitRun(t[1..]))
    ensures var t := Strip(s); r.Some? && t[0] == '-' ==> r.value <= 0
    ensures var t := Strip(s); r.Some? && t[0] != '-' ==> r.value >= 0
  {
    ParseSigned(Strip(s))
  }

  /** A sign followed by a digit run, with no surrounding whitespace. */
  function ParseSigned(t: string): Option<int> {
    if t == [] then None
    else if t[0] == '-' || t[0] == '+' then
      match ParseUnsigned(t[1..])
      case None => None
      case Some(v) => Some(if t[0] == '-' then -(v as int) else v as int)
    else ParseUnsigned(t)
  }

  function ParseUnsigned(body: string): Option<nat> {
    if IsDigitRun(body) then Some(DigitsValue(DropUnderscores(body))) else None
  }

  lemma ParseUnsignedOfNat(n: nat)
    ensures ParseUnsigned(NatToString(n)) == Some(n)
  {
    var d := NatToString(n);
    DigitRunOfNat(n);
    DigitsOfNat(n);
    DropUnderscoresDigits(d);
  }

  /** `int(str(n)) == n` */
  lemma IntStringRoundTrip(n: int)
    ensures ParsePyInt(IntToString(n)) == Some(n)
  {
    var m: nat := if n < 0 then -n else n;
    var d := NatToString(m);
    var s := IntToString(n);
    ParseUnsignedOfNat(m);
    if n < 0 {
      assert s == "-" + d;
      assert s[1..] == d;
      assert ParseSigned(s) == Some(n);
    } else {
      assert s == d;
      assert ParseSigned(s) == Some(n);
    }
    assert !IsPySpace(s[0]) && !IsPySpace(s[|s| - 1]);
    StripUnspaced(s);
  }

  lemma DigitRunOfNat(n: nat)
    ensures IsDigitRun(NatToString(n))
  {
  }

  /** `a // b` (Python floors the quotient; Dafny's `/` is Euclidean). */
  function FloorDiv(a: int, b: int): (q: int)
    requires b != 0
    ensures b > 0 ==> b * q <= a < b * q + b
    ensures b < 0 ==> b * q + b < a <= b * q
  {
    if b > 0 then a / b else (-a) / (-b)
  }

  // ---------------------------------------------------------------------------
  // UTF-8

  predicate IsCont(x: byte) { 0x80 <= x <= 0xBF }

  predicate IsScalar(n: int) { 0 <= n < 0xD800 || 0xE000 <= n < 0x110000 }

  /**
   * The first character of `b` and the number of bytes it takes, as Python's strict
   * UTF-8 decoder reads it (no overlong forms, no surrogates, nothing above U+10FFFF).
   */
  function DecodeOne(b: bytes): (r: Option<(char, nat)>)
    requires |b| > 0
    ensures r.Some? ==> 1 <= r.value.1 <= 4 && r.value.1 <= |b|
  {
    var b0 := b[0] as int;
    if b0 < 0x80 then Some((b0 as char, 1))
    else if 0xC2 <= b0 <= 0xDF then
      if |b| >= 2 && IsCont(b[1]) then
        Some((((b0 - 0xC0) * 64 + (b[1] as int - 0x80)) as char, 2))
      else None
    else if 0xE0 <= b0 <= 0xEF then
      var lo := if b0 == 0xE0 then 0xA0 else 0x80;
      var hi := if b0 == 0xED then 0x9F else 0xBF;
      if |b| >= 3 && lo <= b[1] as int <= hi && IsCont(b[2]) then
        Some((((b0 - 0xE0) * 4096 + (b[1] as int - 0x80) * 64 + (b[2] as int - 0x80)) as char, 3))
      else None
    else if 0xF0 <= b0 <= 0xF4 then
      var lo := if b0 == 0xF0 then 0x90 else 0x80;
      var hi := if b0 == 0xF4 then 0x8F else 0xBF;
      if |b| >= 4 && lo <= b[1] as int <= hi && IsCont(b[2]) && IsCont(b[3]) then
        Some((((b0 - 0xF0) * 262144 + (b[1] as int - 0x80) * 4096
               + (b[2] as int - 0x80) * 64 + (b[3] as int - 0x80)) as char, 4))
      else None
    else None
  }

  /** `b.decode("UTF-8")`; None stands for UnicodeDecodeError. */
  function Utf8Decode(b: bytes): (r: Option<string>)
    ensures r.Some? ==> |r.value| <= |b| <= 4 * |r.value|
    decreases |b|
  {
    if b == [] then Some([])
    else match DecodeOne(b)
      case None => None
      case Some((c, n)) =>
        match Utf8Decode(b[n..])
        case None => None
        case Some(rest) => Some([c] + rest)
  }

  /** The UTF-8 encoding of one character. */
  function EncodeChar(c: char): (r: bytes)
    ensures 1 <= |r| <= 4
  {
    var n := c as int;
    if n < 0x80 then [n as byte]
    else if n < 0x800 then [(0xC0 + n / 64) as byte, (0x80 + n % 64) as byte]
    else if n < 0x10000 then
      [(0xE0 + n / 4096) as byte, (0x80 + (n / 64) % 64) as byte, (0x80 + n % 64) as byte]
    else
      [(0xF0 + n / 262144) as byte, (0x80 + (n / 4096) % 64) as byte,
       (0x80 + (n / 64) % 64) as byte, (0x80 + n % 64) as byte]
  }

  /** `s.encode("UTF-8")` */
  function Utf8Encode(s: string): bytes {
    if s == [] then [] else EncodeChar(s[0]) + Utf8Encode(s[1..])
  }

  lemma DecodeOneEncoded(c: char, rest: bytes)
    ensures DecodeOne(EncodeChar(c) + rest) == Some((c, |EncodeChar(c)|))
  {
    var n := c as int;
    if n < 0x80 {
    } else if n < 0x800 {
      DecodeTwo(c, rest);
    } else if n < 0x10000 {
      DecodeThree(c, rest);
    } else {
      DecodeFour(c, rest);
    }
  }

  lemma DecodeTwo(c: char, rest: bytes)
    requires 0x80 <= c as int < 0x800
    ensures DecodeOne(EncodeChar(c) + rest) == Some((c, 2))
  {
    var n := c as int;
    var q, r := n / 64, n % 64;
    assert n == q * 64 + r && 2 <= q < 32 && 0 <= r < 64;
    var e := EncodeChar(c) + rest;
    assert e[0] as int == 0xC0 + q && e[1] as int == 0x80 + r;
  }

  lemma DecodeThree(c: char, rest: bytes)
    requires 0x800 <= c as int < 0x10000
    ensures DecodeOne(EncodeChar(c) + rest) == Some((c, 3))
  {
    var n := c as int;
    var q, m := n / 4096, n % 4096;
    var r1, r0 := m / 64, m % 64;
    assert n == q * 4096 + m && 0 <= q < 16 && 0 <= m < 4096;
    assert m == r1 * 64 + r0 && 0 <= r1 < 64 && 0 <= r0 < 64;
    assert (n / 64) % 64 == r1 && n % 64 == r0;
    assert q == 0 ==> r1 >= 32;
    assert q == 0xD ==> r1 < 32;
    var e := EncodeChar(c) + rest;
    assert e[0] as int == 0xE0 + q && e[1] as int == 0x80 + r1 && e[2] as int == 0x80 + r0;
  }

  lemma DecodeFour(c: char, rest: bytes)
    requires 0x10000 <= c as int
    ensures DecodeOne(EncodeChar(c) + rest) == Some((c, 4))
  {
    var n := c as int;
    var q, r2, r1, r0 := n / 262144, (n / 4096) % 64, (n / 64) % 64, n % 64;
    FourDigits(n);
    var e := EncodeChar(c) + rest;
    assert e[0] as int == 0xF0 + q && e[1] as int == 0x80 + r2;
    assert e[2] as int == 0x80 + r1 && e[3] as int == 0x80 + r0;
  }

  /** The base-64 digits of a code point above U+FFFF. */
  lemma FourDigits(n: int)
    requires 0x10000 <= n < 0x110000
    ensures var q, r2, r1, r0 := n / 262144, (n / 4096) % 64, (n / 64) % 64, n % 64;
      && n == q * 262144 + r2 * 4096 + r1 * 64 + r0
      && 0 <= q <= 4 && 0 <= r2 < 64 && 0 <= r1 < 64 && 0 <= r0 < 64
      && (q == 0 ==> r2 >= 16) && (q == 4 ==> r2 < 16)
  {
    var q, m := n / 262144, n % 262144;
    var r2, m2 := m / 4096, m % 4096;
    var r1, r0 := m2 / 64, m2 % 64;
    assert n == (q * 64 + r2) * 4096 + m2;
    DivMod4096(q * 64 + r2, m2);
    DivMod64(q, r2);
    assert n == (q * 4096 + r2 * 64 + r1) * 64 + r0;
    DivMod64(q * 4096 + r2 * 64 + r1, r0);
    DivMod64(q * 64 + r2, r1);
  }

  /** Division by 64 takes `a * 64 + b` apart again when `b` is a remainder. */
  lemma DivMod64(a: int, b: int)
    requires 0 <= b < 64
    ensures (a * 64 + b) / 64 == a && (a * 64 + b) % 64 == b
  {
  }

  /** Division by 4096 takes `a * 4096 + b` apart again when `b` is a remainder. */
  lemma DivMod4096(a: int, b: int)
    requires 0 <= b < 4096
    ensures (a * 4096 + b) / 4096 == a
  {
  }

  /** Decoding what was encoded gives the text back. */
  lemma {:induction false} Utf8RoundTrip(s: string)
    ensures Utf8Decode(Utf8Encode(s)) == Some(s)
  {
    if s != [] {
      var e := Utf8Encode(s);
      var k := |EncodeChar(s[0])|;
      assert e == EncodeChar(s[0]) + Utf8Encode(s[1..]);
      DecodeOneEncoded(s[0], Utf8Encode(s[1..]));
      assert DecodeOne(e) == Some((s[0], k));
      assert e[k..] == Utf8Encode(s[1..]);
      Utf8RoundTrip(s[1..]);
      assert [s[0]] + s[1..] == s;
    }
  }

  /** ASCII bytes decode to the characters with the same codes. */
  lemma {:induction false} Utf8DecodeAscii(s: string)
    requires IsAscii(s)
    ensures Utf8Decode(Ascii(s)) == Some(s)
  {
    if s != [] {
      var a := Ascii(s);
      assert a[1..] == Ascii(s[1..]);
      assert DecodeOne(a) == Some((s[0], 1));
      Utf8DecodeAscii(s[1..]);
      assert [s[0]] + s[1..] == s;
    }
  }
}

/**
 * The part of Python's `json` module the source relies on: `json.dumps` with its
 * default settings (ASCII-only output, `", "` and `": "` separators, keys in
 * insertion order) and `json.loads` as its C scanner reads a `str`. A decoded
 * object is a list of members with distinct keys in insertion order, as a
 * Python `dict` built from the text is: a repeated key keeps its first position
 * and takes the last value.
 */
module Json {
  import opened Wrappers
  import opened Text
  import opened Dicts

  datatype Json =
    | JNull
    | JBool(b: bool)
    | JInt(i: int)
    | JString(s: string)
    | JArray(items: seq<Json>)
    | JObject(members: seq<(string, Json)>)

  datatype JsonError =
    | Malformed     // JSONDecodeError
    | Unsupported   // text Python decodes to a float or to a string holding a lone surrogate

  /** Values `json.dumps` can write and `json.loads` gives back: every object has distinct keys. */
  predicate WellFormed(v: Json) {
    match v
    case JArray(items) => forall i :: 0 <= i < |items| ==> WellFormed(items[i])
    case JObject(ms) => DistinctKeys(ms) && forall i :: 0 <= i < |ms| ==> WellFormed(ms[i].1)
    case _ => true
  }

  // ---------------------------------------------------------------------------
  // json.dumps

  function HexDigit(d: nat): (c: char)
    requires d < 16
  {
    if d < 10 then ('0' as int + d) as char else ('a' as int + d - 10) as char
  }

  /** The last `k` lower-case hex digits of `n`, most significant first. */
  function HexDigits(n: nat, k: nat): (r: string)
    ensures |r| == k
  {
    if k == 0 then [] else HexDigits(n / 16, k - 1) + [HexDigit(n % 16)]
  }

  /** Four lower-case hex digits, as `'{0:04x}'.format(n)`. */
  function Hex4(n: nat): (r: string)
    requires n < 0x10000
    ensures |r| == 4
  {
    HexDigits(n, 4)
  }

  /** How `json.dumps` (ensure_ascii) writes one character inside a string. */
  function EscapeChar(c: char): (r: string)
    ensures |r| >= 1
  {
    var n := c as int;
    if c == '"' then "\\\""
    else if c == '\\' then "\\\\"
    else if c == '\n' then "\\n"
    else if c == '\r' then "\\r"
    else if c == '\t' then "\\t"
    else if n == 8 then "\\b"
    else if n == 12 then "\\f"
    else if 0x20 <= n <= 0x7E then [c]
    else if n < 0x10000 then "\\u" + Hex4(n)
    else SurrogatePair(n - 0x10000)
  }

  /** A code point above U+FFFF, less 0x10000, as the escapes of its UTF-16 surrogate pair. */
  function SurrogatePair(m: nat): (r: string)
    requires m < 0x100000
  {
    "\\u" + Hex4(0xD800 + m / 1024) + "\\u" + Hex4(0xDC00 + m % 1024)
  }

  function EscapeAll(s: string): string {
    if s == [] then [] else EscapeChar(s[0]) + EscapeAll(s[1..])
  }

  /** A string literal as `json.dumps` writes it. */
  function Quote(s: string): string {
    "\"" + EscapeAll(s) + "\""
  }

  /** `json.dumps(v)` */
  function Dumps(v: Json): (r: string)
    ensures v.JString? ==> |r| >= 2 && r[0] == '"' && r[|r| - 1] == '"'
    ensures v.JArray? ==> |r| >= 2 && r[0] == '[' && r[|r| - 1] == ']'
    ensures v.JObject? ==> |r| >= 2 && r[0] == '{' && r[|r| - 1] == '}'
    decreases v, 1
  {
    match v
    case JNull => "null"
    case JBool(b) => if b then "true" else "false"
    case JInt(i) => IntToString(i)
    case JString(s) => Quote(s)
    case JArray(items) => if items == [] then "[]" else "[" + DumpItems(items, v) + "]"
    case JObject(ms) => if ms == [] then "{}" else "{" + DumpMembers(ms, v) + "}"
  }

  function DumpItems(items: seq<Json>, ghost parent: Json): string
    requires items != []
    requires forall i :: 0 <= i < |items| ==> items[i] < parent
    decreases parent, 0, |items|
  {
    if |items| == 1 then Dumps(items[0])
    else Dumps(items[0]) + ", " + DumpItems(items[1..], parent)
  }

  function DumpMembers(ms: seq<(string, Json)>, ghost parent: Json): string
    requires ms != []
    requires forall i :: 0 <= i < |ms| ==> ms[i].1 < parent
    decreases parent, 0, |ms|
  {
    if |ms| == 1 then Quote(ms[0].0) + ": " + Dumps(ms[0].1)
    else Quote(ms[0].0) + ": " + Dumps(ms[0].1) + ", " + DumpMembers(ms[1..], parent)
  }

  // ---------------------------------------------------------------------------
  // json.loads

  predicate IsJsonSpace(c: char) { c == ' ' || c == '\t' || c == '\n' || c == '\r' }

  function SkipWs(s: string): (r: string)
    ensures |r| <= |s|
    ensures r == [] || !IsJsonSpace(r[0])
  {
    if s != [] && IsJsonSpace(s[0]) then SkipWs(s[1..]) else s
  }

  function HexValue(c: char): Option<nat> {
    if '0' <= c <= '9' then Some(c as int - '0' as int)
    else if 'a' <= c <= 'f' then Some(c as int - 'a' as int + 10)
    else if 'A' <= c <= 'F' then Some(c as int - 'A' as int + 10)
    else None
  }

  /** Four hex digits at the head of `s` (either case). */
  function Hex4Value(s: string): (r: Option<nat>)
    requires |s| >= 4
    ensures r.Some? ==> r.value < 0x10000
  {
    match (HexValue(s[0]), HexValue(s[1]), HexValue(s[2]), HexValue(s[3]))
    case (Some(a), Some(b), Some(c), Some(d)) =>
      if a < 16 && b < 16 && c < 16 && d < 16 then Some(((a * 16 + b) * 16 + c) * 16 + d) else None
    case _ => None
  }

  predicate IsHighSurrogate(n: int) { 0xD800 <= n <= 0xDBFF }
  predicate IsLowSurrogate(n: int) { 0xDC00 <= n <= 0xDFFF }

  /**
   * The body of a string literal after its opening quote, as the strict scanner
   * reads it: returns the decoded text and what follows the closing quote.
   */
  function ParseStringBody(s: string, acc: string): (r: Result<(string, string), JsonError>)
    ensures r.Ok? ==> |r.value.1| < |s|
    decreases |s|, 1
  {
    if s == [] then Err(Malformed)
    else if s[0] == '"' then Ok((acc, s[1..]))
    else if s[0] == '\\' then ParseEscape(s[1..], acc)
    else if s[0] as int < 0x20 then Err(Malformed)
    else ParseStringBody(s[1..], acc + [s[0]])
  }

  /** What follows a backslash inside a string literal. */
  function ParseEscape(e: string, acc: string): (r: Result<(string, string), JsonError>)
    ensures r.Ok? ==> |r.value.1| < |e|
    decreases |e|, 0
  {
    if e == [] then Err(Malformed)
    else if e[0] == '"' then ParseStringBody(e[1..], acc + ['"'])
    else if e[0] == '\\' then ParseStringBody(e[1..], acc + ['\\'])
    else if e[0] == '/' then ParseStringBody(e[1..], acc + ['/'])
    else if e[0] == 'b' then ParseStringBody(e[1..], acc + [8 as char])
    else if e[0] == 'f' then ParseStringBody(e[1..], acc + [12 as char])
    else if e[0] == 'n' then ParseStringBody(e[1..], acc + ['\n'])
    else if e[0] == 'r' then ParseStringBody(e[1..], acc + ['\r'])
    else if e[0] == 't' then ParseStringBody(e[1..], acc + ['\t'])
    else if e[0] == 'u' then ParseUnicodeEscape(e[1..], acc)
    else Err(Malformed)
  }

  /**
   * What follows `\\u`: four hex digits, and for a high surrogate the `\\u` escape
   * of its low surrogate. The scanner wants more than four characters left.
   */
  function ParseUnicodeEscape(t: string, acc: string): (r: Result<(string, string), JsonError>)
    ensures r.Ok? ==> |r.value.1| < |t|
    decreases |t|, 0
  {
    if |t| <= 4 then Err(Malformed)
    else match Hex4Value(t)
      case None => Err(Malformed)
      case Some(c) =>
        if IsHighSurrogate(c) && |t| > 10 && t[4] == '\\' && t[5] == 'u' then
          match Hex4Value(t[6..])
          case None => Err(Malformed)
          case Some(c2) =>
            if IsLowSurrogate(c2) then
              ParseStringBody(t[10..], acc + [(0x10000 + (c - 0xD800) * 1024 + (c2 - 0xDC00)) as char])
            else Err(Unsupported)
        else if IsHighSurrogate(c) || IsLowSurrogate(c) then Err(Unsupported)
        else ParseStringBody(t[4..], acc + [c as char])
  }

  /** The digits at the head of `s`, and the rest. */
  function DigitPrefix(s: string): (r: nat)
    ensures r <= |s|
    ensures forall i :: 0 <= i < r ==> IsDigit(s[i])
    ensures r < |s| ==> !IsDigit(s[r])
  {
    if s != [] && IsDigit(s[0]) then 1 + DigitPrefix(s[1..]) else 0
  }

  /** The integer part of a number: a lone `0`, or a run of digits. */
  function IntegerPart(t: string): (n: nat)
    requires t != [] && IsDigit(t[0])
    ensures 1 <= n <= |t|
    ensures forall i :: 0 <= i < n ==> IsDigit(t[i])
  {
    if t[0] == '0' then 1 else DigitPrefix(t)
  }

  /** Whether a fraction (`.` and a digit) or an exponent (`e`, an optional sign, a digit) follows. */
  predicate FloatFollows(rest: string) {
    var frac := |rest| >= 2 && rest[0] == '.' && IsDigit(rest[1]);
    var afterFrac := if frac then rest[1 + DigitPrefix(rest[1..])..] else rest;
    frac ||
    (|afterFrac| >= 2 && (afterFrac[0] == 'e' || afterFrac[0] == 'E') &&
     (IsDigit(afterFrac[1]) ||
      (|afterFrac| >= 3 && (afterFrac[1] == '+' || afterFrac[1] == '-') && IsDigit(afterFrac[2]))))
  }

  /** An unsigned number at the head of `t`. A fraction or an exponent makes it a float, which is not represented. */
  function ParseMagnitude(t: string): (r: Result<(nat, string), JsonError>)
    ensures r.Ok? ==> |r.value.1| < |t|
  {
    if t == [] || !IsDigit(t[0]) then Err(Malformed)
    else
      var n := IntegerPart(t);
      if FloatFollows(t[n..]) then Err(Unsupported) else Ok((DigitsValue(t[..n]), t[n..]))
  }

  /** A number at the head of `s` (`-?(0|[1-9][0-9]*)(\.[0-9]+)?([eE][-+]?[0-9]+)?`). */
  function ParseNumber(s: string): (r: Result<(Json, string), JsonError>)
    ensures r.Ok? ==> |r.value.1| < |s| && r.value.0.JInt?
  {
    if s != [] && s[0] == '-' then
      match ParseMagnitude(s[1..])
      case Err(e) => Err(e)
      case Ok((m, rest)) => Ok((JInt(-(m as int)), rest))
    else
      match ParseMagnitude(s)
      case Err(e) => Err(e)
      case Ok((m, rest)) => Ok((JInt(m as int), rest))
  }

  predicate StartsWith(s: string, p: string) {
    |p| <= |s| && s[..|p|] == p
  }

  /** A named constant at the head of `s`, or the scanner's error when the word is not all there. */
  function ParseLiteral(s: string, word: string, v: Json): (r: Result<(Json, string), JsonError>)
    requires word != []
    ensures r.Ok? ==> |r.value.1| < |s| && r.value.0 == v
  {
    if StartsWith(s, word) then Ok((v, s[|word|..])) else Err(Malformed)
  }

  /**
   * One JSON value at the head of `s` (`scan_once`), and what follows it. The
   * scanner dispatches on the first character; a named constant it does not find
   * whole falls through to the number scanner, which rejects it.
   */
  function ParseValue(s: string): (r: Result<(Json, string), JsonError>)
    ensures r.Ok? ==> |r.value.1| < |s|
    decreases |s|, 1
  {
    if s == [] then Err(Malformed)
    else if s[0] == '"' then
      match ParseStringBody(s[1..], [])
      case Err(e) => Err(e)
      case Ok((str, rest)) => Ok((JString(str), rest))
    else if s[0] == '{' then ParseObject(s[1..])
    else if s[0] == '[' then ParseArray(s[1..])
    else if s[0] == 'n' then ParseLiteral(s, "null", JNull)
    else if s[0] == 't' then ParseLiteral(s, "true", JBool(true))
    else if s[0] == 'f' then ParseLiteral(s, "false", JBool(false))
    else if (s[0] == 'N' && StartsWith(s, "NaN")) || (s[0] == 'I' && StartsWith(s, "Infinity")) ||
      (s[0] == '-' && StartsWith(s, "-Infinity")) then Err(Unsupported)
    else ParseNumber(s)
  }

  /** After `[`: the elements and the closing `]`. */
  function ParseArray(s: string): (r: Result<(Json, string), JsonError>)
    ensures r.Ok? ==> |r.value.1| < |s|
    decreases |s|, 3
  {
    var t := SkipWs(s);
    if t != [] && t[0] == ']' then Ok((JArray([]), t[1..]))
    else ParseElements(t, [])
  }

  function ParseElements(s: string, acc: seq<Json>): (r: Result<(Json, string), JsonError>)
    ensures r.Ok? ==> |r.value.1| < |s|
    decreases |s|, 2
  {
    match ParseValue(s)
    case Err(e) => Err(e)
    case Ok((v, rest)) =>
      var t := SkipWs(rest);
      if t == [] then Err(Malformed)
      else if t[0] == ']' then Ok((JArray(acc + [v]), t[1..]))
      else if t[0] == ',' then ParseElements(SkipWs(t[1..]), acc + [v])
      else Err(Malformed)
  }

  /** After `{`: the members and the closing `}`. */
  function ParseObject(s: string): (r: Result<(Json, string), JsonError>)
    ensures r.Ok? ==> |r.value.1| < |s|
    decreases |s|, 3
  {
    var t := SkipWs(s);
    if t != [] && t[0] == '}' then Ok((JObject([]), t[1..]))
    else ParseMembers(t, [])
  }

  function ParseMembers(s: string, acc: seq<(string, Json)>): (r: Result<(Json, string), JsonError>)
    requires DistinctKeys(acc)
    ensures r.Ok? ==> |r.value.1| < |s|
    decreases |s|, 2
  {
    if s == [] || s[0] != '"' then Err(Malformed)
    else match ParseStringBody(s[1..], [])
      case Err(e) => Err(e)
      case Ok((k, afterKey)) =>
        var t := SkipWs(afterKey);
        if t == [] || t[0] != ':' then Err(Malformed)
        else match ParseValue(SkipWs(t[1..]))
          case Err(e) => Err(e)
          case Ok((v, rest)) =>
            var acc' := Insert(acc, k, v);
            var u := SkipWs(rest);
            if u == [] then Err(Malformed)
            else if u[0] == '}' then Ok((JObject(acc'), u[1..]))
            else if u[0] == ',' then ParseMembers(SkipWs(u[1..]), acc')
            else Err(Malformed)
  }

  /**
   * `json.loads(s)`: one value, optionally surrounded by whitespace, and
   * nothing else; every object in the value has distinct keys.
   */
  function Loads(s: string): (r: Result<Json, JsonError>)
    ensures r.Ok? ==> WellFormed(r.value)
  {
    ValueWellFormed(SkipWs(s));
    match ParseValue(SkipWs(s))
    case Err(e) => Err(e)
    case Ok((v, rest)) => if SkipWs(rest) == [] then Ok(v) else Err(Malformed)
  }

  // ---------------------------------------------------------------------------
  // What json.loads returns is a Python value: every object in it has distinct keys

  lemma {:induction false} ValueWellFormed(s: string)
    ensures ParseValue(s).Ok? ==> WellFormed(ParseValue(s).value.0)
    decreases |s|, 1
  {
    if s != [] && s[0] == '{' {
      ObjectWellFormed(s[1..]);
    } else if s != [] && s[0] == '[' {
      ArrayWellFormed(s[1..]);
    } else {
      var r := ParseValue(s);
      assert r.Ok? ==> !r.value.0.JArray? && !r.value.0.JObject?;
    }
  }

  lemma {:induction false} ArrayWellFormed(s: string)
    ensures ParseArray(s).Ok? ==> WellFormed(ParseArray(s).value.0)
    decreases |s|, 3
  {
    var t := SkipWs(s);
    if !(t != [] && t[0] == ']') {
      ElementsWellFormed(t, []);
    }
  }

  lemma {:induction false} ElementsWellFormed(s: string, acc: seq<Json>)
    requires forall i :: 0 <= i < |acc| ==> WellFormed(acc[i])
    ensures ParseElements(s, acc).Ok? ==> WellFormed(ParseElements(s, acc).value.0)
    decreases |s|, 2
  {
    ValueWellFormed(s);
    match ParseValue(s)
    case Err(_) =>
    case Ok((v, rest)) =>
      var t := SkipWs(rest);
      var acc' := acc + [v];
      assert forall i :: 0 <= i < |acc'| ==> WellFormed(acc'[i]);
      if t != [] && t[0] == ',' {
        ElementsWellFormed(SkipWs(t[1..]), acc');
      }
  }

  lemma {:induction false} ObjectWellFormed(s: string)
    ensures ParseObject(s).Ok? ==> WellFormed(ParseObject(s).value.0)
    decreases |s|, 3
  {
    var t := SkipWs(s);
    if !(t != [] && t[0] == '}') {
      MembersWellFormed(t, []);
    }
  }

  lemma {:induction false} MembersWellFormed(s: string, acc: seq<(string, Json)>)
    requires DistinctKeys(acc) && forall i :: 0 <= i < |acc| ==> WellFormed(acc[i].1)
    ensures ParseMembers(s, acc).Ok? ==> WellFormed(ParseMembers(s, acc).value.0)
    decreases |s|, 2
  {
    if s != [] && s[0] == '"' {
      match ParseStringBody(s[1..], [])
      case Err(_) =>
      case Ok((k, afterKey)) =>
        var t := SkipWs(afterKey);
        if t != [] && t[0] == ':' {
          ValueWellFormed(SkipWs(t[1..]));
          match ParseValue(SkipWs(t[1..]))
          case Err(_) =>
          case Ok((v, rest)) =>
            InsertValues(acc, k, v, WellFormed);
            var u := SkipWs(rest);
            if u != [] && u[0] == ',' {
              MembersWellFormed(SkipWs(u[1..]), Insert(acc, k, v));
            }
        }
    }
  }

  // ---------------------------------------------------------------------------
  // json.loads(json.dumps(v)) == v

  lemma HexDigitValue(d: nat)
    requires d < 16
    ensures HexValue(HexDigit(d)) == Some(d)
  {
  }

  lemma Hex4Parses(n: nat, rest: string)
    requires n < 0x10000
    ensures Hex4Value(Hex4(n) + rest) == Some(n)
  {
    var q1 := n / 16;
    var q2 := q1 / 16;
    var q3 := q2 / 16;
    var h := Hex4(n);
    assert h == [HexDigit(q3 % 16), HexDigit(q2 % 16), HexDigit(q1 % 16), HexDigit(n % 16)] by {
      assert HexDigits(q3, 1) == [HexDigit(q3 % 16)];
      assert HexDigits(q2, 2) == HexDigits(q3, 1) + [HexDigit(q2 % 16)];
      assert HexDigits(q1, 3) == HexDigits(q2, 2) + [HexDigit(q1 % 16)];
    }
    HexDigitValue(q3 % 16);
    HexDigitValue(q2 % 16);
    HexDigitValue(q1 % 16);
    HexDigitValue(n % 16);
    assert q3 % 16 == q3;
    assert (q3 * 16 + q2 % 16) * 16 + q1 % 16 == q1;
  }

  /** The scanner's step over a backslash. */
  lemma BackslashStep(s: string, acc: string)
    requires s != [] && s[0] == '\\'
    ensures ParseStringBody(s, acc) == ParseEscape(s[1..], acc)
  {
  }

  /** The scanner's step over the `u` of a `\u` escape. */
  lemma UnicodeStep(e: string, acc: string)
    requires e != [] && e[0] == 'u'
    ensures ParseEscape(e, acc) == ParseUnicodeEscape(e[1..], acc)
  {
  }

  /** The scanner's step over the `\u` that opens a Unicode escape. */
  lemma EscapeUStep(h: string, acc: string)
    ensures ParseStringBody("\\u" + h, acc) == ParseUnicodeEscape(h, acc)
  {
    var s := "\\u" + h;
    BackslashStep(s, acc);
    DropFirst("\\u", h);
    DropFirst("u", h);
    UnicodeStep(s[1..], acc);
  }

  /** The scanner's step over a `\uXXXX` escape of a character that is not a surrogate. */
  lemma SingleStep(t: string, acc: string, n: nat)
    requires |t| > 4 && Hex4Value(t) == Some(n) && !IsHighSurrogate(n) && !IsLowSurrogate(n)
    ensures IsScalar(n)
    ensures ParseUnicodeEscape(t, acc) == ParseStringBody(t[4..], acc + [n as char])
  {
  }

  lemma UnicodeEscapeParses(c: char, rest: string, acc: string)
    requires rest != [] && c as int < 0x10000
    ensures ParseUnicodeEscape(Hex4(c as int) + rest, acc) == ParseStringBody(rest, acc + [c])
  {
    var t := Hex4(c as int) + rest;
    Hex4Parses(c as int, rest);
    SingleStep(t, acc, c as int);
    assert t[4..] == rest;
  }

  /** The scanner's step over a `\uXXXX\uXXXX` surrogate pair. */
  lemma PairStep(t: string, acc: string, hi: nat, lo: nat)
    requires |t| > 10 && t[4] == '\\' && t[5] == 'u'
    requires Hex4Value(t) == Some(hi) && IsHighSurrogate(hi)
    requires Hex4Value(t[6..]) == Some(lo) && IsLowSurrogate(lo)
    ensures IsScalar(0x10000 + (hi - 0xD800) * 1024 + (lo - 0xDC00))
    ensures ParseUnicodeEscape(t, acc) ==
      ParseStringBody(t[10..], acc + [(0x10000 + (hi - 0xD800) * 1024 + (lo - 0xDC00)) as char])
  {
  }

  /** A code point above U+FFFF splits into a high and a low surrogate that give it back. */
  lemma SplitAstral(n: int)
    requires 0x10000 <= n < 0x110000
    ensures var m := n - 0x10000;
      IsHighSurrogate(0xD800 + m / 1024) && IsLowSurrogate(0xDC00 + m % 1024) &&
      0x10000 + (m / 1024) * 1024 + m % 1024 == n
  {
  }

  /** The escapes of a high and a low surrogate read back as the character they encode. */
  lemma SurrogateEscapesParse(hi: nat, lo: nat, rest: string, acc: string)
    requires IsHighSurrogate(hi) && IsLowSurrogate(lo) && rest != []
    ensures IsScalar(0x10000 + (hi - 0xD800) * 1024 + (lo - 0xDC00))
    ensures ParseUnicodeEscape(Hex4(hi) + ("\\u" + Hex4(lo) + rest), acc) ==
      ParseStringBody(rest, acc + [(0x10000 + (hi - 0xD800) * 1024 + (lo - 0xDC00)) as char])
  {
    var h1, h2 := Hex4(hi), Hex4(lo);
    var tail := "\\u" + h2 + rest;
    var t := h1 + tail;
    Hex4Parses(hi, tail);
    assert t[4] == '\\' && t[5] == 'u';
    assert t[6..] == h2 + rest;
    Hex4Parses(lo, rest);
    PairStep(t, acc, hi, lo);
    assert t[10..] == rest;
  }

  lemma UnicodePairParses(c: char, rest: string, acc: string)
    requires rest != [] && c as int >= 0x10000
    ensures ParseUnicodeEscape(SurrogatePair(c as int - 0x10000)[2..] + rest, acc) == ParseStringBody(rest, acc + [c])
  {
    var m := c as int - 0x10000;
    var hi, lo := 0xD800 + m / 1024, 0xDC00 + m % 1024;
    SplitAstral(c as int);
    var h1, h2 := Hex4(hi), Hex4(lo);
    assert SurrogatePair(m)[2..] + rest == h1 + ("\\u" + h2 + rest) by {
      assert SurrogatePair(m) == "\\u" + h1 + "\\u" + h2;
    }
    SurrogateEscapesParse(hi, lo, rest, acc);
  }

  lemma SurrogatePairParses(c: char, rest: string, acc: string)
    requires rest != [] && c as int >= 0x10000
    ensures ParseStringBody(SurrogatePair(c as int - 0x10000) + rest, acc) == ParseStringBody(rest, acc + [c])
  {
    var p := SurrogatePair(c as int - 0x10000);
    assert p == "\\u" + p[2..];
    Assoc("\\u", p[2..], rest);
    EscapeUStep(p[2..] + rest, acc);
    UnicodePairParses(c, rest, acc);
  }

  /** A two-character escape `\x` is read back as the character it stands for. */
  lemma ShortEscapeParses(c: char, x: char, rest: string, acc: string)
    requires x == '"' || x == '\\' || x == 'n' || x == 'r' || x == 't' || x == 'b' || x == 'f'
    requires c == (if x == 'n' then '\n' else if x == 'r' then '\r' else if x == 't' then '\t'
      else if x == 'b' then 8 as char else if x == 'f' then 12 as char else x)
    ensures ParseStringBody(['\\', x] + rest, acc) == ParseStringBody(rest, acc + [c])
  {
    var s := ['\\', x] + rest;
    BackslashStep(s, acc);
    assert s[1..] == [x] + rest;
    assert ([x] + rest)[1..] == rest;
  }

  predicate HasShortEscape(c: char) {
    c == '"' || c == '\\' || c == '\n' || c == '\r' || c == '\t' || c as int == 8 || c as int == 12
  }

  lemma ShortEscapeCharParses(c: char, rest: string, acc: string)
    requires HasShortEscape(c)
    ensures ParseStringBody(EscapeChar(c) + rest, acc) == ParseStringBody(rest, acc + [c])
  {
    if c == '"' {
      ShortEscapeParses(c, '"', rest, acc);
    } else if c == '\\' {
      ShortEscapeParses(c, '\\', rest, acc);
    } else if c == '\n' {
      ShortEscapeParses(c, 'n', rest, acc);
    } else if c == '\r' {
      ShortEscapeParses(c, 'r', rest, acc);
    } else if c == '\t' {
      ShortEscapeParses(c, 't', rest, acc);
    } else if c as int == 8 {
      ShortEscapeParses(c, 'b', rest, acc);
    } else {
      ShortEscapeParses(c, 'f', rest, acc);
    }
  }

  lemma PlainCharParses(c: char, rest: string, acc: string)
    requires !HasShortEscape(c) && 0x20 <= c as int <= 0x7E
    ensures ParseStringBody(EscapeChar(c) + rest, acc) == ParseStringBody(rest, acc + [c])
  {
    assert EscapeChar(c) == [c];
    assert ([c] + rest)[1..] == rest;
  }

  lemma BmpCharParses(c: char, rest: string, acc: string)
    requires !HasShortEscape(c) && !(0x20 <= c as int <= 0x7E) && c as int < 0x10000
    requires rest != []
    ensures ParseStringBody(EscapeChar(c) + rest, acc) == ParseStringBody(rest, acc + [c])
  {
    var h := Hex4(c as int);
    assert EscapeChar(c) == "\\u" + h;
    Assoc("\\u", h, rest);
    EscapeUStep(h + rest, acc);
    UnicodeEscapeParses(c, rest, acc);
  }

  lemma AstralCharParses(c: char, rest: string, acc: string)
    requires c as int >= 0x10000
    requires rest != []
    ensures ParseStringBody(EscapeChar(c) + rest, acc) == ParseStringBody(rest, acc + [c])
  {
    assert EscapeChar(c) == SurrogatePair(c as int - 0x10000);
    SurrogatePairParses(c, rest, acc);
  }

  /** An escape of one character is read back as that character. */
  lemma EscapeCharParses(c: char, rest: string, acc: string)
    requires rest != []
    ensures ParseStringBody(EscapeChar(c) + rest, acc) == ParseStringBody(rest, acc + [c])
  {
    if HasShortEscape(c) {
      ShortEscapeCharParses(c, rest, acc);
    } else if 0x20 <= c as int <= 0x7E {
      PlainCharParses(c, rest, acc);
    } else if c as int < 0x10000 {
      BmpCharParses(c, rest, acc);
    } else {
      AstralCharParses(c, rest, acc);
    }
  }

  /** The closing quote ends the string. */
  lemma ClosingQuoteParses(acc: string, t: string)
    ensures ParseStringBody(EscapeAll([]) + "\"" + t, acc) == Ok((acc + [], t))
  {
    assert EscapeAll([]) + "\"" + t == "\"" + t;
    assert ("\"" + t)[1..] == t;
    assert acc + [] == acc;
  }

  /** The scanner reads an escaped string back up to its closing quote. */
  lemma {:induction false} StringBodyRoundTrip(s: string, acc: string, t: string)
    ensures ParseStringBody(EscapeAll(s) + "\"" + t, acc) == Ok((acc + s, t))
    decreases |s|
  {
    if s == [] {
      ClosingQuoteParses(acc, t);
    } else {
      var rest := EscapeAll(s[1..]) + "\"" + t;
      assert EscapeAll(s) == EscapeChar(s[0]) + EscapeAll(s[1..]);
      Regroup4(EscapeChar(s[0]), EscapeAll(s[1..]), "\"", t);
      EscapeCharParses(s[0], rest, acc);
      StringBodyRoundTrip(s[1..], acc + [s[0]], t);
      AppendHead(acc, s);
    }
  }

  /** What may follow a value inside a document: its end, a comma or a closing bracket. */
  predicate EndsValue(t: string) {
    t == [] || t[0] == ',' || t[0] == ']' || t[0] == '}'
  }

  /** A dumped value starts with neither whitespace nor a closing bracket. */
  lemma DumpsHead(v: Json)
    ensures Dumps(v) != []
    ensures !IsJsonSpace(Dumps(v)[0]) && Dumps(v)[0] != ']' && Dumps(v)[0] != '}'
  {
    match v
    case JInt(i) =>
      if i < 0 {
        assert Dumps(v)[1..] == NatToString(-i);
      } else {
        assert IsDigit(NatToString(i)[0]);
      }
    case _ =>
  }

  lemma {:induction false} NatToStringHead(n: nat)
    ensures NatToString(n)[0] == '0' <==> n == 0
    decreases n
  {
    if n >= 10 {
      NatToStringHead(n / 10);
    }
  }

  lemma {:induction false} DigitPrefixOf(d: string, t: string)
    requires forall i :: 0 <= i < |d| ==> IsDigit(d[i])
    requires t == [] || !IsDigit(t[0])
    ensures DigitPrefix(d + t) == |d|
    decreases |d|
  {
    if d != [] {
      assert (d + t)[1..] == d[1..] + t;
      DigitPrefixOf(d[1..], t);
    }
  }

  /** Text that starts like a number goes to the number scanner. */
  lemma NotInfinity(s: string)
    requires |s| >= 2 && s[0] == '-' && IsDigit(s[1])
    ensures !StartsWith(s, "-Infinity")
  {
    if |s| >= 9 {
      assert s[..9][1] == s[1];
    }
  }

  lemma ValueOfNumber(s: string)
    requires s != [] && (IsDigit(s[0]) || (|s| >= 2 && s[0] == '-' && IsDigit(s[1])))
    ensures ParseValue(s) == ParseNumber(s)
  {
    var c := s[0];
    if IsDigit(c) {
      assert c != '"' && c != '{' && c != '[' && c != 'n' && c != 't' && c != 'f' && c != 'N' && c != 'I' && c != '-';
    } else {
      NotInfinity(s);
    }
  }

  /** The number scanner reads a natural number back from its decimal digits. */
  lemma MagnitudeParses(a: nat, t: string)
    requires EndsValue(t)
    ensures ParseMagnitude(NatToString(a) + t) == Ok((a, t))
  {
    var d := NatToString(a);
    var u := d + t;
    assert u[0] == d[0];
    NatToStringHead(a);
    if a != 0 {
      DigitPrefixOf(d, t);
    } else {
      assert d == "0";
    }
    assert IntegerPart(u) == |d|;
    assert u[..|d|] == d && u[|d|..] == t;
    DigitsOfNat(a);
    if t != [] {
      var c := t[0];
      assert c != '.' && c != 'e' && c != 'E';
    }
    assert !FloatFollows(t);
  }

  lemma NegativeStep(s: string, m: nat, rest: string)
    requires s != [] && s[0] == '-' && ParseMagnitude(s[1..]) == Ok((m, rest))
    ensures ParseNumber(s) == Ok((JInt(-(m as int)), rest))
  {
  }

  lemma NegativeParses(i: int, t: string)
    requires i < 0 && EndsValue(t)
    ensures ParseNumber(IntToString(i) + t) == Ok((JInt(i), t))
  {
    var u := NatToString(-i) + t;
    var s := "-" + u;
    assert IntToString(i) + t == s;
    assert s[1..] == u;
    MagnitudeParses(-i, t);
    NegativeStep(s, -i, t);
  }

  lemma NonNegativeParses(i: int, t: string)
    requires i >= 0 && EndsValue(t)
    ensures ParseNumber(IntToString(i) + t) == Ok((JInt(i), t))
  {
    var d := NatToString(i);
    assert IntToString(i) + t == d + t;
    assert IsDigit(d[0]);
    assert (d + t)[0] == d[0];
    var c := d[0];
    assert c != '-';
    MagnitudeParses(i, t);
  }

  /** The number scanner reads an integer back from its decimal form. */
  lemma IntegerParses(i: int, t: string)
    requires EndsValue(t)
    ensures ParseNumber(IntToString(i) + t) == Ok((JInt(i), t))
  {
    if i < 0 {
      NegativeParses(i, t);
    } else {
      NonNegativeParses(i, t);
    }
  }

  /** An integer is read back from its decimal form. */
  lemma NumberRoundTrip(i: int, t: string)
    requires EndsValue(t)
    ensures ParseValue(IntToString(i) + t) == Ok((JInt(i), t))
  {
    var s := IntToString(i) + t;
    var a: nat := if i < 0 then -i else i;
    var d := NatToString(a);
    assert IsDigit(d[0]);
    if i < 0 {
      assert s == "-" + (d + t);
      assert s[1] == d[0];
    } else {
      assert s[0] == d[0];
    }
    ValueOfNumber(s);
    IntegerParses(i, t);
  }

  /** Text that starts with neither whitespace nor a closing bracket. */
  predicate OpensValue(x: string) {
    x != [] && !IsJsonSpace(x[0]) && x[0] != ']' && x[0] != '}'
  }

  lemma SkipOneSpace(x: string)
    requires OpensValue(x)
    ensures SkipWs(" " + x) == x
  {
    DropFirst(" ", x);
  }

  lemma LiteralRoundTrip(v: Json, t: string)
    requires v.JNull? || v.JBool?
    ensures ParseValue(Dumps(v) + t) == Ok((v, t))
  {
    var s := Dumps(v) + t;
    if v.JNull? {
      assert s[..4] == "null" && s[4..] == t;
    } else if v.b {
      assert s[..4] == "true" && s[4..] == t;
    } else {
      assert s[..5] == "false" && s[5..] == t;
    }
  }

  /** The key, or a string value, at the head of `s`. */
  lemma QuotedParses(str: string, t: string)
    ensures ParseStringBody((Quote(str) + t)[1..], []) == Ok((str, t))
  {
    assert (Quote(str) + t)[1..] == EscapeAll(str) + "\"" + t;
    StringBodyRoundTrip(str, [], t);
    assert [] + str == str;
  }

  lemma ValueOfString(s: string, str: string, rest: string)
    requires s != [] && s[0] == '"' && ParseStringBody(s[1..], []) == Ok((str, rest))
    ensures ParseValue(s) == Ok((JString(str), rest))
  {
  }

  lemma QuotedRoundTrip(str: string, t: string)
    ensures ParseValue(Quote(str) + t) == Ok((JString(str), t))
  {
    QuotedParses(str, t);
    ValueOfString(Quote(str) + t, str, t);
  }

  lemma ValueOfArray(s: string)
    requires s != [] && s[0] == '['
    ensures ParseValue(s) == ParseArray(s[1..])
  {
  }

  lemma ElementsOpen(body: string)
    requires OpensValue(body)
    ensures ParseArray(body) == ParseElements(body, [])
  {
  }

  lemma ArrayOpens(body: string)
    requires OpensValue(body)
    ensures ParseValue("[" + body) == ParseElements(body, [])
  {
    assert ("[" + body)[1..] == body;
    ValueOfArray("[" + body);
    ElementsOpen(body);
  }

  lemma ValueOfObject(s: string)
    requires s != [] && s[0] == '{'
    ensures ParseValue(s) == ParseObject(s[1..])
  {
  }

  lemma MembersOpen(body: string)
    requires body != [] && body[0] == '"'
    ensures ParseObject(body) == ParseMembers(body, [])
  {
  }

  lemma ObjectOpens(body: string)
    requires body != [] && body[0] == '"'
    ensures ParseValue("{" + body) == ParseMembers(body, [])
  {
    assert ("{" + body)[1..] == body;
    ValueOfObject("{" + body);
    MembersOpen(body);
  }

  lemma EmptyArrayRoundTrip(t: string)
    ensures ParseValue(Dumps(JArray([])) + t) == Ok((JArray([]), t))
  {
    var s := "[]" + t;
    assert s[1..] == "]" + t;
    ValueOfArray(s);
    DropFirst("]", t);
  }

  lemma EmptyObjectRoundTrip(t: string)
    ensures ParseValue(Dumps(JObject([])) + t) == Ok((JObject([]), t))
  {
    var s := "{}" + t;
    assert s[1..] == "}" + t;
    ValueOfObject(s);
    DropFirst("}", t);
  }

  /** An array is read back once its elements are. */
  lemma ArrayStep(v: Json, t: string)
    requires v.JArray? && v.items != []
    requires forall i :: 0 <= i < |v.items| ==> v.items[i] < v
    requires ParseElements(DumpItems(v.items, v) + "]" + t, []) == Ok((v, t))
    ensures ParseValue(Dumps(v) + t) == Ok((v, t))
  {
    var body := DumpItems(v.items, v) + "]" + t;
    ArrayText(v, t);
    ArrayOpens(body);
  }

  /** A non-empty array is dumped as `[`, its elements, and `]`. */
  lemma ArrayText(v: Json, t: string)
    requires v.JArray? && v.items != []
    requires forall i :: 0 <= i < |v.items| ==> v.items[i] < v
    ensures Dumps(v) + t == "[" + (DumpItems(v.items, v) + "]" + t)
    ensures OpensValue(DumpItems(v.items, v) + "]" + t)
  {
    var items := v.items;
    var body := DumpItems(items, v) + "]" + t;
    DumpsHead(items[0]);
    assert body[0] == DumpItems(items, v)[0] == Dumps(items[0])[0];
  }

  /** An object is read back once its members are. */
  lemma ObjectStep(v: Json, t: string)
    requires v.JObject? && v.members != []
    requires forall i :: 0 <= i < |v.members| ==> v.members[i].1 < v
    requires ParseMembers(DumpMembers(v.members, v) + "}" + t, []) == Ok((v, t))
    ensures ParseValue(Dumps(v) + t) == Ok((v, t))
  {
    var body := DumpMembers(v.members, v) + "}" + t;
    ObjectText(v, t);
    ObjectOpens(body);
  }

  /** A non-empty object is dumped as `{`, its members, and `}`; the first member opens with its key's quote. */
  lemma ObjectText(v: Json, t: string)
    requires v.JObject? && v.members != []
    requires forall i :: 0 <= i < |v.members| ==> v.members[i].1 < v
    ensures Dumps(v) + t == "{" + (DumpMembers(v.members, v) + "}" + t)
    ensures (DumpMembers(v.members, v) + "}" + t)[0] == '"'
  {
    var ms := v.members;
    var body := DumpMembers(ms, v) + "}" + t;
    assert body[0] == DumpMembers(ms, v)[0] == Quote(ms[0].0)[0];
  }

  /** A dumped value is read back, with whatever may follow it left over. */
  lemma {:induction false} ValueRoundTrip(v: Json, t: string)
    requires WellFormed(v) && EndsValue(t)
    ensures ParseValue(Dumps(v) + t) == Ok((v, t))
    decreases v, 1
  {
    match v
    case JNull => LiteralRoundTrip(v, t);
    case JBool(_) => LiteralRoundTrip(v, t);
    case JInt(i) => NumberRoundTrip(i, t);
    case JString(str) => QuotedRoundTrip(str, t);
    case JArray(items) =>
      if items == [] {
        EmptyArrayRoundTrip(t);
      } else {
        ElementsRoundTrip(items, v, [], t);
        assert [] + items == items;
        ArrayStep(v, t);
      }
    case JObject(ms) =>
      if ms == [] {
        EmptyObjectRoundTrip(t);
      } else {
        assert [] + ms == ms;
        MembersRoundTrip(ms, v, [], t);
        ObjectStep(v, t);
      }
  }

  /** The last element, then the closing bracket. */
  lemma LastElement(s: string, acc: seq<Json>, v: Json, t: string)
    requires ParseValue(s) == Ok((v, "]" + t))
    ensures ParseElements(s, acc) == Ok((JArray(acc + [v]), t))
  {
    DropFirst("]", t);
  }

  /** An element followed by a comma and further elements. */
  lemma NextElement(s: string, acc: seq<Json>, v: Json, tail: string)
    requires ParseValue(s) == Ok((v, ", " + tail)) && OpensValue(tail)
    ensures ParseElements(s, acc) == ParseElements(tail, acc + [v])
  {
    DropFirst(", ", tail);
    SkipOneSpace(tail);
  }

  lemma {:induction false} ElementsRoundTrip(items: seq<Json>, parent: Json, acc: seq<Json>, t: string)
    requires items != []
    requires forall i :: 0 <= i < |items| ==> items[i] < parent && WellFormed(items[i])
    requires EndsValue(t)
    ensures ParseElements(DumpItems(items, parent) + "]" + t, acc) == Ok((JArray(acc + items), t))
    decreases parent, 0, |items|, 1
  {
    if |items| == 1 {
      LastElementRoundTrip(items, parent, acc, t);
    } else {
      NextElementRoundTrip(items, parent, acc, t);
    }
  }

  lemma {:induction false} LastElementRoundTrip(items: seq<Json>, parent: Json, acc: seq<Json>, t: string)
    requires |items| == 1
    requires items[0] < parent && WellFormed(items[0])
    requires EndsValue(t)
    ensures ParseElements(DumpItems(items, parent) + "]" + t, acc) == Ok((JArray(acc + items), t))
    decreases parent, 0, |items|, 0
  {
    var d := Dumps(items[0]);
    assert DumpItems(items, parent) == d;
    var s := d + "]" + t;
    assert s == d + ("]" + t);
    ValueRoundTrip(items[0], "]" + t);
    LastElement(s, acc, items[0], t);
    assert acc + [items[0]] == acc + items;
  }

  /** The dumped elements after the first, with the closing bracket and what follows. */
  function ElementsTail(items: seq<Json>, parent: Json, t: string): string
    requires |items| > 1
    requires forall i :: 0 <= i < |items| ==> items[i] < parent
  {
    DumpItems(items[1..], parent) + "]" + t
  }

  /** The first of several elements is dumped followed by `, `; the rest opens a value. */
  lemma ElementsText(items: seq<Json>, parent: Json, t: string)
    requires |items| > 1
    requires forall i :: 0 <= i < |items| ==> items[i] < parent
    ensures DumpItems(items, parent) + "]" + t == Dumps(items[0]) + (", " + ElementsTail(items, parent, t))
    ensures OpensValue(ElementsTail(items, parent, t))
  {
    var rest := DumpItems(items[1..], parent);
    assert DumpItems(items, parent) == Dumps(items[0]) + ", " + rest;
    Regroup(Dumps(items[0]), ", ", rest, "]", t);
    DumpsHead(items[1]);
    assert ElementsTail(items, parent, t)[0] == rest[0] == Dumps(items[1])[0];
  }

  /** The first of several dumped elements is read, then the comma. */
  lemma ElementStep(items: seq<Json>, parent: Json, acc: seq<Json>, t: string)
    requires |items| > 1
    requires forall i :: 0 <= i < |items| ==> items[i] < parent
    requires ParseValue(Dumps(items[0]) + (", " + ElementsTail(items, parent, t))) ==
      Ok((items[0], ", " + ElementsTail(items, parent, t)))
    ensures ParseElements(DumpItems(items, parent) + "]" + t, acc) ==
      ParseElements(ElementsTail(items, parent, t), acc + [items[0]])
  {
    var s := DumpItems(items, parent) + "]" + t;
    var tail := ElementsTail(items, parent, t);
    ElementsText(items, parent, t);
    NextElement(s, acc, items[0], tail);
  }

  lemma {:induction false} NextElementRoundTrip(items: seq<Json>, parent: Json, acc: seq<Json>, t: string)
    requires |items| > 1
    requires forall i :: 0 <= i < |items| ==> items[i] < parent && WellFormed(items[i])
    requires EndsValue(t)
    ensures ParseElements(DumpItems(items, parent) + "]" + t, acc) == Ok((JArray(acc + items), t))
    decreases parent, 0, |items|, 0
  {
    var tail := ElementsTail(items, parent, t);
    assert ParseElements(DumpItems(items, parent) + "]" + t, acc) == ParseElements(tail, acc + [items[0]]) by {
      ValueRoundTrip(items[0], ", " + tail);
      ElementStep(items, parent, acc, t);
    }
    assert ParseElements(tail, acc + [items[0]]) == Ok((JArray(acc + items), t)) by {
      ElementsRoundTrip(items[1..], parent, acc + [items[0]], t);
      AppendHead(acc, items);
    }
  }

  lemma Regroup<T>(a: seq<T>, sep: seq<T>, b: seq<T>, close: seq<T>, t: seq<T>)
    ensures a + sep + b + close + t == a + (sep + (b + close + t))
  {
  }

  lemma DropFirst<T>(a: seq<T>, b: seq<T>)
    requires a != []
    ensures (a + b)[1..] == a[1..] + b
  {
  }

  lemma Assoc<T>(a: seq<T>, b: seq<T>, c: seq<T>)
    ensures a + b + c == a + (b + c)
  {
  }

  lemma Regroup4<T>(a: seq<T>, b: seq<T>, c: seq<T>, d: seq<T>)
    ensures a + b + c + d == a + (b + c + d)
  {
  }

  lemma Regroup3<T>(a: seq<T>, b: seq<T>, c: seq<T>, y: seq<T>)
    ensures a + b + c + y == a + (b + (c + y))
  {
  }

  /** Appending the head and then the rest of `xs` appends `xs`. */
  lemma AppendHead<T>(acc: seq<T>, xs: seq<T>)
    requires xs != []
    ensures acc + [xs[0]] + xs[1..] == acc + xs
  {
  }

  /** One member: the key is read, then `:` and the value; `after` is what the value leaves. */
  lemma MemberParses(s: string, acc: seq<(string, Json)>, k: string, r: string, v: Json, after: string)
    requires DistinctKeys(acc)
    requires s != [] && s[0] == '"' && ParseStringBody(s[1..], []) == Ok((k, ": " + r))
    requires OpensValue(r) && ParseValue(r) == Ok((v, after))
    ensures var u := SkipWs(after); var acc' := Insert(acc, k, v);
      ParseMembers(s, acc) ==
        if u == [] then Err(Malformed)
        else if u[0] == '}' then Ok((JObject(acc'), u[1..]))
        else if u[0] == ',' then ParseMembers(SkipWs(u[1..]), acc')
        else Err(Malformed)
  {
    DropFirst(": ", r);
    SkipOneSpace(r);
  }

  /** A key, its value, then the closing brace. */
  lemma LastMember(s: string, acc: seq<(string, Json)>, k: string, r: string, v: Json, t: string)
    requires DistinctKeys(acc)
    requires s != [] && s[0] == '"' && ParseStringBody(s[1..], []) == Ok((k, ": " + r))
    requires OpensValue(r) && ParseValue(r) == Ok((v, "}" + t))
    ensures ParseMembers(s, acc) == Ok((JObject(Insert(acc, k, v)), t))
  {
    MemberParses(s, acc, k, r, v, "}" + t);
    DropFirst("}", t);
  }

  /** A key and its value, followed by a comma and further members. */
  lemma NextMember(s: string, acc: seq<(string, Json)>, k: string, r: string, v: Json, tail: string)
    requires DistinctKeys(acc)
    requires s != [] && s[0] == '"' && ParseStringBody(s[1..], []) == Ok((k, ": " + r))
    requires OpensValue(r) && ParseValue(r) == Ok((v, ", " + tail)) && OpensValue(tail)
    ensures ParseMembers(s, acc) == ParseMembers(tail, Insert(acc, k, v))
  {
    MemberParses(s, acc, k, r, v, ", " + tail);
    DropFirst(", ", tail);
    SkipOneSpace(tail);
  }

  /** The dumped members after the first, with the closing brace and what follows. */
  function MembersTail(ms: seq<(string, Json)>, parent: Json, t: string): string
    requires |ms| > 1
    requires forall i :: 0 <= i < |ms| ==> ms[i].1 < parent
  {
    DumpMembers(ms[1..], parent) + "}" + t
  }

  /** The only dumped member is read, then the closing brace. */
  lemma LastMemberStep(ms: seq<(string, Json)>, parent: Json, acc: seq<(string, Json)>, t: string)
    requires |ms| == 1 && ms[0].1 < parent && DistinctKeys(acc)
    requires ParseValue(Dumps(ms[0].1) + ("}" + t)) == Ok((ms[0].1, "}" + t))
    ensures ParseMembers(DumpMembers(ms, parent) + "}" + t, acc) ==
      Ok((JObject(Insert(acc, ms[0].0, ms[0].1)), t))
  {
    var m := ms[0];
    var r := Dumps(m.1) + ("}" + t);
    var s := DumpMembers(ms, parent) + "}" + t;
    LastMemberText(ms, parent, t);
    QuotedParses(m.0, ": " + r);
    DumpsHead(m.1);
    LastMember(s, acc, m.0, r, m.1, t);
  }

  /** The only member is dumped as its quoted key, `: ` and its value. */
  lemma LastMemberText(ms: seq<(string, Json)>, parent: Json, t: string)
    requires |ms| == 1 && ms[0].1 < parent
    ensures DumpMembers(ms, parent) + "}" + t == Quote(ms[0].0) + (": " + (Dumps(ms[0].1) + ("}" + t)))
  {
  }

  /** The first of several members is dumped as its quoted key, `: `, its value and `, `; the rest opens with a quote. */
  lemma MembersText(ms: seq<(string, Json)>, parent: Json, t: string)
    requires |ms| > 1
    requires forall i :: 0 <= i < |ms| ==> ms[i].1 < parent
    ensures DumpMembers(ms, parent) + "}" + t ==
      Quote(ms[0].0) + (": " + (Dumps(ms[0].1) + (", " + MembersTail(ms, parent, t))))
    ensures MembersTail(ms, parent, t)[0] == '"'
  {
    var x := Quote(ms[0].0) + ": " + Dumps(ms[0].1);
    var rest := DumpMembers(ms[1..], parent);
    assert DumpMembers(ms, parent) == x + ", " + rest;
    Regroup(x, ", ", rest, "}", t);
    Regroup3(Quote(ms[0].0), ": ", Dumps(ms[0].1), ", " + MembersTail(ms, parent, t));
    assert MembersTail(ms, parent, t)[0] == rest[0] == Quote(ms[1].0)[0];
  }

  /** The first of several dumped members is read, then the comma. */
  lemma MemberStep(ms: seq<(string, Json)>, parent: Json, acc: seq<(string, Json)>, t: string)
    requires |ms| > 1 && DistinctKeys(acc)
    requires forall i :: 0 <= i < |ms| ==> ms[i].1 < parent
    requires ParseValue(Dumps(ms[0].1) + (", " + MembersTail(ms, parent, t))) ==
      Ok((ms[0].1, ", " + MembersTail(ms, parent, t)))
    ensures ParseMembers(DumpMembers(ms, parent) + "}" + t, acc) ==
      ParseMembers(MembersTail(ms, parent, t), Insert(acc, ms[0].0, ms[0].1))
  {
    var m := ms[0];
    var tail := MembersTail(ms, parent, t);
    var r := Dumps(m.1) + (", " + tail);
    var s := DumpMembers(ms, parent) + "}" + t;
    MembersText(ms, parent, t);
    QuotedParses(m.0, ": " + r);
    DumpsHead(m.1);
    NextMember(s, acc, m.0, r, m.1, tail);
  }

  /** A key not yet read is appended by `Insert`, and the keys stay distinct. */
  lemma InsertFresh(acc: seq<(string, Json)>, ms: seq<(string, Json)>)
    requires ms != [] && DistinctKeys(acc) && DistinctKeys(acc + ms)
    ensures Insert(acc, ms[0].0, ms[0].1) == acc + [ms[0]]
    ensures DistinctKeys(acc + [ms[0]]) && acc + [ms[0]] + ms[1..] == acc + ms
  {
    DistinctConcat(acc, ms);
    KeysConcat(acc, ms);
    assert Keys(ms) == [ms[0].0] + Keys(ms[1..]);
    assert HasKey(ms, ms[0].0);
    AppendHead(acc, ms);
  }

  lemma {:induction false} MembersRoundTrip(ms: seq<(string, Json)>, parent: Json, acc: seq<(string, Json)>, t: string)
    requires ms != []
    requires forall i :: 0 <= i < |ms| ==> ms[i].1 < parent && WellFormed(ms[i].1)
    requires DistinctKeys(acc) && DistinctKeys(acc + ms)
    requires EndsValue(t)
    ensures ParseMembers(DumpMembers(ms, parent) + "}" + t, acc) == Ok((JObject(acc + ms), t))
    decreases parent, 0, |ms|
  {
    InsertFresh(acc, ms);
    if |ms| == 1 {
      ValueRoundTrip(ms[0].1, "}" + t);
      LastMemberStep(ms, parent, acc, t);
      assert acc + [ms[0]] == acc + ms;
    } else {
      ValueRoundTrip(ms[0].1, ", " + MembersTail(ms, parent, t));
      MemberStep(ms, parent, acc, t);
      MembersRoundTrip(ms[1..], parent, acc + [ms[0]], t);
    }
  }

  /** `json.loads(json.dumps(v)) == v` for every value whose objects have distinct keys. */
  lemma LoadsDumps(v: Json)
    requires WellFormed(v)
    ensures Loads(Dumps(v)) == Ok(v)
  {
    DumpsHead(v);
    assert Dumps(v) + [] == Dumps(v);
    ValueRoundTrip(v, []);
  }
}

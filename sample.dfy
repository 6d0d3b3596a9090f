/**
 * The request body of `mobius/www/test/test_utils.py`: two form fields, a
 * file `fileID` and a text field `fileName`, fed to `data_received` in one
 * chunk. The generic lemmas say how the parser reads a boundary line, a
 * two-line header block, a named header line and a data part; the last
 * lemma composes them into the parser's whole trace on that body.
 */
module MultipartSample {
  import opened Wrappers
  import opened Text
  import opened Dicts
  import opened HeaderPattern
  import opened HeaderParams
  import opened Multipart
  import opened MultipartParser
  import opened ParserTrace

  // ---------------------------------------------------------------------------
  // Generic facts

  predicate Lacks(s: bytes, c: byte) {
    forall j :: 0 <= j < |s| ==> s[j] != c
  }

  predicate LacksChar(s: string, c: char) {
    forall j :: 0 <= j < |s| ==> s[j] != c
  }

  lemma AsciiLacks(s: string, c: char)
    requires IsAscii(s) && LacksChar(s, c) && c as int < 128
    ensures Lacks(Ascii(s), c as int as byte)
  {
  }

  /** A pattern is first found right after a stretch that never holds its first byte. */
  lemma FindAfter(x: bytes, p: bytes, y: bytes)
    requires p != [] && Lacks(x, p[0])
    ensures Find(x + p + y, p) == |x|
  {
    var s := x + p + y;
    assert s[|x|..|x| + |p|] == p;
    assert OccursAt(s, p, |x|);
  }

  /** Bytes without CR hold no CRLF. */
  lemma NoCrlf(b: bytes)
    requires Lacks(b, CR)
    ensures Find(b, CRLF) == -1
  {
    forall j | 0 <= j < |b|
      ensures !OccursAt(b, CRLF, j)
    {
      assert b[j] != CR;
    }
  }

  /** A header block of two lines, the first possibly empty, neither holding CR. */
  lemma TwoLineBlock(a: bytes, b: bytes, rest: bytes)
    requires Lacks(a, CR) && b != [] && Lacks(b, CR)
    ensures SplitOnce(a + CRLF + b + EOH + rest, EOH) == Some((a + CRLF + b, rest))
    ensures SplitAll(a + CRLF + b, CRLF) == [a, b]
  {
    var block := a + CRLF + b;
    var s := block + EOH + rest;
    var k := |block|;
    assert s[k..k + 4] == EOH;
    assert OccursAt(s, EOH, k);
    forall j | 0 <= j < k
      ensures !OccursAt(s, EOH, j)
    {
      if j == |a| {
        assert s[j + 2] == b[0];
      } else if j < |a| {
        assert s[j] == a[j];
      } else if j > |a| + 1 {
        assert s[j] == b[j - |a| - 2];
      }
    }
    assert Find(s, EOH) == k;
    assert s[..k] == block && s[k + 4..] == rest;
    FindAfter(a, CRLF, b);
    NoCrlf(b);
    assert block[..|a|] == a && block[|a| + 2..] == b;
  }

  /** A line `name: value; key="v"…` */
  function LineOf(name: string, value: string, params: seq<(string, string)>): string {
    name + ":" + " " + value + ParamsText(params)
  }

  lemma ParamsTextStart(ps: seq<(string, string)>)
    requires ps != []
    ensures ParamsText(ps)[0] == ';'
  {
    ParamTextAt(ps[0].0, ps[0].1);
  }

  /** Such a line is read back as the named header it was written from. */
  lemma NamedLineParses(name: string, value: string, params: seq<(string, string)>)
    requires name != [] && LacksChar(name, ':')
    requires value != [] && forall j :: 0 <= j < |value| ==> IsValueChar(value[j])
    requires DistinctKeys(params) && forall i :: 0 <= i < |params| ==> Readable(params[i].0, params[i].1)
    requires LacksChar(ParamsText(params), '\n')
    ensures ParseHeader(LineOf(name, value, params)) == Some(NamedHeader(name, value, params))
  {
    LineMatches(name, value, params);
    ParamsRoundTrip(params);
  }

  lemma LineMatches(name: string, value: string, params: seq<(string, string)>)
    requires name != [] && LacksChar(name, ':')
    requires value != [] && forall j :: 0 <= j < |value| ==> IsValueChar(value[j])
    requires LacksChar(ParamsText(params), '\n')
    ensures MatchHeaderValue(LineOf(name, value, params)) == Some(HeaderMatch(name, value, ParamsText(params), |name| + 2))
  {
    var s, t := LineOf(name, value, params), ParamsText(params);
    if params != [] {
      ParamsTextStart(params);
    }
    LineGroups(name, value, t, s, |name| + 2);
    MatchOfGroupsAt(s, HeaderMatch(name, value, t, |name| + 2), |name|);
    MatchHeaderValueExact(s, HeaderMatch(name, value, t, |name| + 2));
  }

  lemma LineGroups(name: string, value: string, t: string, s: string, w: nat)
    requires name != [] && LacksChar(name, ':') && w == |name| + 2
    requires value != [] && forall j :: 0 <= j < |value| ==> IsValueChar(value[j])
    requires (t != [] ==> t[0] == ';') && LacksChar(t, '\n')
    requires s == name + ":" + " " + value + t
    ensures NameGroup(s, name) && |name| + 1 <= |s| && SpaceEnd(s, |name| + 1) == w
    ensures ValueGroup(s, w, value) && TailGroup(s, w + |value|, t)
  {
    var p := name + ":" + " " + value;
    SpaceAfterName(name, value, t, p, s);
    ValueThenTail(p, w, value, t, s);
  }

  /** One space between the colon and the value: the value starts two characters past the name. */
  lemma SpaceAfterName(name: string, value: string, t: string, p: string, s: string)
    requires value != [] && IsValueChar(value[0])
    requires p == name + ":" + " " + value && s == p + t
    ensures |name| + 2 + |value| == |p| && p[|name| + 2..] == value
    ensures |name| + 1 <= |s| && SpaceEnd(s, |name| + 1) == |name| + 2
    ensures s[..|name|] == name && s[|name|] == ':'
  {
    var n := |name|;
    assert s[..n] == name;
    assert p[n + 1] == ' ' && p[n + 2] == value[0] && p[n + 2..] == value;
    assert s[n + 1] == ' ' && s[n + 2] == value[0];
  }

  /** A value ending `p`, followed by a tail that is empty or starts with ';': both groups are read off `p + t`. */
  lemma ValueThenTail(p: string, w: nat, value: string, t: string, s: string)
    requires w + |value| == |p| && p[w..] == value && s == p + t
    requires value != [] && forall j :: 0 <= j < |value| ==> IsValueChar(value[j])
    requires t != [] ==> t[0] == ';'
    requires LacksChar(t, '\n')
    ensures ValueGroup(s, w, value) && TailGroup(s, w + |value|, t)
  {
    assert s[w..|p|] == value;
    assert s[|p|..] == t;
    assert s[|p|..|p| + |t|] == t;
  }

  /** The header set a parsed line contributes to an empty dictionary. */
  function Entries(h: Option<Header>): HeaderSet
    requires h.Some? ==> h.value.NamedHeader?
  {
    if h.None? then [] else [(h.value.name, Single(h.value))]
  }

  /** A named ASCII line is inserted under its name and the loop goes on. */
  lemma AddNamedLine(acc: HeaderSet, line: string, h: Header, more: seq<bytes>, buf: bytes, rest: bytes)
    requires WellKeyed(acc) && IsAscii(line) && ParseHeader(line) == Some(h) && h.NamedHeader?
    ensures WellKeyed(Insert(acc, h.name, Single(h)))
    ensures AddHeaders(acc, [Ascii(line)] + more, buf, rest) == AddHeaders(Insert(acc, h.name, Single(h)), more, buf, rest)
  {
    var lines := [Ascii(line)] + more;
    Utf8DecodeAscii(line);
    assert lines[0] == Ascii(line) && lines[1..] == more;
    assert Utf8Decode(lines[0]) == Some(line);
    assert AddHeader(acc, h) == Ok(Insert(acc, h.name, Single(h)));
  }

  /** An empty line is skipped. */
  lemma AddEmptyLine(acc: HeaderSet, more: seq<bytes>, buf: bytes, rest: bytes)
    requires WellKeyed(acc)
    ensures AddHeaders(acc, [[]] + more, buf, rest) == AddHeaders(acc, more, buf, rest)
  {
    assert Utf8Decode([]) == Some([]);
    assert ([[]] + more)[1..] == more;
  }

  lemma EntriesLack(h: Option<Header>, k: string)
    requires h.Some? ==> h.value.NamedHeader? && h.value.name != k
    ensures !HasKey(Entries(h), k)
  {
    if h.Some? {
      assert Keys(Entries(h)) == [h.value.name];
    }
  }

  /** A block of two ASCII lines, the first empty or named, the second named under another name. */
  lemma TwoHeaderBlock(a: string, ha: Option<Header>, b: string, hb: Header, rest: bytes, buf: bytes, hs: HeaderSet)
    requires IsAscii(a) && IsAscii(b) && LacksChar(a, '\r') && LacksChar(b, '\r')
    requires ParseHeader(a) == ha && ParseHeader(b) == Some(hb) && hb.NamedHeader?
    requires ha.Some? ==> ha.value.NamedHeader? && ha.value.name != hb.name
    requires buf == Ascii(a) + CRLF + Ascii(b) + EOH + rest
    requires hs == Entries(ha) + [(hb.name, Single(hb))]
    ensures ReadHeaders(buf) == Ok((hs, rest))
  {
    BlockSplits(a, b, rest);
    TwoLinesAdded(a, ha, b, hb, Ascii(a) + CRLF + Ascii(b) + EOH + rest, rest);
  }

  lemma BlockSplits(a: string, b: string, rest: bytes)
    requires IsAscii(a) && IsAscii(b) && LacksChar(a, '\r') && LacksChar(b, '\r') && b != []
    ensures var buf := Ascii(a) + CRLF + Ascii(b) + EOH + rest;
      ReadHeaders(buf) == AddHeaders([], [Ascii(a)] + [Ascii(b)], buf, rest)
  {
    var ba, bb := Ascii(a), Ascii(b);
    AsciiLacks(a, '\r');
    AsciiLacks(b, '\r');
    TwoLineBlock(ba, bb, rest);
    assert [ba, bb] == [ba] + [bb];
  }

  lemma TwoLinesAdded(a: string, ha: Option<Header>, b: string, hb: Header, buf: bytes, rest: bytes)
    requires IsAscii(a) && IsAscii(b)
    requires ParseHeader(a) == ha && ParseHeader(b) == Some(hb) && hb.NamedHeader?
    requires ha.Some? ==> ha.value.NamedHeader? && ha.value.name != hb.name
    ensures AddHeaders([], [Ascii(a)] + [Ascii(b)], buf, rest) == Ok((Entries(ha) + [(hb.name, Single(hb))], rest))
  {
    FirstLineAdded(a, ha, [Ascii(b)], buf, rest);
    EntriesLack(ha, hb.name);
    LastLineAdded(Entries(ha), b, hb, buf, rest);
  }

  /** The first line of a block, empty or named, starts the header set. */
  lemma FirstLineAdded(a: string, ha: Option<Header>, more: seq<bytes>, buf: bytes, rest: bytes)
    requires IsAscii(a) && ParseHeader(a) == ha && (ha.Some? ==> ha.value.NamedHeader?)
    ensures WellKeyed(Entries(ha))
    ensures AddHeaders([], [Ascii(a)] + more, buf, rest) == AddHeaders(Entries(ha), more, buf, rest)
  {
    if a == [] {
      assert Ascii(a) == [];
      AddEmptyLine([], more, buf, rest);
    } else {
      AddNamedLine([], a, ha.value, more, buf, rest);
    }
  }

  /** The last line of a block, under a new name, closes the header set. */
  lemma LastLineAdded(acc: HeaderSet, b: string, hb: Header, buf: bytes, rest: bytes)
    requires WellKeyed(acc) && IsAscii(b) && ParseHeader(b) == Some(hb) && hb.NamedHeader? && !HasKey(acc, hb.name)
    ensures AddHeaders(acc, [Ascii(b)], buf, rest) == Ok((acc + [(hb.name, Single(hb))], rest))
  {
    AddNamedLine(acc, b, hb, [], buf, rest);
    assert [Ascii(b)] + [] == [Ascii(b)];
  }

  /** A data part: text free of the boundary's first byte, CRLF, the boundary, then the rest. */
  lemma DataPart(d: string, boundary: bytes, rest: bytes)
    requires IsAscii(d) && boundary != [] && boundary[0] != CR && boundary[0] != LF && boundary[0] as int < 128
    requires LacksChar(d, boundary[0] as int as char)
    ensures ReadData(boundary, Ascii(d) + CRLF + boundary + rest) == DataCut(false, Ascii(d), rest)
  {
    var x := Ascii(d) + CRLF;
    AsciiLacks(d, boundary[0] as int as char);
    assert boundary[0] as int as char as int as byte == boundary[0];
    assert Lacks(x, boundary[0]);
    FindAfter(x, boundary, rest);
    var buf := x + boundary + rest;
    assert buf[..|x| - 2] == Ascii(d);
    assert buf[|x| + |boundary|..] == rest;
  }

  /** Both halves of every pair lack `c`. */
  predicate PairsLack(ps: seq<(string, string)>, c: char) {
    forall i :: 0 <= i < |ps| ==> LacksChar(ps[i].0, c) && LacksChar(ps[i].1, c)
  }

  predicate PairsAscii(ps: seq<(string, string)>) {
    forall i :: 0 <= i < |ps| ==> IsAscii(ps[i].0) && IsAscii(ps[i].1)
  }

  lemma LacksConcat(a: string, b: string, c: char)
    requires LacksChar(a, c) && LacksChar(b, c)
    ensures LacksChar(a + b, c)
  {
  }

  lemma AsciiConcatOf(a: string, b: string)
    requires IsAscii(a) && IsAscii(b)
    ensures IsAscii(a + b)
  {
  }

  /** The text of the parameters holds a character only if a key or a value does, or it is punctuation. */
  lemma {:induction false} ParamsTextLacks(ps: seq<(string, string)>, c: char)
    requires c != ';' && c != ' ' && c != '=' && c != '"' && PairsLack(ps, c)
    ensures LacksChar(ParamsText(ps), c)
  {
    if ps != [] {
      ParamsTextLacks(ps[1..], c);
      var k, v := ps[0].0, ps[0].1;
      LacksConcat("; " + k, "=\"", c);
      LacksConcat("; " + k + "=\"", v, c);
      LacksConcat("; " + k + "=\"" + v, "\"", c);
      LacksConcat(ParamText(k, v), ParamsText(ps[1..]), c);
    }
  }

  lemma {:induction false} ParamsTextAscii(ps: seq<(string, string)>)
    requires PairsAscii(ps)
    ensures IsAscii(ParamsText(ps))
  {
    if ps != [] {
      ParamsTextAscii(ps[1..]);
      var k, v := ps[0].0, ps[0].1;
      AsciiConcatOf("; " + k, "=\"");
      AsciiConcatOf("; " + k + "=\"", v);
      AsciiConcatOf("; " + k + "=\"" + v, "\"");
      AsciiConcatOf(ParamText(k, v), ParamsText(ps[1..]));
    }
  }

  /** The same for a whole header line. */
  lemma LineLacks(name: string, value: string, params: seq<(string, string)>, c: char)
    requires c != ';' && c != ' ' && c != '=' && c != '"' && c != ':'
    requires LacksChar(name, c) && LacksChar(value, c) && PairsLack(params, c)
    ensures LacksChar(LineOf(name, value, params), c)
  {
    ParamsTextLacks(params, c);
  }

  lemma LineAscii(name: string, value: string, params: seq<(string, string)>)
    requires IsAscii(name) && IsAscii(value) && PairsAscii(params)
    ensures IsAscii(LineOf(name, value, params))
  {
    ParamsTextAscii(params);
  }

  /** Letters, digits, '-', '.' and '/': the characters of the sample's names and values. */
  predicate Plain(c: char) {
    ('a' <= c <= 'z') || ('A' <= c <= 'Z') || ('0' <= c <= '9') || c == '-' || c == '.' || c == '/'
  }

  predicate PlainText(s: string) {
    forall j :: 0 <= j < |s| ==> Plain(s[j])
  }

  predicate PlainPairs(ps: seq<(string, string)>) {
    forall i :: 0 <= i < |ps| ==> ps[i].0 != [] && PlainText(ps[i].0) && PlainText(ps[i].1)
  }

  lemma PlainFacts(s: string)
    requires PlainText(s)
    ensures IsAscii(s) && LacksChar(s, ':') && LacksChar(s, '\r') && LacksChar(s, '\n')
    ensures forall j :: 0 <= j < |s| ==> IsValueChar(s[j]) && s[j] != '=' && s[j] != '"'
  {
  }

  lemma PlainPairsFacts(ps: seq<(string, string)>)
    requires PlainPairs(ps)
    ensures PairsAscii(ps) && PairsLack(ps, '\r') && PairsLack(ps, '\n')
    ensures forall i :: 0 <= i < |ps| ==> Readable(ps[i].0, ps[i].1)
  {
    forall i | 0 <= i < |ps|
      ensures IsAscii(ps[i].0) && IsAscii(ps[i].1) && Readable(ps[i].0, ps[i].1)
      ensures LacksChar(ps[i].0, '\r') && LacksChar(ps[i].1, '\r') && LacksChar(ps[i].0, '\n') && LacksChar(ps[i].1, '\n')
    {
      PlainFacts(ps[i].0);
      PlainFacts(ps[i].1);
    }
  }

  /** A header line written from plain parts is ASCII, free of CR, and read back as written. */
  lemma WrittenLine(name: string, value: string, params: seq<(string, string)>)
    requires name != [] && PlainText(name) && value != [] && PlainText(value)
    requires DistinctKeys(params) && PlainPairs(params)
    ensures IsAscii(LineOf(name, value, params)) && LacksChar(LineOf(name, value, params), '\r')
    ensures ParseHeader(LineOf(name, value, params)) == Some(NamedHeader(name, value, params))
  {
    PlainFacts(name);
    PlainFacts(value);
    PlainPairsFacts(params);
    LineAscii(name, value, params);
    LineLacks(name, value, params, '\r');
    ParamsTextLacks(params, '\n');
    NamedLineParses(name, value, params);
  }

  // ---------------------------------------------------------------------------
  // The body of the test

  const BOUNDARY_TEXT: string := "------test_boundary"
  const DISPOSITION: string := "Content-Disposition"
  const FILE_ID_PARAMS: seq<(string, string)> := [("name", "fileID"), ("filename", "test.stl")]
  const FILE_NAME_PARAMS: seq<(string, string)> := [("name", "fileName")]

  /** The headers of the first part: the file. */
  const FILE_ID_DISPOSITION: Header := NamedHeader(DISPOSITION, "form-data", FILE_ID_PARAMS)
  const FILE_TYPE: Header := NamedHeader("Content-Type", "application/octet-stream", [])
  /** The header of the second part: the text field. */
  const FILE_NAME_DISPOSITION: Header := NamedHeader(DISPOSITION, "form-data", FILE_NAME_PARAMS)

  function LineOfHeader(h: Header): string
    requires h.NamedHeader?
  {
    LineOf(h.name, h.value, h.params)
  }

  lemma DispositionPlain()
    ensures DISPOSITION != [] && PlainText(DISPOSITION) && PlainText("form-data")
  {
  }

  lemma FileIdParamsPlain()
    ensures DistinctKeys(FILE_ID_PARAMS) && PlainPairs(FILE_ID_PARAMS)
  {
    assert Keys(FILE_ID_PARAMS) == ["name", "filename"];
  }

  lemma FileNameParamsPlain()
    ensures DistinctKeys(FILE_NAME_PARAMS) && PlainPairs(FILE_NAME_PARAMS)
  {
  }

  /** The first line of the file part is read back as written. */
  lemma FileIdLine()
    ensures var line := LineOfHeader(FILE_ID_DISPOSITION);
      IsAscii(line) && LacksChar(line, '\r') && ParseHeader(line) == Some(FILE_ID_DISPOSITION)
  {
    DispositionPlain();
    FileIdParamsPlain();
    WrittenLine(DISPOSITION, "form-data", FILE_ID_PARAMS);
  }

  /** The second line of the file part. */
  lemma FileTypeLine()
    ensures var line := LineOfHeader(FILE_TYPE);
      IsAscii(line) && LacksChar(line, '\r') && ParseHeader(line) == Some(FILE_TYPE)
  {
    assert PlainText("Content-Type");
    assert PlainText("application/octet-stream");
    WrittenLine("Content-Type", "application/octet-stream", []);
  }

  /** The line of the text field's part. */
  lemma FileNameLine()
    ensures var line := LineOfHeader(FILE_NAME_DISPOSITION);
      IsAscii(line) && LacksChar(line, '\r') && ParseHeader(line) == Some(FILE_NAME_DISPOSITION)
  {
    DispositionPlain();
    FileNameParamsPlain();
    WrittenLine(DISPOSITION, "form-data", FILE_NAME_PARAMS);
  }

  // The body, part by part

  function BoundaryBytes(): bytes {
    Ascii(BOUNDARY_TEXT)
  }

  function HeaderBytes(h: Header): bytes
    requires h in {FILE_ID_DISPOSITION, FILE_TYPE, FILE_NAME_DISPOSITION}
  {
    FileIdLine();
    FileTypeLine();
    FileNameLine();
    Ascii(LineOfHeader(h))
  }

  /** `test file`, CRLF, the closing boundary `------test_boundary--`, CRLF. */
  function TestContent(): bytes {
    Ascii("test content")
  }

  function TestFile(): bytes {
    Ascii("test file")
  }

  function LastPart(): bytes {
    TestFile() + CRLF + BoundaryBytes() + END_OF_REQUEST
  }

  /** The second part's headers: the CRLF left after the boundary, its one header line, CRLFCRLF. */
  function SecondBlock(): bytes {
    Ascii("") + CRLF + HeaderBytes(FILE_NAME_DISPOSITION) + EOH + LastPart()
  }

  /** `test content`, CRLF, the boundary, then the second part. */
  function FirstPart(): bytes {
    TestContent() + CRLF + BoundaryBytes() + SecondBlock()
  }

  /** The first part's two header lines and CRLFCRLF. */
  function FirstBlock(): bytes {
    HeaderBytes(FILE_ID_DISPOSITION) + CRLF + HeaderBytes(FILE_TYPE) + EOH + FirstPart()
  }

  /** The request body of the test: the boundary line, then the two parts. */
  function SampleBody(): bytes {
    BoundaryBytes() + CRLF + FirstBlock()
  }

  /** The header set of the file part. */
  function FileHeaders(): HeaderSet {
    [(DISPOSITION, Single(FILE_ID_DISPOSITION)), ("Content-Type", Single(FILE_TYPE))]
  }

  /** The header set of the text field's part. */
  function FieldHeaders(): HeaderSet {
    [(DISPOSITION, Single(FILE_NAME_DISPOSITION))]
  }

  lemma FirstBlockHeaders()
    ensures ReadHeaders(FirstBlock()) == Ok((FileHeaders(), FirstPart()))
  {
    var l1, l2 := LineOfHeader(FILE_ID_DISPOSITION), LineOfHeader(FILE_TYPE);
    FileIdLine();
    FileTypeLine();
    assert FirstBlock() == Ascii(l1) + CRLF + Ascii(l2) + EOH + FirstPart();
    FileHeadersShape();
    TwoHeaderBlock(l1, Some(FILE_ID_DISPOSITION), l2, FILE_TYPE, FirstPart(), FirstBlock(), FileHeaders());
  }

  lemma FileHeadersShape()
    ensures FileHeaders() == Entries(Some(FILE_ID_DISPOSITION)) + [(FILE_TYPE.name, Single(FILE_TYPE))]
  {
  }

  lemma SecondBlockOpens()
    ensures !IsEndOfRequest(SecondBlock()) && !IsEndOfData(SecondBlock())
  {
    assert SecondBlock()[0] == CR;
  }

  lemma FirstDataCut()
    ensures ReadData(BoundaryBytes(), FirstPart()) == DataCut(false, TestContent(), SecondBlock())
  {
    var b := BoundaryBytes();
    assert b[0] == 45;
    DataPart("test content", b, SecondBlock());
  }

  lemma SecondBlockHeaders()
    ensures ReadHeaders(SecondBlock()) == Ok((FieldHeaders(), LastPart()))
  {
    var l := LineOfHeader(FILE_NAME_DISPOSITION);
    FileNameLine();
    assert ParseHeader("") == None;
    assert SecondBlock() == Ascii("") + CRLF + Ascii(l) + EOH + LastPart();
    FieldHeadersShape();
    TwoHeaderBlock("", None, l, FILE_NAME_DISPOSITION, LastPart(), SecondBlock(), FieldHeaders());
  }

  lemma FieldHeadersShape()
    ensures FieldHeaders() == Entries(None) + [(FILE_NAME_DISPOSITION.name, Single(FILE_NAME_DISPOSITION))]
  {
  }

  lemma LastDataCut()
    ensures ReadData(BoundaryBytes(), LastPart()) == DataCut(false, TestFile(), END_OF_REQUEST)
  {
    var b := BoundaryBytes();
    assert b[0] == 45;
    DataPart("test file", b, END_OF_REQUEST);
  }

  /** The body's first line is the boundary `------test_boundary`. */
  lemma SampleBoundaryLine()
    ensures ExtractBoundary(SampleBody()) == (Some(BoundaryBytes()), FirstBlock())
  {
    var b := BoundaryBytes();
    AsciiLacks(BOUNDARY_TEXT, '\r');
    NoCrlf(b);
    assert b[|b| - 1] != CR;
    ExtractBoundaryOfLine(b, FirstBlock());
  }

  /**
   * The request of the upload test, received as one chunk: the parser finds
   * the boundary, delivers `test content` under the file part's two headers
   * and then `test file` under the field's one header, and stops without an
   * error.
   */
  lemma SampleTrace()
    ensures Receive(Initial(), SampleBody()) ==
      (ParserState(Some(BoundaryBytes()), PumpState(false, END_OF_REQUEST, [FileHeaders(), FieldHeaders()],
        [(FileHeaders(), TestContent()), (FieldHeaders(), TestFile())])), None)
  {
    SampleBoundaryLine();
    FirstBlockHeaders();
    FirstDataCut();
    SecondBlockOpens();
    SecondBlockHeaders();
    LastDataCut();
    TwoPartReceive(SampleBody(), BoundaryBytes(), FirstBlock(), FileHeaders(), FirstPart(), TestContent(),
      SecondBlock(), FieldHeaders(), LastPart(), TestFile());
  }
}

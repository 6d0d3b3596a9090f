/**
 * The pure half of the streaming `multipart/form-data` reader
 * (`mobius/www/utils.py`, `PostContentHandler`): byte search and splitting, the
 * boundary line, the two header regular expressions written out as scanners,
 * header blocks, the cut of data at the boundary and the two end tests.
 */
module Multipart {
  import opened Wrappers
  import opened Text
  import opened Dicts
  import opened HeaderPattern
  import opened HeaderParams

  // ---------------------------------------------------------------------------
  // Searching and splitting bytes

  predicate OccursAt<T(==)>(s: seq<T>, p: seq<T>, i: int) {
    0 <= i && i + |p| <= |s| && s[i..i + |p|] == p
  }

  /** `s.find(p, k)`: the first occurrence at or after `k`, or -1. */
  function FindFrom<T(==)>(s: seq<T>, p: seq<T>, k: nat): (i: int)
    ensures i == -1 || (k <= i && OccursAt(s, p, i))
    ensures forall j :: k <= j && (i == -1 || j < i) ==> !OccursAt(s, p, j)
    decreases |s| - k
  {
    if k + |p| > |s| then -1
    else if s[k..k + |p|] == p then k
    else FindFrom(s, p, k + 1)
  }

  /** `s.find(p)` */
  function Find<T(==)>(s: seq<T>, p: seq<T>): (i: int)
    ensures i == -1 || OccursAt(s, p, i)
    ensures forall j :: 0 <= j && (i == -1 || j < i) ==> !OccursAt(s, p, j)
  {
    FindFrom(s, p, 0)
  }

  /** `s.split(sep, 1)` unpacked into two names: None is the `ValueError` of a missing separator. */
  function SplitOnce<T(==)>(s: seq<T>, sep: seq<T>): (r: Option<(seq<T>, seq<T>)>)
    ensures r.None? <==> Find(s, sep) == -1
    ensures r.Some? ==> s == r.value.0 + sep + r.value.1
    ensures r.Some? ==> forall j :: 0 <= j < |r.value.0| ==> !OccursAt(s, sep, j)
  {
    var i := Find(s, sep);
    if i == -1 then None
    else
      assert s == s[..i] + sep + s[i + |sep|..];
      Some((s[..i], s[i + |sep|..]))
  }

  /** `s.split(sep)` for a non-empty separator. */
  function SplitAll<T(==)>(s: seq<T>, sep: seq<T>): (parts: seq<seq<T>>)
    requires sep != []
    ensures parts != []
    ensures |parts| == 1 <==> Find(s, sep) == -1
    decreases |s|
  {
    match SplitOnce(s, sep)
    case None => [s]
    case Some((a, b)) => [a] + SplitAll(b, sep)
  }

  /** `sep.join(parts)` */
  function Join<T>(parts: seq<seq<T>>, sep: seq<T>): seq<T>
    requires parts != []
  {
    if |parts| == 1 then parts[0] else parts[0] + sep + Join(parts[1..], sep)
  }

  /** Splitting loses nothing: joining the parts back gives the input, and no part holds the separator. */
  lemma {:induction false} SplitJoin<T>(s: seq<T>, sep: seq<T>)
    requires sep != []
    ensures Join(SplitAll(s, sep), sep) == s
    ensures forall i :: 0 <= i < |SplitAll(s, sep)| ==> Find(SplitAll(s, sep)[i], sep) == -1
    decreases |s|
  {
    match SplitOnce(s, sep)
    case None =>
    case Some((a, b)) =>
      SplitJoin(b, sep);
      NoOccurrenceInPrefix(s, sep, a);
      var parts := SplitAll(s, sep);
      assert parts == [a] + SplitAll(b, sep);
      assert parts[1..] == SplitAll(b, sep);
  }

  /** A prefix before the first occurrence holds no occurrence itself. */
  lemma NoOccurrenceInPrefix<T>(s: seq<T>, sep: seq<T>, a: seq<T>)
    requires sep != [] && a <= s
    requires forall j :: 0 <= j < |a| ==> !OccursAt(s, sep, j)
    ensures Find(a, sep) == -1
  {
    if Find(a, sep) != -1 {
      var j := Find(a, sep);
      assert a[j..j + |sep|] == s[j..j + |sep|];
      assert OccursAt(s, sep, j);
    }
  }

  // ---------------------------------------------------------------------------
  // Constants of PostContentHandler

  /** `BOUNDARY_SEARCH_BUF_SIZE` */
  const BOUNDARY_SEARCH_BUF_SIZE: nat := 1000
  /** `EOH_SEP`, `b'\r\n\r\n'` */
  const EOH: bytes := [CR, LF, CR, LF]
  /** `b"--" + SEP` */
  const END_OF_REQUEST: bytes := [45, 45, CR, LF]

  /** `_is_end_of_request(buf)` */
  predicate IsEndOfRequest(buf: bytes)
    ensures IsEndOfRequest(buf) <==> buf == [45, 45] + CRLF
  {
    buf == END_OF_REQUEST
  }

  /** `_is_end_of_data(buf)` */
  predicate IsEndOfData(buf: bytes)
    ensures IsEndOfData(buf) ==> !IsEndOfRequest(buf) && Find(buf, CRLF) == -1
  {
    buf == []
  }

  // ---------------------------------------------------------------------------
  // The boundary line

  /** `_extract_boundary(buf)`: the text before the first CRLF and what follows it, or (None, buf). */
  function ExtractBoundary(buf: bytes): (r: (Option<bytes>, bytes))
    ensures r.0.Some? ==> buf == r.0.value + CRLF + r.1 && Find(r.0.value, CRLF) == -1
    ensures r.0.None? <==> Find(buf, CRLF) == -1
    ensures r.0.None? ==> r.1 == buf
  {
    match SplitOnce(buf, CRLF)
    case None => (None, buf)
    case Some((b, rest)) =>
      NoOccurrenceInPrefix(buf, CRLF, b);
      (Some(b), rest)
  }

  /** The boundary is exactly the first line: a line without CRLF followed by CRLF and anything is split there. */
  lemma ExtractBoundaryOfLine(line: bytes, rest: bytes)
    requires Find(line, CRLF) == -1
    ensures ExtractBoundary(line + CRLF + rest) == (Some(line), rest)
  {
    var s := line + CRLF + rest;
    assert OccursAt(s, CRLF, |line|);
    var i := Find(s, CRLF);
    assert i <= |line|;
    assert s[|line|] == CR;
    if i < |line| {
      if i + 2 <= |line| {
        assert line[i..i + 2] == s[i..i + 2];
        assert OccursAt(line, CRLF, i);
        assert false;
      } else {
        assert false;
      }
    }
    assert s[..|line|] == line;
    assert s[|line| + 2..] == rest;
  }

  // ---------------------------------------------------------------------------
  // Cutting data at the boundary

  /** What `_read_data` computes: whether data is still arriving, the data to deliver, and the new buffer. */
  datatype DataCut = DataCut(receiving: bool, data: bytes, rest: bytes)

  /** `buf[:k]` with Python's reading of a negative `k` as counting from the end. */
  function SliceTo(buf: bytes, k: int): (r: bytes)
    ensures k >= 0 ==> r == buf[..if k <= |buf| then k else |buf|]
    ensures k < 0 ==> r == buf[..if |buf| + k >= 0 then |buf| + k else 0]
  {
    if k >= 0 then buf[..if k <= |buf| then k else |buf|]
    else buf[..if |buf| + k >= 0 then |buf| + k else 0]
  }

  /**
   * `_read_data(buf)` as written: with the boundary at index i it delivers
   * `buf[:i - 2]`, which for i = 0 or 1 is a slice from the end.
   */
  function ReadDataAsWritten(boundary: bytes, buf: bytes): (r: DataCut)
    ensures var i := Find(buf, boundary);
      i >= 0 ==> r == DataCut(false, SliceTo(buf, i - 2), buf[i + |boundary|..])
    ensures Find(buf, boundary) == -1 ==> r == DataCut(true, buf, [])
  {
    var i := Find(buf, boundary);
    if i >= 0 then DataCut(false, SliceTo(buf, i - 2), buf[i + |boundary|..])
    else DataCut(true, buf, [])
  }

  /**
   * `_read_data(buf)` as intended: the data is what precedes the CRLF before
   * the boundary, and never reaches past the boundary's first byte.
   */
  function ReadData(boundary: bytes, buf: bytes): (r: DataCut)
    ensures var i := Find(buf, boundary);
      i >= 0 ==> !r.receiving && r.data == buf[..if i >= 2 then i - 2 else 0] && r.rest == buf[i + |boundary|..]
    ensures Find(buf, boundary) == -1 <==> r.receiving
    ensures r.receiving ==> r.data == buf && r.rest == []
  {
    var i := Find(buf, boundary);
    if i >= 0 then DataCut(false, buf[..if i >= 2 then i - 2 else 0], buf[i + |boundary|..])
    else DataCut(true, buf, [])
  }

  /** The two agree whenever at least two bytes precede the boundary, as they do after a CRLF. */
  lemma ReadDataAgrees(boundary: bytes, buf: bytes)
    requires Find(buf, boundary) == -1 || Find(buf, boundary) >= 2
    ensures ReadDataAsWritten(boundary, buf) == ReadData(boundary, buf)
  {
  }

  /**
   * What the intended cut delivers never holds the boundary: the data, the two
   * bytes before the boundary, the boundary and the rest make up the buffer.
   */
  lemma ReadDataSplits(boundary: bytes, buf: bytes)
    requires boundary != [] && Find(buf, boundary) >= 2
    ensures var i := Find(buf, boundary); var r := ReadData(boundary, buf);
      buf == r.data + buf[i - 2..i] + boundary + r.rest && Find(r.data, boundary) == -1
  {
    var i := Find(buf, boundary);
    var r := ReadData(boundary, buf);
    assert buf == buf[..i - 2] + buf[i - 2..i] + buf[i..i + |boundary|] + buf[i + |boundary|..];
    forall j | 0 <= j < |r.data| ensures !OccursAt(buf, boundary, j) { }
    NoOccurrenceInPrefix(buf, boundary, r.data);
  }

  /**
   * As written, a buffer that starts with the boundary (the CRLF before it came
   * at the end of the previous chunk) has all but its last two bytes delivered
   * as data, boundary included.
   */
  lemma ReadDataAsWrittenDeliversBoundary()
    ensures var boundary: bytes := [45, 45, 98];                // "--b"
      var buf: bytes := [45, 45, 98, 45, 45, CR, LF];          // "--b--\r\n"
      ReadDataAsWritten(boundary, buf).data == [45, 45, 98, 45, 45] &&
      ReadData(boundary, buf).data == []
  {
    var boundary: bytes := [45, 45, 98];
    var buf: bytes := [45, 45, 98, 45, 45, CR, LF];
    assert OccursAt(buf, boundary, 0);
  }

  // ---------------------------------------------------------------------------
  // Headers

  /** A header dictionary: `{'name', 'value', 'params'}` for a matching line, `{'value': line}` for another. */
  datatype Header =
    | NamedHeader(name: string, value: string, params: seq<(string, string)>)
    | BareHeader(value: string)

  /** A value of the headers dictionary: one header, or the `'unknown'` list of nameless ones. */
  datatype HeaderEntry = Single(header: Header) | UnknownList(headers: seq<Header>)

  /** The headers of one part, keyed as `_read_headers` keys them, in insertion order. */
  type HeaderSet = seq<(string, HeaderEntry)>

  /** `AttributeError`: appending to the dictionary of a header that is itself named `unknown`. */
  datatype HeaderError = AppendToHeader

  /** `_parse_header(line)`: None is the empty dictionary of an empty line. */
  function ParseHeader(line: string): (h: Option<Header>)
    ensures h.None? <==> line == []
    ensures h.Some? && h.value.NamedHeader? ==>
      (MatchHeaderValue(line).Some? &&
       var m := MatchHeaderValue(line).value; h.value == NamedHeader(m.name, m.value, ParseParams(m.tail)))
    ensures h.Some? && h.value.BareHeader? ==> MatchHeaderValue(line).None? && h.value.value == line
  {
    match MatchHeaderValue(line)
    case Some(m) => Some(NamedHeader(m.name, m.value, ParseParams(m.tail)))
    case None => if line != [] then Some(BareHeader(line)) else None
  }

  /** Where an entry may sit: a header under its own name, the nameless ones listed under `unknown`. */
  predicate EntryFits(k: string, e: HeaderEntry) {
    && (e.Single? ==> e.header.NamedHeader? && e.header.name == k)
    && (e.UnknownList? ==> k == "unknown" && forall j :: 0 <= j < |e.headers| ==> e.headers[j].BareHeader?)
  }

  ghost predicate WellKeyed(hs: HeaderSet) {
    DistinctKeys(hs) && forall k :: HasKey(hs, k) ==> EntryFits(k, Lookup(hs, k).value)
  }

  lemma InsertWellKeyed(hs: HeaderSet, k: string, e: HeaderEntry)
    requires WellKeyed(hs) && EntryFits(k, e)
    ensures WellKeyed(Insert(hs, k, e))
  {
    var r := Insert(hs, k, e);
    forall k' | HasKey(r, k') ensures EntryFits(k', Lookup(r, k').value) {
      if k' != k {
        InsertOther(hs, k, e, k');
      }
    }
  }

  /** The nameless headers already listed under `unknown`: none when the key is absent or holds a named header. */
  function UnknownOf(hs: HeaderSet): seq<Header> {
    var e: Option<HeaderEntry> := Lookup(hs, "unknown");
    match e
    case Some(UnknownList(xs)) => xs
    case _ => []
  }

  /** One header line of the block, added as the loop of `_read_headers` adds it. */
  function AddHeader(acc: HeaderSet, h: Header): (r: Result<HeaderSet, HeaderError>)
    requires WellKeyed(acc)
    ensures r.Ok? ==> WellKeyed(r.value)
    ensures r.Err? <==> h.BareHeader? && Lookup(acc, "unknown").Some? && Lookup(acc, "unknown").value.Single?
    ensures h.NamedHeader? ==> r == Ok(Insert(acc, h.name, Single(h)))
    ensures h.BareHeader? && r.Ok? ==> r == Ok(Insert(acc, "unknown", UnknownList(UnknownOf(acc) + [h])))
  {
    if h.NamedHeader? then
      InsertWellKeyed(acc, h.name, Single(h));
      Ok(Insert(acc, h.name, Single(h)))
    else
      var existing: Option<HeaderEntry> := Lookup(acc, "unknown");
      if existing.None? then
        assert UnknownOf(acc) + [h] == [h];
        InsertWellKeyed(acc, "unknown", UnknownList([h]));
        Ok(Insert(acc, "unknown", UnknownList([h])))
      else if existing.value.Single? then Err(AppendToHeader)
      else
        var hs := existing.value.headers;
        InsertWellKeyed(acc, "unknown", UnknownList(hs + [h]));
        Ok(Insert(acc, "unknown", UnknownList(hs + [h])))
  }

  /**
   * The loop of `_read_headers` over the remaining lines: a line that is not
   * UTF-8 ends it with the `ValueError` handler, which keeps what was added so
   * far and hands back the whole buffer.
   */
  function AddHeaders(acc: HeaderSet, lines: seq<bytes>, buf: bytes, rest: bytes): (r: Result<(HeaderSet, bytes), HeaderError>)
    requires WellKeyed(acc)
    ensures r.Ok? ==> WellKeyed(r.value.0) && (r.value.1 == rest || r.value.1 == buf)
    decreases |lines|
  {
    if lines == [] then Ok((acc, rest))
    else match Utf8Decode(lines[0])
      case None => Ok((acc, buf))
      case Some(text) =>
        match ParseHeader(text)
        case None => AddHeaders(acc, lines[1..], buf, rest)
        case Some(h) =>
          match AddHeader(acc, h)
          case Err(e) => Err(e)
          case Ok(acc') => AddHeaders(acc', lines[1..], buf, rest)
  }

  /**
   * `_read_headers(buf)`: the header block ends at the first CRLFCRLF and is
   * split at CRLF. Without CRLFCRLF nothing is read and the buffer is kept.
   */
  function ReadHeaders(buf: bytes): (r: Result<(HeaderSet, bytes), HeaderError>)
    ensures Find(buf, EOH) == -1 ==> r == Ok(([], buf))
    ensures r.Ok? ==> WellKeyed(r.value.0)
    ensures r.Ok? ==> r.value.1 == buf || (SplitOnce(buf, EOH).Some? && r.value.1 == SplitOnce(buf, EOH).value.1)
  {
    match SplitOnce(buf, EOH)
    case None => Ok(([], buf))
    case Some((block, rest)) => AddHeaders([], SplitAll(block, CRLF), buf, rest)
  }

  /** After a header block the buffer is shorter by at least the four bytes of CRLFCRLF. */
  lemma ReadHeadersShrinks(buf: bytes)
    requires ReadHeaders(buf).Ok? && ReadHeaders(buf).value.1 != buf
    ensures |ReadHeaders(buf).value.1| + 4 <= |buf|
  {
  }

  // ---------------------------------------------------------------------------
  // What a header block holds

  /** The headers the lines parse to, in order, empty lines dropped; None when a line is not UTF-8. */
  function ParsedLines(lines: seq<bytes>): Option<seq<Header>>
    decreases |lines|
  {
    if lines == [] then Some([])
    else match (Utf8Decode(lines[0]), ParsedLines(lines[1..]))
      case (Some(text), Some(later)) =>
        (match ParseHeader(text) case None => Some(later) case Some(h) => Some([h] + later))
      case _ => None
  }

  /** The last header of the list named `k`, if any. */
  function LastNamed(hs: seq<Header>, k: string): (r: Option<Header>)
    ensures r.Some? ==> exists i :: 0 <= i < |hs| && hs[i] == r.value && r.value.NamedHeader? && r.value.name == k
    ensures r.None? ==> forall i :: 0 <= i < |hs| && hs[i].NamedHeader? ==> hs[i].name != k
  {
    if hs == [] then None
    else
      var later := LastNamed(hs[1..], k);
      if later.Some? then
        assert exists i :: 0 <= i < |hs[1..]| && hs[1..][i] == later.value;
        later
      else if hs[0].NamedHeader? && hs[0].name == k then Some(hs[0])
      else
        assert forall i :: 1 <= i < |hs| ==> hs[i] == hs[1..][i - 1];
        None
  }

  /** The nameless headers of the list, in order. */
  function Bare(hs: seq<Header>): (r: seq<Header>)
    ensures |r| <= |hs|
    ensures forall i :: 0 <= i < |r| ==> r[i].BareHeader?
  {
    if hs == [] then [] else (if hs[0].BareHeader? then [hs[0]] else []) + Bare(hs[1..])
  }

  /** Whether some header of the list is named `unknown`. */
  predicate NamesUnknown(hs: seq<Header>) {
    exists i :: 0 <= i < |hs| && hs[i].NamedHeader? && hs[i].name == "unknown"
  }

  /**
   * Every named header is stored under its name, a later one replacing an
   * earlier one; keys the lines do not name keep their value.
   */
  lemma {:induction false} AddHeadersNamed(acc: HeaderSet, lines: seq<bytes>, buf: bytes, rest: bytes, k: string)
    requires WellKeyed(acc) && ParsedLines(lines).Some? && k != "unknown"
    requires AddHeaders(acc, lines, buf, rest).Ok?
    ensures var found := LastNamed(ParsedLines(lines).value, k);
      Lookup(AddHeaders(acc, lines, buf, rest).value.0, k) ==
        (if found.Some? then Some(Single(found.value)) else Lookup(acc, k))
    decreases |lines|
  {
    if lines != [] {
      var text := Utf8Decode(lines[0]).value;
      var later := ParsedLines(lines[1..]).value;
      match ParseHeader(text)
      case None =>
        AddHeadersNamed(acc, lines[1..], buf, rest, k);
      case Some(h) =>
        var acc' := AddHeader(acc, h).value;
        AddHeadersNamed(acc', lines[1..], buf, rest, k);
        assert ParsedLines(lines).value == [h] + later;
        assert ([h] + later)[1..] == later;
        if h.NamedHeader? && h.name != k {
          InsertOther(acc, h.name, Single(h), k);
        } else if h.BareHeader? {
          InsertOther(acc, "unknown", UnknownList(UnknownOf(acc) + [h]), k);
        }
    }
  }

  /** `unknown` is absent or holds the list of nameless headers. */
  predicate UnknownIsList(hs: HeaderSet) {
    Lookup(hs, "unknown").None? || Lookup(hs, "unknown").value.UnknownList?
  }

  /** One header not named `unknown` adds itself to the `unknown` list exactly when it is nameless. */
  lemma AddHeaderUnknown(acc: HeaderSet, h: Header)
    requires WellKeyed(acc) && UnknownIsList(acc) && !(h.NamedHeader? && h.name == "unknown")
    ensures var r := AddHeader(acc, h);
      && r.Ok? && UnknownIsList(r.value)
      && UnknownOf(r.value) == UnknownOf(acc) + Bare([h])
      && (Lookup(r.value, "unknown").None? <==> Lookup(acc, "unknown").None? && h.NamedHeader?)
  {
    assert Bare([h]) == (if h.BareHeader? then [h] else []) + Bare([h][1..]);
    if h.NamedHeader? {
      InsertOther(acc, h.name, Single(h), "unknown");
    }
  }

  /** No line is named `unknown` in the headers after the first. */
  lemma NamesUnknownTail(h: Header, later: seq<Header>)
    requires !NamesUnknown([h] + later)
    ensures !NamesUnknown(later) && !(h.NamedHeader? && h.name == "unknown")
  {
    var hs := [h] + later;
    assert hs[0] == h;
    forall i | 0 <= i < |later| ensures !(later[i].NamedHeader? && later[i].name == "unknown") {
      assert later[i] == hs[i + 1];
    }
  }

  /**
   * With no header named `unknown`, adding never fails and every nameless
   * header is appended to the `unknown` list, in order.
   */
  lemma {:induction false} AddHeadersBare(acc: HeaderSet, lines: seq<bytes>, buf: bytes, rest: bytes)
    requires WellKeyed(acc) && UnknownIsList(acc) && ParsedLines(lines).Some? && !NamesUnknown(ParsedLines(lines).value)
    ensures var r := AddHeaders(acc, lines, buf, rest);
      r.Ok? && UnknownIsList(r.value.0) && UnknownOf(r.value.0) == UnknownOf(acc) + Bare(ParsedLines(lines).value)
    decreases |lines|
  {
    if lines != [] {
      var later := ParsedLines(lines[1..]).value;
      match ParseHeader(Utf8Decode(lines[0]).value)
      case None =>
        AddHeadersBare(acc, lines[1..], buf, rest);
      case Some(h) =>
        NamesUnknownTail(h, later);
        AddHeaderUnknown(acc, h);
        AddHeadersBare(AddHeader(acc, h).value, lines[1..], buf, rest);
        BareConcat([h], later);
        Assoc(UnknownOf(acc), Bare([h]), Bare(later));
    }
  }

  /** Under the same conditions, `unknown` is present afterwards exactly when it was before or a nameless header came. */
  lemma {:induction false} AddHeadersUnknownKey(acc: HeaderSet, lines: seq<bytes>, buf: bytes, rest: bytes)
    requires WellKeyed(acc) && UnknownIsList(acc) && ParsedLines(lines).Some? && !NamesUnknown(ParsedLines(lines).value)
    requires AddHeaders(acc, lines, buf, rest).Ok?
    ensures Lookup(AddHeaders(acc, lines, buf, rest).value.0, "unknown").None? <==>
      Lookup(acc, "unknown").None? && Bare(ParsedLines(lines).value) == []
    decreases |lines|
  {
    if lines != [] {
      var later := ParsedLines(lines[1..]).value;
      match ParseHeader(Utf8Decode(lines[0]).value)
      case None =>
        AddHeadersUnknownKey(acc, lines[1..], buf, rest);
      case Some(h) =>
        NamesUnknownTail(h, later);
        AddHeaderUnknown(acc, h);
        AddHeadersUnknownKey(AddHeader(acc, h).value, lines[1..], buf, rest);
        BareConcat([h], later);
    }
  }

  lemma {:induction false} BareConcat(a: seq<Header>, b: seq<Header>)
    ensures Bare(a + b) == Bare(a) + Bare(b)
    decreases |a|
  {
    if a != [] {
      var first: seq<Header> := if a[0].BareHeader? then [a[0]] else [];
      assert (a + b)[0] == a[0];
      assert (a + b)[1..] == a[1..] + b;
      assert Bare(a + b) == first + Bare(a[1..] + b);
      assert Bare(a) == first + Bare(a[1..]);
      BareConcat(a[1..], b);
      Assoc(first, Bare(a[1..]), Bare(b));
    } else {
      assert a + b == b;
    }
  }

  /** The whole buffer is handed back exactly when a line of the block is not UTF-8. */
  lemma {:induction false} AddHeadersRest(acc: HeaderSet, lines: seq<bytes>, buf: bytes, rest: bytes)
    requires WellKeyed(acc) && rest != buf && AddHeaders(acc, lines, buf, rest).Ok?
    ensures AddHeaders(acc, lines, buf, rest).value.1 == buf <==> ParsedLines(lines).None?
    ensures ParsedLines(lines).Some? ==> AddHeaders(acc, lines, buf, rest).value.1 == rest
    decreases |lines|
  {
    if lines != [] && Utf8Decode(lines[0]).Some? {
      var text := Utf8Decode(lines[0]).value;
      match ParseHeader(text)
      case None =>
        AddHeadersRest(acc, lines[1..], buf, rest);
      case Some(h) =>
        AddHeadersRest(AddHeader(acc, h).value, lines[1..], buf, rest);
    }
  }

  /** The lines of a header block. */
  function BlockLines(buf: bytes): seq<bytes>
    requires SplitOnce(buf, EOH).Some?
  {
    SplitAll(SplitOnce(buf, EOH).value.0, CRLF)
  }

  /**
   * `_read_headers` on a block whose lines are all UTF-8 and name no header
   * `unknown`: each name maps to the last header of that name, `unknown` lists
   * the nameless ones in order (absent when there are none), and the buffer
   * continues after the block.
   */
  lemma ReadHeadersContents(buf: bytes, k: string)
    requires SplitOnce(buf, EOH).Some? && ParsedLines(BlockLines(buf)).Some?
    requires !NamesUnknown(ParsedLines(BlockLines(buf)).value)
    ensures var hs := ParsedLines(BlockLines(buf)).value; var r := ReadHeaders(buf);
      && r.Ok? && r.value.1 == SplitOnce(buf, EOH).value.1
      && (k != "unknown" ==> Lookup(r.value.0, k) == (if LastNamed(hs, k).Some? then Some(Single(LastNamed(hs, k).value)) else None))
      && Lookup(r.value.0, "unknown") == (if Bare(hs) == [] then None else Some(UnknownList(Bare(hs))))
  {
    var (block, rest) := SplitOnce(buf, EOH).value;
    var lines := BlockLines(buf);
    var none: HeaderSet := [];
    assert UnknownOf(none) == [];
    AddHeadersBare([], lines, buf, rest);
    AddHeadersUnknownKey([], lines, buf, rest);
    assert UnknownOf(none) + Bare(ParsedLines(lines).value) == Bare(ParsedLines(lines).value);
    AddHeadersRest([], lines, buf, rest);
    if k != "unknown" {
      AddHeadersNamed([], lines, buf, rest, k);
    }
  }

  /** After a header block, the whole buffer is kept exactly when a line of the block is not UTF-8. */
  lemma ReadHeadersKeepsBuffer(buf: bytes)
    requires SplitOnce(buf, EOH).Some? && ReadHeaders(buf).Ok?
    ensures ReadHeaders(buf).value.1 == buf <==> ParsedLines(BlockLines(buf)).None?
  {
    var (block, rest) := SplitOnce(buf, EOH).value;
    AddHeadersRest([], BlockLines(buf), buf, rest);
  }

  /** `_read_headers(buf)` with its `for` loop over the lines of the block. */
  method ReadHeadersLoop(buf: bytes) returns (r: Result<(HeaderSet, bytes), HeaderError>)
    ensures r == ReadHeaders(buf)
  {
    var split := SplitOnce(buf, EOH);
    if split.None? {
      return Ok(([], buf));
    }
    var (block, rest) := split.value;
    var lines := SplitAll(block, CRLF);
    var res: HeaderSet := [];
    var i := 0;
    while i < |lines|
      invariant 0 <= i <= |lines| && WellKeyed(res)
      invariant AddHeaders(res, lines[i..], buf, rest) == ReadHeaders(buf)
    {
      assert lines[i..][1..] == lines[i + 1..];
      var text := Utf8Decode(lines[i]);
      if text.None? {
        return Ok((res, buf));
      }
      var header := ParseHeader(text.value);
      if header.Some? {
        var added := AddHeader(res, header.value);
        if added.Err? {
          return Err(added.error);
        }
        res := added.value;
      }
      i := i + 1;
    }
    return Ok((res, rest));
  }
}

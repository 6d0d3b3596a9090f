/**
 * The stateful half of `PostContentHandler` (`mobius/www/utils.py`): the
 * chunk-driven loop of `data_received`, which keeps a residual buffer between
 * calls and alternates between reading a header block and cutting data at the
 * boundary, and the upload progress. `receive_data`, which subclasses
 * implement, is recorded as a log of deliveries.
 */
module MultipartParser {
  import opened Wrappers
  import opened Text
  import opened Multipart

  /** An exception leaving `data_received`. */
  datatype ParserError =
    | NoDelimiter      // RuntimeError("Cannot find multipart delimiter.")
    | FindNone         // TypeError from `buf.find(None)`
    | HeaderAppend     // AttributeError from `_read_headers`
    | Hang             // the loop provably runs forever (see `HangRepeats`)

  /** What the loop changes: `_receiving_data`, `_buffer`, `header_list` and what has been delivered. */
  datatype PumpState = PumpState(receiving: bool, buffer: bytes, headerList: seq<HeaderSet>, delivered: seq<(HeaderSet, bytes)>)

  /** Data is only read once a header set has been appended. */
  predicate PumpValid(s: PumpState) { s.receiving ==> s.headerList != [] }

  datatype StepOutcome = Continue(next: PumpState) | Stop(last: PumpState) | Fail(at: PumpState, error: ParserError)
  {
    /** The state the step leaves behind, whatever its outcome. */
    function After(): PumpState {
      match this
      case Continue(s) => s
      case Stop(s) => s
      case Fail(s, _) => s
    }
  }

  /** One pass of the `while True` body of `data_received`, under the boundary `b`. */
  function Step(b: Option<bytes>, s: PumpState): (o: StepOutcome)
    requires PumpValid(s)
    ensures o.Continue? ==> PumpValid(o.next)
    ensures o.Stop? ==> PumpValid(o.last)
    ensures o.Fail? ==> o.at == s
    ensures s.delivered <= o.After().delivered
  {
    if s.receiving then
      if b.None? then Fail(s, FindNone)
      else
        var cut := ReadData(b.value, s.buffer);
        var s' := PumpState(cut.receiving, cut.rest, s.headerList, s.delivered + [(s.headerList[|s.headerList| - 1], cut.data)]);
        if IsEndOfRequest(cut.rest) || IsEndOfData(cut.rest) then Stop(s') else Continue(s')
    else
      match ReadHeaders(s.buffer)
      case Err(_) => Fail(s, HeaderAppend)
      case Ok((hs, rest)) =>
        if hs == [] then Stop(s.(buffer := rest))
        else Continue(PumpState(true, rest, s.headerList + [hs], s.delivered))
  }

  /** The second component of the loop's measure: the step that keeps the buffer must still make progress. */
  function Flag(b: Option<bytes>, receiving: bool): nat {
    if b == Some([]) then (if receiving then 1 else 0) else (if receiving then 0 else 1)
  }

  /** A header block read with the buffer kept (a line that is not UTF-8) under an empty boundary: the loop cycles. */
  predicate Cycles(b: Option<bytes>, s: PumpState, s': PumpState) {
    b == Some([]) && !s.receiving && s'.buffer == s.buffer
  }

  lemma FindEmpty(s: bytes)
    ensures Find(s, []) == 0
  {
    assert OccursAt(s, [], 0);
  }

  /** Every continuing step shortens the buffer or lowers the flag, unless it starts a cycle. */
  lemma StepProgress(b: Option<bytes>, s: PumpState)
    requires PumpValid(s) && Step(b, s).Continue?
    ensures var s' := Step(b, s).next;
      |s'.buffer| < |s.buffer| || (|s'.buffer| == |s.buffer| && Flag(b, s'.receiving) < Flag(b, s.receiving)) ||
      Cycles(b, s, s')
  {
    if s.receiving {
      if b.value == [] {
        FindEmpty(s.buffer);
      }
    } else {
      var s' := Step(b, s).next;
      if s'.buffer != s.buffer {
        ReadHeadersShrinks(s.buffer);
      }
    }
  }

  /** The whole loop: steps until one stops or fails, or until a cycle starts. */
  function Pump(b: Option<bytes>, s: PumpState): (r: (PumpState, Option<ParserError>))
    requires PumpValid(s)
    ensures PumpValid(r.0)
    ensures s.delivered <= r.0.delivered
    decreases |s.buffer|, Flag(b, s.receiving)
  {
    match Step(b, s)
    case Stop(s') => (s', None)
    case Fail(s', e) => (s', Some(e))
    case Continue(s') =>
      StepProgress(b, s);
      if Cycles(b, s, s') then (s', Some(Hang)) else Pump(b, s')
  }

  lemma NotEndWithHeaders(buf: bytes)
    requires Find(buf, EOH) != -1
    ensures !IsEndOfRequest(buf) && !IsEndOfData(buf)
  {
    var i := Find(buf, EOH);
    assert buf[i..i + 4] == EOH;
    assert buf[i] == CR;
    if |buf| == 4 {
      assert i == 0 && buf[0] != 45;
    }
  }

  /**
   * Why a cycle is a hang: from a state that starts one, two steps return to a
   * state that starts the same cycle, with the same buffer, one more header
   * set and one more (empty) delivery; so the loop never leaves it.
   */
  lemma HangRepeats(s: PumpState)
    requires PumpValid(s) && Step(Some([]), s).Continue? && Cycles(Some([]), s, Step(Some([]), s).next)
    ensures var s1 := Step(Some([]), s).next;
      Step(Some([]), s1).Continue? &&
      var s2 := Step(Some([]), s1).next;
      s2 == PumpState(false, s.buffer, s1.headerList, s.delivered + [(s1.headerList[|s1.headerList| - 1], [])]) &&
      |s1.headerList| == |s.headerList| + 1 &&
      Step(Some([]), s2).Continue? && Cycles(Some([]), s2, Step(Some([]), s2).next)
  {
    var b: Option<bytes> := Some([]);
    var s1 := Step(b, s).next;
    assert ReadHeaders(s.buffer).Ok?;
    assert SplitOnce(s.buffer, EOH).Some?;
    NotEndWithHeaders(s.buffer);
    FindEmpty(s.buffer);
    var s2 := Step(b, s1).next;
    assert s2.buffer == s.buffer;
  }

  /**
   * The cut as written under an empty boundary: `find(b"")` is 0, so every
   * data pass delivers all but the last two bytes and keeps the whole buffer.
   */
  lemma EmptyBoundaryCutAsWritten(buf: bytes)
    ensures ReadDataAsWritten([], buf) == DataCut(false, buf[..if |buf| >= 2 then |buf| - 2 else 0], buf)
  {
    FindEmpty(buf);
  }

  // ---------------------------------------------------------------------------
  // data_received

  /** `not self._boundary`: no boundary yet, or an empty one. */
  predicate NoBoundary(b: Option<bytes>) { b.None? || b.value == [] }

  /** The parser's whole state apart from the byte count. */
  datatype ParserState = ParserState(boundary: Option<bytes>, pump: PumpState)

  /** `initialize()` */
  function Initial(): (st: ParserState)
    ensures NoBoundary(st.boundary) && PumpValid(st.pump)
    ensures !st.pump.receiving && st.pump.buffer == [] && st.pump.headerList == [] && st.pump.delivered == []
  {
    ParserState(None, PumpState(false, [], [], []))
  }

  /**
   * `data_received(chunk)`: the chunk joins the buffer; while there is no
   * boundary it is looked for first (a RuntimeError when it is still missing
   * after more than 1000 bytes); then the loop runs.
   */
  function Receive(st: ParserState, chunk: bytes): (r: (ParserState, Option<ParserError>))
    requires PumpValid(st.pump)
    ensures PumpValid(r.0.pump)
    ensures st.pump.delivered <= r.0.pump.delivered
  {
    var buf := st.pump.buffer + chunk;
    if NoBoundary(st.boundary) then
      var (b, rest) := ExtractBoundary(buf);
      if NoBoundary(b) && |rest| > BOUNDARY_SEARCH_BUF_SIZE then (ParserState(b, st.pump.(buffer := rest)), Some(NoDelimiter))
      else var (p, e) := Pump(b, st.pump.(buffer := rest)); (ParserState(b, p), e)
    else
      var (p, e) := Pump(st.boundary, st.pump.(buffer := buf)); (ParserState(st.boundary, p), e)
  }

  /** `(count * 100) // total`: None is the ZeroDivisionError of a zero total. */
  function ProgressOf(count: int, total: int): (p: Option<int>)
    ensures p.None? <==> total == 0
    ensures 0 <= count <= total && total > 0 ==> p.Some? && 0 <= p.value <= 100
    ensures total > 0 ==> p.value * total <= count * 100 < (p.value + 1) * total
  {
    if total == 0 then None
    else
      var q := FloorDiv(count * 100, total);
      if total > 0 then
        PercentBounds(count, total, q);
        Some(q)
      else Some(q)
  }

  /** The floor of count × 100 / total, read back from its defining bounds. */
  lemma PercentBounds(count: int, total: int, q: int)
    requires total > 0 && total * q <= count * 100 < total * q + total
    ensures q * total <= count * 100 < (q + 1) * total
    ensures 0 <= count <= total ==> 0 <= q <= 100
  {
    assert (q + 1) * total == total * q + total;
    if 0 <= count <= total {
      if q < 0 {
        MulMonotone(total, q, -1);
      } else if q > 100 {
        MulMonotone(total, 101, q);
      }
    }
  }

  lemma MulMonotone(a: int, b: int, c: int)
    requires a > 0 && b <= c
    ensures a * b <= a * c
  {
    assert a * c - a * b == a * (c - b);
  }

  class PostContentParser {
    var boundary: Option<bytes>
    var receiving: bool
    var headerList: seq<HeaderSet>
    var buffer: bytes
    var count: int
    var total: int
    /** Every `receive_data(headers, data)` call, in order. */
    var delivered: seq<(HeaderSet, bytes)>

    predicate Valid()
      reads this
    {
      receiving ==> headerList != []
    }

    function State(): ParserState
      reads this
    {
      ParserState(boundary, PumpState(receiving, buffer, headerList, delivered))
    }

    /** `initialize()` */
    constructor()
      ensures Valid() && State() == Initial() && count == 0 && total == 1
    {
      boundary := None;
      receiving := false;
      headerList := [];
      buffer := [];
      count := 0;
      total := 1;
      delivered := [];
    }

    /** `prepare()`: the total is `int(Content-Length)`; a ValueError when it is not an integer. */
    method Prepare(contentLength: string) returns (ok: bool)
      modifies this
      ensures ok <==> ParsePyInt(contentLength).Some?
      ensures ok ==> total == ParsePyInt(contentLength).value
      ensures !ok ==> total == old(total)
      ensures State() == old(State()) && count == old(count)
    {
      var n := ParsePyInt(contentLength);
      if n.None? {
        return false;
      }
      total := n.value;
      return true;
    }

    /** `progress` */
    function Progress(): (p: Option<int>)
      reads this
      ensures p == ProgressOf(count, total)
    {
      if total == 0 then None else Some(FloorDiv(count * 100, total))
    }

    /** `_read_data(buf)`: cuts the buffer at the boundary and delivers the data with the last header set. */
    method ReadDataStep(b: bytes, buf: bytes) returns (cut: DataCut)
      requires headerList != []
      modifies this
      ensures cut == ReadData(b, buf)
      ensures boundary == old(boundary) && receiving == old(receiving) && headerList == old(headerList)
      ensures delivered == old(delivered) + [(headerList[|headerList| - 1], cut.data)]
      ensures buffer == old(buffer) && count == old(count) && total == old(total)
    {
      var i := Find(buf, b);
      if i >= 0 {
        cut := DataCut(false, buf[..if i >= 2 then i - 2 else 0], buf[i + |b|..]);
      } else {
        cut := DataCut(true, buf, []);
      }
      delivered := delivered + [(headerList[|headerList| - 1], cut.data)];
    }

    /** `data_received(chunk)` */
    method DataReceived(chunk: bytes) returns (err: Option<ParserError>)
      requires Valid()
      modifies this
      ensures Valid()
      ensures (State(), err) == Receive(old(State()), chunk)
      ensures count == old(count) + |chunk| && total == old(total)
    {
      ghost var start := State();
      count := count + |chunk|;
      buffer := buffer + chunk;
      if NoBoundary(boundary) {
        var (b, rest) := ExtractBoundary(buffer);
        boundary, buffer := b, rest;
        if NoBoundary(boundary) && |buffer| > BOUNDARY_SEARCH_BUF_SIZE {
          return Some(NoDelimiter);
        }
      }
      err := PumpLoop();
    }

    /** The `while True` loop of `data_received`, under the boundary already found. */
    method PumpLoop() returns (err: Option<ParserError>)
      requires Valid()
      modifies this
      ensures Valid()
      ensures (State().pump, err) == Pump(boundary, old(State().pump))
      ensures boundary == old(boundary) && count == old(count) && total == old(total)
    {
      ghost var target := Pump(boundary, State().pump);
      while true
        invariant Valid()
        invariant Pump(boundary, State().pump) == target
        invariant boundary == old(boundary) && count == old(count) && total == old(total)
        decreases |buffer|, Flag(boundary, receiving)
      {
        ghost var before := State().pump;
        var prior, wasReceiving := buffer, receiving;
        var o := StepOnce();
        match o
        case Stop(_) => return None;
        case Fail(_, e) => return Some(e);
        case Continue(_) =>
          StepProgress(boundary, before);
          if boundary == Some([]) && !wasReceiving && buffer == prior {
            return Some(Hang);
          }
      }
    }

    /** One pass of the loop body: `_read_data` while receiving data, `_read_headers` otherwise. */
    method StepOnce() returns (o: StepOutcome)
      requires Valid()
      modifies this
      ensures Valid()
      ensures o == Step(boundary, old(State().pump)) && State().pump == o.After()
      ensures boundary == old(boundary) && count == old(count) && total == old(total)
    {
      if receiving {
        if boundary.None? {
          return Fail(State().pump, FindNone);
        }
        var cut := ReadDataStep(boundary.value, buffer);
        receiving, buffer := cut.receiving, cut.rest;
        if IsEndOfRequest(buffer) || IsEndOfData(buffer) {
          return Stop(State().pump);
        }
        return Continue(State().pump);
      } else {
        var read := ReadHeadersLoop(buffer);
        if read.Err? {
          return Fail(State().pump, HeaderAppend);
        }
        var (hs, rest) := read.value;
        if hs == [] {
          buffer := rest;
          return Stop(State().pump);
        }
        headerList := headerList + [hs];
        receiving := true;
        buffer := rest;
        return Continue(State().pump);
      }
    }
  }
}

/**
 * How the loop of `data_received` (`mobius/www/utils.py`) walks a body of
 * well-formed parts: each header block is read in the header state, each data
 * part is cut at the boundary and delivered under the header set read just
 * before it, and the loop stops at the closing `--` CRLF.
 */
module ParserTrace {
  import opened Wrappers
  import opened Text
  import opened Multipart
  import opened MultipartParser

  /** A non-empty header block read in the header state: the parser turns to the data. */
  lemma HeaderStep(b: Option<bytes>, s: PumpState, hs: HeaderSet, rest: bytes)
    requires PumpValid(s) && !s.receiving && ReadHeaders(s.buffer) == Ok((hs, rest)) && hs != []
    ensures Step(b, s) == Continue(PumpState(true, rest, s.headerList + [hs], s.delivered))
  {
  }

  /** A data part read in the data state: it is delivered under the last header set and the parser turns to headers. */
  lemma DataStep(b: bytes, s: PumpState, data: bytes, rest: bytes)
    requires PumpValid(s) && s.receiving && ReadData(b, s.buffer) == DataCut(false, data, rest)
    requires !IsEndOfRequest(rest) && !IsEndOfData(rest)
    ensures Step(Some(b), s) == Continue(PumpState(false, rest, s.headerList, s.delivered + [(s.headerList[|s.headerList| - 1], data)]))
  {
  }

  /** The data part before the closing boundary: it is delivered and the loop stops. */
  lemma LastDataStep(b: bytes, s: PumpState, data: bytes)
    requires PumpValid(s) && s.receiving && ReadData(b, s.buffer) == DataCut(false, data, END_OF_REQUEST)
    ensures Step(Some(b), s) == Stop(PumpState(false, END_OF_REQUEST, s.headerList, s.delivered + [(s.headerList[|s.headerList| - 1], data)]))
  {
  }

  /** Under a non-empty boundary, a header block read in the header state hands the rest of the buffer to the data state. */
  lemma PumpHeader(b: bytes, hl: seq<HeaderSet>, dl: seq<(HeaderSet, bytes)>, x: bytes, hs: HeaderSet, y: bytes)
    requires b != [] && ReadHeaders(x) == Ok((hs, y)) && hs != []
    ensures Pump(Some(b), PumpState(false, x, hl, dl)) == Pump(Some(b), PumpState(true, y, hl + [hs], dl))
  {
    HeaderStep(Some(b), PumpState(false, x, hl, dl), hs, y);
  }

  /** Under a non-empty boundary, a data part followed by more input is delivered and the loop goes on with the headers. */
  lemma PumpData(b: bytes, hl: seq<HeaderSet>, h: HeaderSet, dl: seq<(HeaderSet, bytes)>, y: bytes, d: bytes, x: bytes)
    requires b != [] && ReadData(b, y) == DataCut(false, d, x) && !IsEndOfRequest(x) && !IsEndOfData(x)
    ensures Pump(Some(b), PumpState(true, y, hl + [h], dl)) == Pump(Some(b), PumpState(false, x, hl + [h], dl + [(h, d)]))
  {
    DataStep(b, PumpState(true, y, hl + [h], dl), d, x);
  }

  /** The data part before the closing boundary is delivered and the loop ends without an error. */
  lemma PumpLastData(b: bytes, hl: seq<HeaderSet>, h: HeaderSet, dl: seq<(HeaderSet, bytes)>, y: bytes, d: bytes)
    requires ReadData(b, y) == DataCut(false, d, END_OF_REQUEST)
    ensures Pump(Some(b), PumpState(true, y, hl + [h], dl)) == (PumpState(false, END_OF_REQUEST, hl + [h], dl + [(h, d)]), None)
  {
    LastDataStep(b, PumpState(true, y, hl + [h], dl), d);
  }

  /**
   * A body of two parts after the boundary line: header block `x1` gives `h1`
   * and leaves `y1`, whose data `d1` is cut at the boundary and leaves the
   * second header block `x2`, which gives `h2` and leaves `y2`, whose data `d2`
   * ends at the closing boundary. The loop delivers `d1` under `h1` and `d2`
   * under `h2`, in that order, and stops without an error.
   */
  lemma TwoPartPump(b: bytes, x1: bytes, h1: HeaderSet, y1: bytes, d1: bytes,
                    x2: bytes, h2: HeaderSet, y2: bytes, d2: bytes)
    requires b != []
    requires ReadHeaders(x1) == Ok((h1, y1)) && h1 != []
    requires ReadData(b, y1) == DataCut(false, d1, x2) && !IsEndOfRequest(x2) && !IsEndOfData(x2)
    requires ReadHeaders(x2) == Ok((h2, y2)) && h2 != []
    requires ReadData(b, y2) == DataCut(false, d2, END_OF_REQUEST)
    ensures Pump(Some(b), PumpState(false, x1, [], [])) ==
      (PumpState(false, END_OF_REQUEST, [h1, h2], [(h1, d1), (h2, d2)]), None)
  {
    var none: seq<HeaderSet>, nothing: seq<(HeaderSet, bytes)> := [], [];
    PumpHeader(b, none, nothing, x1, h1, y1);
    PumpData(b, none, h1, nothing, y1, d1, x2);
    PumpHeader(b, none + [h1], nothing + [(h1, d1)], x2, h2, y2);
    PumpLastData(b, none + [h1], h2, nothing + [(h1, d1)], y2, d2);
    assert none + [h1] + [h2] == [h1, h2];
    assert nothing + [(h1, d1)] + [(h2, d2)] == [(h1, d1), (h2, d2)];
  }

  /**
   * The first chunk holds the whole request: its first line is the boundary
   * and the two parts above follow it; the parser keeps the boundary and ends
   * in the state `TwoPartPump` describes.
   */
  lemma TwoPartReceive(body: bytes, b: bytes, x1: bytes, h1: HeaderSet, y1: bytes, d1: bytes,
                       x2: bytes, h2: HeaderSet, y2: bytes, d2: bytes)
    requires ExtractBoundary(body) == (Some(b), x1) && b != []
    requires ReadHeaders(x1) == Ok((h1, y1)) && h1 != []
    requires ReadData(b, y1) == DataCut(false, d1, x2) && !IsEndOfRequest(x2) && !IsEndOfData(x2)
    requires ReadHeaders(x2) == Ok((h2, y2)) && h2 != []
    requires ReadData(b, y2) == DataCut(false, d2, END_OF_REQUEST)
    ensures Receive(Initial(), body) ==
      (ParserState(Some(b), PumpState(false, END_OF_REQUEST, [h1, h2], [(h1, d1), (h2, d2)])), None)
  {
    assert [] + body == body;
    TwoPartPump(b, x1, h1, y1, d1, x2, h2, y2, d2);
  }
}

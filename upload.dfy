/**
 * The upload handler `StreamHandler` (`mobius/www/handlers/upload.py`): every
 * chunk the multipart parser delivers is routed by the `name` parameter of its
 * `Content-Disposition` header, the file field to the temporary file and the
 * file-name field to the user's file name; a progress reply follows each
 * chunk once an envelope is stored; at the end the file is announced to the
 * database service and `post` answers 201 with the outcome.
 *
 * The temporary file is the bytes written to it, the sockets are logs of what
 * was sent on them, and the parser is the `PostContentParser` of
 * `MultipartParser`, whose deliveries the handler receives in order.
 */
module Upload {
  import opened Wrappers
  import opened Text
  import opened Dicts
  import opened Json
  import opened Messages
  import opened Multipart
  import opened MultipartParser
  import CommConfig
  import Streams

  const DISPOSITION: string := "Content-Disposition"
  const FILE_FIELD: string := "fileID"
  const NAME_FIELD: string := "fileName"
  const POST_SUCCESS: int := 201

  // ---------------------------------------------------------------------------
  // _get_field_name

  /**
   * `_get_field_name(headers)`: `headers["Content-Disposition"]["params"]["name"]`,
   * None for any `KeyError` on the way. A header without a name (`{'value': line}`)
   * has no `params`. An `unknown` list never sits under `Content-Disposition`
   * (see `NoListUnderDisposition`), so its answer here is immaterial.
   */
  function FieldName(headers: HeaderSet): (r: Option<string>)
    ensures r.Some? ==> Lookup(headers, DISPOSITION).Some? && Lookup(headers, DISPOSITION).value.Single?
    ensures Lookup(headers, DISPOSITION).None? ==> r.None?
  {
    var entry: Option<HeaderEntry> := Lookup(headers, DISPOSITION);
    match entry
    case Some(Single(NamedHeader(_, _, params))) => Lookup(params, "name")
    case _ => None
  }

  /** In a header set `_read_headers` builds, the `Content-Disposition` entry, if any, is one named header. */
  lemma NoListUnderDisposition(headers: HeaderSet)
    requires WellKeyed(headers) && HasKey(headers, DISPOSITION)
    ensures Lookup(headers, DISPOSITION).value.Single? && Lookup(headers, DISPOSITION).value.header.NamedHeader?
  {
  }

  /**
   * The field name is the `name` parameter of the last `Content-Disposition`
   * line added, whatever came before it.
   */
  lemma FieldNameOfDisposition(acc: HeaderSet, value: string, params: seq<(string, string)>)
    requires DistinctKeys(acc)
    ensures FieldName(Insert(acc, DISPOSITION, Single(NamedHeader(DISPOSITION, value, params)))) == Lookup(params, "name")
  {
  }

  /** A header set without `Content-Disposition` names no field, and so is neither the file nor the file name. */
  lemma NoDispositionNoField(headers: HeaderSet)
    requires !HasKey(headers, DISPOSITION)
    ensures FieldName(headers) == None
  {
  }

  // ---------------------------------------------------------------------------
  // receive_data, on values

  /** What `receive_data` reads and changes, apart from the parser. */
  datatype Handler = Handler(
    curHeaders: Option<HeaderSet>,
    userFileName: Option<string>,
    file: bytes,                                    // what `_tmp_file.write` has written
    envelope: Option<seq<bytes>>,
    progressReplies: seq<(seq<bytes>, Message)>)    // `_upload_progress_router.reply(envelope, progress)`

  /** An exception leaving `receive_data`. */
  datatype ReceiveError =
    | ZeroTotal   // `progress` divides by a zero `Content-Length`
    | NotUtf8     // `data.decode("UTF-8")` of a file-name chunk

  /** `if self._envelope:`: an envelope is stored and not empty. */
  predicate HasEnvelope(h: Handler) {
    h.envelope.Some? && h.envelope.value != []
  }

  /** Which way a chunk goes. */
  predicate IsFileChunk(headers: HeaderSet)
    ensures IsFileChunk(headers) ==> Lookup(headers, DISPOSITION).Some? && !IsNameChunk(headers)
  {
    FieldName(headers) == Some(FILE_FIELD)
  }

  predicate IsNameChunk(headers: HeaderSet)
    ensures IsNameChunk(headers) ==> Lookup(headers, DISPOSITION).Some?
  {
    FieldName(headers) == Some(NAME_FIELD)
  }

  /**
   * `receive_data(headers, chunk)` while the upload is at `progress` (None
   * when the total is zero): the headers become the current ones, the
   * progress is computed (and replied when an envelope is stored), then the
   * chunk goes to the file, to the user's file name, or nowhere.
   */
  function ReceiveStep(h: Handler, progress: Option<int>, headers: HeaderSet, chunk: bytes): (r: (Handler, Option<ReceiveError>))
    ensures r.0.curHeaders == Some(headers) && r.0.envelope == h.envelope
    ensures r.1 == Some(ZeroTotal) <==> progress.None?
    ensures r.1 == Some(NotUtf8) <==> progress.Some? && IsNameChunk(headers) && Utf8Decode(chunk).None?
    ensures r.0.file == if r.1.None? && IsFileChunk(headers) then h.file + chunk else h.file
    ensures r.0.userFileName == if r.1.None? && IsNameChunk(headers) then Utf8Decode(chunk) else h.userFileName
    ensures r.0.progressReplies ==
      if progress.Some? && HasEnvelope(h) then h.progressReplies + [(h.envelope.value, UploadProgress(progress.value))]
      else h.progressReplies
  {
    var h1 := h.(curHeaders := Some(headers));
    match progress
    case None => (h1, Some(ZeroTotal))
    case Some(p) =>
      var h2 := if HasEnvelope(h1) then h1.(progressReplies := h1.progressReplies + [(h1.envelope.value, UploadProgress(p))]) else h1;
      if FieldName(headers) == Some(FILE_FIELD) then (h2.(file := h2.file + chunk), None)
      else if FieldName(headers) == Some(NAME_FIELD) then
        match Utf8Decode(chunk)
        case None => (h2, Some(NotUtf8))
        case Some(text) => (h2.(userFileName := Some(text)), None)
      else (h2, None)
  }

  /** The deliveries of one `data_received` call, received in order until one raises. */
  function Replay(h: Handler, progress: Option<int>, ds: seq<(HeaderSet, bytes)>): (r: (Handler, Option<ReceiveError>))
    ensures r.0.envelope == h.envelope
  {
    if ds == [] then (h, None)
    else
      var (h', e) := Replay(h, progress, ds[..|ds| - 1]);
      if e.Some? then (h', e) else ReceiveStep(h', progress, ds[|ds| - 1].0, ds[|ds| - 1].1)
  }

  /** The file chunks among the deliveries, concatenated in order. */
  function FileChunks(ds: seq<(HeaderSet, bytes)>): bytes {
    if ds == [] then []
    else FileChunks(ds[..|ds| - 1]) + (if IsFileChunk(ds[|ds| - 1].0) then ds[|ds| - 1].1 else [])
  }

  /** The index of the last file-name chunk among the deliveries. */
  function LastNameChunk(ds: seq<(HeaderSet, bytes)>): (k: Option<nat>)
    ensures k.Some? ==> k.value < |ds| && IsNameChunk(ds[k.value].0)
    ensures k.Some? ==> forall j :: k.value < j < |ds| ==> !IsNameChunk(ds[j].0)
    ensures k.None? ==> forall j :: 0 <= j < |ds| ==> !IsNameChunk(ds[j].0)
  {
    if ds == [] then None
    else if IsNameChunk(ds[|ds| - 1].0) then Some(|ds| - 1)
    else LastNameChunk(ds[..|ds| - 1])
  }

  /** Every file-name chunk among the deliveries is UTF-8. */
  predicate NamesDecode(ds: seq<(HeaderSet, bytes)>) {
    forall j :: 0 <= j < |ds| && IsNameChunk(ds[j].0) ==> Utf8Decode(ds[j].1).Some?
  }

  /**
   * The deliveries are all received exactly when the progress can be computed
   * (or there is nothing to receive) and every file-name chunk is UTF-8.
   */
  lemma {:induction false} ReplayCompletes(h: Handler, progress: Option<int>, ds: seq<(HeaderSet, bytes)>)
    ensures Replay(h, progress, ds).1.None? <==> (ds == [] || progress.Some?) && NamesDecode(ds)
  {
    if ds != [] {
      var init := ds[..|ds| - 1];
      ReplayCompletes(h, progress, init);
      assert forall j :: 0 <= j < |init| ==> init[j] == ds[j];
      if init == [] {
        assert NamesDecode(init);
      }
    }
  }

  /** The temporary file receives exactly the file chunks, in order, and nothing else. */
  lemma {:induction false} ReplayWritesFileChunks(h: Handler, progress: Option<int>, ds: seq<(HeaderSet, bytes)>)
    requires Replay(h, progress, ds).1.None?
    ensures Replay(h, progress, ds).0.file == h.file + FileChunks(ds)
  {
    if ds != [] {
      ReplayWritesFileChunks(h, progress, ds[..|ds| - 1]);
    }
  }

  /** The user's file name is the last file-name chunk, decoded: each one replaces the one before. */
  lemma {:induction false} ReplayKeepsLastName(h: Handler, progress: Option<int>, ds: seq<(HeaderSet, bytes)>)
    requires Replay(h, progress, ds).1.None?
    ensures var k := LastNameChunk(ds);
      Replay(h, progress, ds).0.userFileName == if k.Some? then Utf8Decode(ds[k.value].1) else h.userFileName
  {
    if ds != [] {
      ReplayKeepsLastName(h, progress, ds[..|ds| - 1]);
    }
  }

  /**
   * A progress reply goes out for every chunk received when an envelope is
   * stored, each on that envelope with the same progress; without one, none.
   */
  lemma {:induction false} ReplayRepliesProgress(h: Handler, progress: Option<int>, ds: seq<(HeaderSet, bytes)>)
    requires Replay(h, progress, ds).1.None?
    ensures var r := Replay(h, progress, ds).0;
      !HasEnvelope(h) ==> r.progressReplies == h.progressReplies
    ensures var r := Replay(h, progress, ds).0;
      HasEnvelope(h) ==> (
        |r.progressReplies| == |h.progressReplies| + |ds| &&
        r.progressReplies[..|h.progressReplies|] == h.progressReplies &&
        forall j :: |h.progressReplies| <= j < |r.progressReplies| ==>
          r.progressReplies[j] == (h.envelope.value, UploadProgress(progress.value)))
  {
    if ds != [] {
      ReplayCompletes(h, progress, ds);
      ReplayRepliesProgress(h, progress, ds[..|ds| - 1]);
    }
  }

  // ---------------------------------------------------------------------------
  // request_done and post

  /**
   * The model id `request_done` keeps from the database's reply: set only by
   * a `DBResponse` whose `success` is true (an unset `model` reads as id 0);
   * anything else fails on `result.success` or is a failure, and is logged.
   */
  function UploadedModelId(reply: Frame): (id: Option<int>)
    ensures id.Some? <==> reply.Decoded? && reply.msg.DBResponse? && reply.msg.success
  {
    if reply.Decoded? && reply.msg.DBResponse? && reply.msg.success then
      Some(if reply.msg.savedModel.Some? then reply.msg.savedModel.value.id else 0)
    else None
  }

  /** `/db/new_file`, the channel of `_upload_pub`, as the channel table defines it. */
  function NewFileInfo(): (info: CommConfig.StreamInfo)
    ensures info.sendType == DBRequestType && info.recvType == DBRequestType && info.replyType == DBResponseType
  {
    CommConfig.DbNewFileChannel();
    CommConfig.GetStreamName("/db/new_file").value
  }

  /**
   * The frame `_handle_response` hands on to `request_done` as written: the
   * reply's bytes decoded by `_recv_wrapper` with the channel's receive type,
   * which for `/db/new_file` defaults to its send type, `DBRequest`.
   */
  function ReplyFrameAsWritten(d: bytes, parse: (MsgType, bytes) -> Option<Message>): (f: Frame)
    ensures f.Raw? <==> parse(DBRequestType, d).None?
    ensures f.Decoded? ==> f.msg == parse(DBRequestType, d).value
  {
    Streams.DecodeFrame(d, NewFileInfo().recvType, parse)
  }

  /**
   * As written, no reply of the database ever sets the model id: it is read
   * as a `DBRequest` or left raw, and `result.success` raises on either.
   */
  lemma ReplyAsWrittenNeverSetsId(d: bytes, parse: (MsgType, bytes) -> Option<Message>)
    requires ParsesAsType(parse)
    ensures UploadedModelId(ReplyFrameAsWritten(d, parse)).None?
  {
    var f := ReplyFrameAsWritten(d, parse);
    if f.Decoded? {
      assert TypeOf(f.msg) == DBRequestType;
    }
  }

  /** The reply decoded with the channel's reply type, `DBResponse`, as evidently intended. */
  function ReplyFrame(d: bytes, parse: (MsgType, bytes) -> Option<Message>): (f: Frame)
    ensures f.Raw? <==> parse(DBResponseType, d).None?
    ensures f.Decoded? ==> f.msg == parse(DBResponseType, d).value
  {
    Streams.DecodeFrame(d, NewFileInfo().replyType, parse)
  }

  /**
   * Decoded as a `DBResponse`, a reply sets the model id exactly when it parses
   * and reports success, and then to the saved model's id (0 when unset).
   */
  lemma ReplyFrameSetsId(d: bytes, parse: (MsgType, bytes) -> Option<Message>)
    requires ParsesAsType(parse)
    ensures var p := parse(DBResponseType, d);
      UploadedModelId(ReplyFrame(d, parse)).Some? <==> p.Some? && p.value.success
    ensures var p := parse(DBResponseType, d);
      p.Some? && p.value.success ==>
        UploadedModelId(ReplyFrame(d, parse)) == Some(if p.value.savedModel.Some? then p.value.savedModel.value.id else 0)
  {
    var p := parse(DBResponseType, d);
    if p.Some? {
      assert TypeOf(p.value) == DBResponseType;
    }
  }

  /** The text `post` writes: `json.dumps` of the success flag and the model id, -1 without one. */
  /** The client reads back from `post`'s body whether the upload succeeded and, if so, the model's id. */
  function PostBody(id: Option<int>): (body: string)
    ensures Loads(body) == Ok(JObject([("success", JBool(id.Some?)), ("model_id", JInt(if id.Some? then id.value else -1))]))
    ensures id.None? ==> Loads(body) == Ok(JObject([("success", JBool(false)), ("model_id", JInt(-1))]))
  {
    var v := JObject([("success", JBool(id.Some?)), ("model_id", JInt(if id.Some? then id.value else -1))]);
    var rest := v.members[1..];
    assert Keys(rest[1..]) == [] && DistinctKeys(rest);
    assert Keys(rest) == ["model_id"];
    LoadsDumps(v);
    Dumps(v)
  }

  class StreamHandler {
    /** The `PostContentHandler` half of the handler. */
    const parser: PostContentParser
    const userId: int
    /** `_tmp_file.name` */
    const tmpPath: string
    var curHeaders: Option<HeaderSet>
    var userFileName: Option<string>
    var file: bytes
    var envelope: Option<seq<bytes>>
    var progressReplies: seq<(seq<bytes>, Message)>
    var uploadedModelId: Option<int>
    /** What `_upload_pub.send` has sent, in order. */
    var sent: seq<Message>

    function State(): Handler
      reads this
    {
      Handler(curHeaders, userFileName, file, envelope, progressReplies)
    }

    /** `initialize(loop)`, with the temporary file's name and the cookie's user id given. */
    constructor(tmpPath: string, userId: int)
      ensures fresh(parser) && parser.Valid() && parser.State() == Initial()
      ensures State() == Handler(None, None, [], None, [])
      ensures uploadedModelId.None? && sent == [] && this.tmpPath == tmpPath && this.userId == userId
    {
      parser := new PostContentParser();
      this.tmpPath := tmpPath;
      this.userId := userId;
      curHeaders := None;
      userFileName := None;
      file := [];
      envelope := None;
      progressReplies := [];
      uploadedModelId := None;
      sent := [];
    }

    /** `_store_envelope(envelope, _)` */
    method StoreEnvelope(e: seq<bytes>)
      modifies this
      ensures State() == old(State()).(envelope := Some(e))
      ensures uploadedModelId == old(uploadedModelId) && sent == old(sent)
    {
      envelope := Some(e);
    }

    /** `receive_data(headers, chunk)` */
    method ReceiveData(headers: HeaderSet, chunk: bytes) returns (err: Option<ReceiveError>)
      modifies this
      ensures (State(), err) == ReceiveStep(old(State()), parser.Progress(), headers, chunk)
      ensures uploadedModelId == old(uploadedModelId) && sent == old(sent)
    {
      if curHeaders != Some(headers) {
        curHeaders := Some(headers);
      }
      var progress := parser.Progress();
      if progress.None? {
        return Some(ZeroTotal);
      }
      if envelope.Some? && envelope.value != [] {
        progressReplies := progressReplies + [(envelope.value, UploadProgress(progress.value))];
      }
      var name := FieldName(headers);
      if name == Some(FILE_FIELD) {
        file := file + chunk;
      } else if name == Some(NAME_FIELD) {
        var text := Utf8Decode(chunk);
        if text.None? {
          return Some(NotUtf8);
        }
        userFileName := text;
      }
      return None;
    }

    /**
     * `data_received(chunk)`: the parser reads the chunk, and the handler
     * receives what it delivered, in order, until one delivery raises.
     */
    method DataReceived(chunk: bytes) returns (parseError: Option<ParserError>, receiveError: Option<ReceiveError>)
      requires parser.Valid()
      modifies this, parser
      ensures parser.Valid()
      ensures (parser.State(), parseError) == Receive(old(parser.State()), chunk)
      ensures |parser.delivered| >= |old(parser.delivered)|
      ensures (State(), receiveError) == Replay(old(State()), parser.Progress(), parser.delivered[|old(parser.delivered)|..])
      ensures uploadedModelId == old(uploadedModelId) && sent == old(sent)
    {
      var before := |parser.delivered|;
      parseError := parser.DataReceived(chunk);
      receiveError := ReceiveAll(parser.delivered[before..]);
    }

    /** The deliveries of one call, received in order until one raises. */
    method ReceiveAll(ds: seq<(HeaderSet, bytes)>) returns (err: Option<ReceiveError>)
      modifies this
      ensures (State(), err) == Replay(old(State()), parser.Progress(), ds)
      ensures uploadedModelId == old(uploadedModelId) && sent == old(sent)
    {
      var i := 0;
      err := None;
      while i < |ds|
        invariant 0 <= i <= |ds|
        invariant (State(), err) == Replay(old(State()), parser.Progress(), ds[..i])
        invariant err.None?
        invariant uploadedModelId == old(uploadedModelId) && sent == old(sent)
      {
        assert ds[..i + 1][..i] == ds[..i];
        err := ReceiveData(ds[i].0, ds[i].1);
        if err.Some? {
          ReplayStopsAt(old(State()), parser.Progress(), ds[..i + 1], ds);
          return;
        }
        i := i + 1;
      }
      assert ds[..i] == ds;
    }

    /**
     * `request_done()`: the upload is announced to the database, then the
     * reply's last frame `d`, decoded as a `DBResponse`, decides the model id.
     */
    method RequestDone(d: bytes, parse: (MsgType, bytes) -> Option<Message>)
      modifies this
      ensures sent == old(sent) + [DBRequest(SaveFile, tmpPath, userFileName, userId)]
      ensures var id := UploadedModelId(ReplyFrame(d, parse));
        uploadedModelId == if id.Some? then id else old(uploadedModelId)
      ensures State() == old(State())
    {
      sent := sent + [DBRequest(SaveFile, tmpPath, userFileName, userId)];
      var id := UploadedModelId(ReplyFrame(d, parse));
      if id.Some? {
        uploadedModelId := id;
      }
    }

    /** `post()`: always 201, with the outcome as JSON. */
    function Post(): (r: (int, string))
      reads this
      ensures r.0 == POST_SUCCESS && r.1 == PostBody(uploadedModelId)
    {
      (POST_SUCCESS, PostBody(uploadedModelId))
    }
  }

  /** A replay that raises on its last delivery raises for the whole call too: later deliveries are not received. */
  lemma {:induction false} ReplayStopsAt(h: Handler, progress: Option<int>, prefix: seq<(HeaderSet, bytes)>, ds: seq<(HeaderSet, bytes)>)
    requires prefix <= ds && Replay(h, progress, prefix).1.Some?
    ensures Replay(h, progress, ds) == Replay(h, progress, prefix)
    decreases |ds|
  {
    if |ds| > |prefix| {
      var init := ds[..|ds| - 1];
      assert init[..|prefix|] == prefix;
      ReplayStopsAt(h, progress, prefix, init);
      assert Replay(h, progress, ds) == Replay(h, progress, init);
    } else {
      assert ds == prefix;
    }
  }
}

# Mobius core, modelled in Dafny

Mobius is a 3D-printing broker. A Tornado web server takes model uploads and
quote requests. ZeroMQ services (a database service and a Sculpteo provider
service) do the work. This project models the logic at the centre of that
system:

- **Channels and streams** (`mobius/comm`): the `STREAM_MAP` channel table and
  `StreamInfo`'s type defaults. The `ZmqAddress` validator and URL builder.
  The `Stream` class with its type-checked `send`, single-slot callbacks, and a
  frame decoder that keeps undecodable frames as raw bytes.
- **Request dispatch** (`mobius/service/sculpteo.py`, `mobius/db/dbservice.py`):
  the worker table and the in-flight `_futures` table of the Sculpteo service.
  The completion continuation that replies and removes the entry. The database
  service's command table, its service context and its typed replies.
- **The streaming multipart/form-data parser** (`mobius/www/utils.py`):
  boundary extraction, header blocks, the two header regular expressions
  (written as scanners), the data cut at the boundary, the `data_received`
  loop and its residual buffer, and the progress figure. The upload test body
  of `mobius/www/test/test_utils.py` is traced through it.
- **The upload handler** (`mobius/www/handlers/upload.py`): routing of parsed
  chunks to the temporary file or the file-name field, progress replies, the
  database round trip and the body `post` writes.
- **Server helpers** (`mobius/www/server.py`): `port_type`, the terminal-state
  to HTTP mapping, the progress loop of `UploadToProvider.get`, and
  `make_request`.
- **Utilities** (`mobius/utils/general.py`): the `Singleton` metaclass and
  `JSONObject`.

The model also needs parts of Python, and defines them in support modules:

- `Wrappers`: `Option`/`Result`.
- `Text`: bytes, ASCII, strict UTF-8, `str.strip`, `int()`/`str()` and `//`.
- `Dicts`: insertion-ordered dictionaries as association lists.
- `Json`: `json.dumps`/`json.loads` on the values without floats, with their
  round trip proved.
- `Messages`: the protocol-buffer messages. Their classes are generated and not
  shown, so they are reduced to the fields the code reads.

Code that changes state step by step is modelled as classes with `modifies`
clauses:

- `Stream`
- `SculpteoService`
- `DBService`
- `PostContentParser`, with the `while True` loop of `data_received`
- `StreamHandler`
- `Singleton`
- `JSONObject`

Each such method is proved against a function of the old state. The
properties are proved about those functions.

I/O is replaced by logs or parameters:

- Socket writes are a `written` log.
- Callback invocations are a `calls` log.
- `reply(...)` is a `replies` log. `Stream` defines no such method, so it is
  an abstract emit event.
- Message serialisation and parsing are parameters.
- The temporary file is a byte sequence.
- The results a handler's future receives are parameters.

## Model

| member | source | states |
|---|---|---|
| CommConfig.NewStreamInfo | mobius/comm/comm_config.py:40-53 | name and send type are stored as given; receive and reply types default to the send type and otherwise are the supplied ones |
| CommConfig.CreateStreamInfo | mobius/comm/comm_config.py:95-103 | an entry's info carries its name and send type; the table gives no receive type, so it receives its send type; its reply type is the entry's, or the send type |
| CommConfig.StreamInfos | mobius/comm/comm_config.py:88-93 | one info per table entry, in order, each named by its key and receiving the type it sends |
| CommConfig.BuildInfos | mobius/comm/comm_config.py:88-103 | the map has one entry per table entry, in order, each built from that entry's name and keyword arguments |
| CommConfig.GetStreamName | mobius/comm/comm_config.py:105-115 | succeeds iff the name is a key of the built map, giving its info; otherwise raises `StreamConfigError` with the message `Channel '<name>' doesn't exist.` |
| CommConfig.BuildInfosKeys | mobius/comm/comm_config.py:88-93 | the built map has exactly the table's keys, in the same order |
| CommConfig.BuildInfosLookup | mobius/comm/comm_config.py:95-103 | looking a name up in the built map finds the info built from that name's table entry |
| CommConfig.StreamInfosMatchTable | mobius/comm/comm_config.py:5-27 | the map holds one info per `STREAM_MAP` key, with distinct keys, and each info's name is its key |
| CommConfig.GetStreamNameExact | mobius/comm/comm_config.py:112-115 | lookup is exact: a name resolves iff it is literally a table key, and then to the info built from that entry |
| CommConfig.UnknownChannelMessage | mobius/comm/comm_config.py:114-115 | the error for an unknown name contains the name, right after `Channel '` |
| CommConfig.DbNewFileChannel | mobius/comm/comm_config.py:7-10 | `/db/new_file` sends and receives `DBRequest` and is replied to with `DBResponse` |
| CommConfig.RequestResultChannel | mobius/comm/comm_config.py:24-26 | `/request/result` uses `ProviderResponse` for send, receive and reply |
| CommConfig.TrailingSlashUnknown | mobius/comm/comm_config.py:112-115 | no normalisation: `/db/new_file/` is unknown |
| Streams.Lower | mobius/comm/stream.py:38 | lower-casing keeps the length and maps each ASCII capital to its small letter |
| Streams.NewZmqAddress | mobius/comm/stream.py:30-57 | an accepted local address keeps the lower-cased transport and the channel name, an accepted tcp address the host and port given; ipc or inproc without a channel name, and tcp without host or port, are refused with the message naming the lower-cased transport |
| Streams.MulticastRefused | mobius/comm/stream.py:45-48 | pgm and epgm, in any letter case, are refused with the multicast error |
| Streams.UnknownTransportRefused | mobius/comm/stream.py:56-57 | a transport that is none of ipc, inproc, tcp, pgm, epgm is refused with an error naming it as given |
| Streams.AddressAccepted | mobius/comm/stream.py:43-57 | an address is accepted iff it is ipc/inproc with a channel name or tcp with both host and port |
| Streams.TransportCaseInsensitive | mobius/comm/stream.py:38-57 | for ipc, inproc, tcp, pgm and epgm in any letter case, the lower-cased transport gives the same address or the same error; an unknown transport is quoted as given (see `UnknownTransportRefused`), so there the case shows |
| Streams.StripSlashes | mobius/comm/stream.py:64 | `lstrip('/')`: the result is a suffix of the input, does not start with `/`, and only slashes were removed |
| Streams.SlashesToUnderscores | mobius/comm/stream.py:64 | `replace('/', '_')`: same length, each `/` replaced, every other character kept |
| Streams.ChannelFileName | mobius/comm/stream.py:64 | the file name holds no `/`, is no longer than the channel name, and starts after all of the name's leading slashes |
| Streams.PathJoin | mobius/comm/stream.py:65 | `os.path.join` for a relative name: the directory, then the name, with one `/` between them unless the directory is empty or already ends with one |
| Streams.ChannelFileNameFlat | mobius/comm/stream.py:64 | the file name is the channel name after its leading slashes, every other `/` replaced by `_` |
| Streams.RequestLocalFileName | mobius/comm/stream.py:64 | `/request/local` becomes `request_local` |
| Streams.ZmqUrl | mobius/comm/stream.py:59-68 | a local address gives `transport://` and the joined path; a tcp address gives `tcp://host:port` |
| Streams.LocalUrl | mobius/comm/stream.py:63-66 | an accepted ipc/inproc address's URL is the lowered transport, `://`, and the flattened name under the directory |
| Streams.TcpUrl | mobius/comm/stream.py:67-68 | an accepted tcp address's URL is exactly `tcp://host:port` |
| Streams.DecodeFrame | mobius/comm/stream.py:180-186 | a frame is the parsed message when parsing succeeds, and the raw bytes otherwise; a decoded frame is of the type it was decoded with |
| Streams.DecodeAll | mobius/comm/stream.py:178-187 | one decoded frame per input frame, in order; every decoded frame is of the type asked for |
| Streams.Stream.constructor | mobius/comm/stream.py:76-95 | callbacks stored as given, a hook installed exactly for each given callback, nothing written; the protocol-buffer parser given yields only the class asked for |
| Streams.Stream.OnSend | mobius/comm/stream.py:97-111 | replaces the one send callback; the send hook is installed iff the callback is not None; nothing else changes |
| Streams.Stream.OnRecv | mobius/comm/stream.py:113-128 | replaces the one receive callback; the receive hook is installed iff the callback is not None; nothing else changes |
| Streams.Stream.Send | mobius/comm/stream.py:154-167 | raises `ValueError` iff the message is not of the channel's send type; otherwise writes its serialisation once |
| Streams.Stream.DecodeFrames | mobius/comm/stream.py:178-187 | the loop's list equals the decoding of every frame in order |
| Streams.Stream.CallbackWrapper | mobius/comm/stream.py:170-190 | the callback runs once, with all decoded frames, iff there is at least one frame |
| Streams.Stream.Receive | mobius/comm/stream.py:192-193 | received data goes to the receive callback, decoded with the receive type, when hooked |
| Streams.Stream.Sent | mobius/comm/stream.py:195-196 | sent data goes to the send callback, decoded with the send type, when hooked |
| Sculpteo.WorkerFor | mobius/service/sculpteo.py:63-67 | quote, upload and test have a worker; any other request type is a `KeyError` |
| Sculpteo.WorkersTable | mobius/service/sculpteo.py:63-67 | the table maps each of the three request types to its worker and no other type to any |
| Sculpteo.ErrorJson | mobius/service/sculpteo.py:105 | the error text is a JSON object that reads back as the one member `error` holding the text |
| Sculpteo.SuccessResponse | mobius/service/sculpteo.py:121-125 | a `Response` of the service name carrying the result and no error |
| Sculpteo.ErrorResponse | mobius/service/sculpteo.py:104-111 | a `Response` of the service name with no result, whose error reads back as `{"error": text}` |
| Sculpteo.ErrorText | mobius/service/sculpteo.py:162-167 | a failed future's error text is its message; a cancelled one's is empty, as `str(CancelledError())` is |
| Sculpteo.ReplyEnvelope | mobius/service/sculpteo.py:107-111 | a reply is addressed with the two stored frames, first then second |
| Sculpteo.JobOf | mobius/service/sculpteo.py:133-139 | the stored triple holds the request, and replying on it addresses the first two frames in the order received |
| Sculpteo.FinishReply | mobius/service/sculpteo.py:157-169 | the reply goes on the stored envelope; a completed job gives the success reply, a failed or cancelled one the error reply with its text |
| Sculpteo.EnvelopeOrderPreserved | mobius/service/sculpteo.py:107-133 | the two swapped unpacks cancel out: the reply envelope is the first two frames in the order received |
| Sculpteo.ErrorReplyCarriesText | mobius/service/sculpteo.py:162-167 | a failed job's reply carries its message; a cancelled one carries the empty text |
| Sculpteo.SculpteoService.constructor | mobius/service/sculpteo.py:83-95 | the futures table starts empty, nothing submitted, scheduled or sent |
| Sculpteo.SculpteoService.ProcessRequest | mobius/service/sculpteo.py:127-147 | a well-formed request of a known type adds exactly one entry under a fresh future, holding the frames as received; every failure leaves the table unchanged and sends nothing; three frames whose last is not a decoded `ProviderRequest` fail at `request.type` |
| Sculpteo.SculpteoService.FinishRequest | mobius/service/sculpteo.py:149-171 | schedules the continuation with the stored job iff the future is in the table (else `KeyError`); changes no entry and sends nothing |
| Sculpteo.SculpteoService.FinishUp | mobius/service/sculpteo.py:157-169 | the oldest continuation replies on its stored envelope with the result or the error, and its entry is always removed |
| DbService.CommandFor | mobius/db/dbservice.py:78-88 | a command maps to a factory method iff it is in the table |
| DbService.OnlySaveFile | mobius/db/dbservice.py:82-84 | the table holds `SAVE_FILE` and nothing else |
| DbService.MakeSaveCommand | mobius/db/dbservice.py:90-95 | the command carries the request's path, file name and user id and the context's handle; a context without `db_handle` is a `KeyError` |
| DbService.SaveCommandInServiceContext | mobius/db/dbservice.py:90-95 | with the service's own context the command is always made, with the service's handle |
| DbService.SuccessResponse | mobius/db/dbservice.py:132-135 | a successful `DBResponse` whose model has the new id and the requesting user |
| DbService.ErrorResponse | mobius/db/dbservice.py:139-141 | an unsuccessful `DBResponse` with the error text and no model |
| DbService.RepliesDistinguished | mobius/db/dbservice.py:132-142 | success and error replies always differ, and only a success carries a model |
| DbService.DBService.constructor | mobius/db/dbservice.py:106-122 | the handle is stored; nothing has been sent |
| DbService.DBService.GetServiceContext | mobius/db/dbservice.py:145-149 | the context has exactly one key, `db_handle`, holding the service's handle |
| DbService.DBService.RespondSuccess | mobius/db/dbservice.py:132-136 | exactly one reply, the success response, on the given envelope |
| DbService.DBService.RespondError | mobius/db/dbservice.py:139-142 | exactly one reply, the error response, on the given envelope |
| Multipart.Find | mobius/www/utils.py:85 | `bytes.find`: the first occurrence, or -1 when there is none |
| Multipart.SplitOnce | mobius/www/utils.py:69 | `split(sep, 1)`: fails iff the separator is absent; otherwise input = head + sep + tail with the first occurrence cut |
| Multipart.SplitAll | mobius/www/utils.py:142 | `split(SEP)` gives at least one part, and exactly one iff the block holds no CRLF |
| Multipart.SplitJoin | mobius/www/utils.py:142 | splitting at CRLF loses nothing: the parts joined back give the block, and no part holds the separator |
| Multipart.IsEndOfRequest | mobius/www/utils.py:156-163 | the end of the request is exactly the buffer `--` followed by CRLF |
| Multipart.IsEndOfData | mobius/www/utils.py:165-173 | an exhausted buffer is not the end of the request and holds no line end |
| Multipart.ExtractBoundary | mobius/www/utils.py:61-72 | the boundary is the text before the first CRLF and the buffer what follows; without CRLF no boundary and the buffer is kept |
| Multipart.ExtractBoundaryOfLine | mobius/www/utils.py:61-72 | a first line free of CRLF followed by CRLF is exactly the boundary |
| Multipart.ReadData | mobius/www/utils.py:75-94 | without the boundary, everything is data and data is still arriving; with it, the data is what precedes the CRLF before the boundary and the buffer continues after the boundary |
| Multipart.ReadDataSplits | mobius/www/utils.py:85-91 | data, the two bytes before the boundary, the boundary and the rest make up the buffer, and the data holds no boundary |
| Multipart.ReadDataAgrees | mobius/www/utils.py:88 | the written and intended cuts agree whenever at least two bytes precede the boundary |
| Multipart.ReadDataAsWritten | mobius/www/utils.py:88 | with the boundary at index i, the data is the buffer up to i - 2 read as a Python slice, from the end when negative |
| Multipart.ReadDataAsWrittenDeliversBoundary | mobius/www/utils.py:88 | a buffer starting with the boundary has the boundary delivered as data as written, and nothing as intended |
| Multipart.ParseHeader | mobius/www/utils.py:114-129 | an empty line gives no header; a line the header pattern matches gives its name, value and the parameters of its tail; any other line gives `{'value': line}` |
| Multipart.AddHeader | mobius/www/utils.py:146-150 | a named header is stored under its name, replacing an earlier one; a nameless one is appended to the `unknown` list (created when absent), which fails iff `unknown` holds a named header |
| Multipart.InsertWellKeyed | mobius/www/utils.py:146-150 | inserting an entry that fits its key keeps every header under its own name and nameless ones under `unknown` |
| Multipart.AddHeaders | mobius/www/utils.py:143-151 | adding the lines keeps the set well keyed and hands back the rest after the block, or the whole buffer when a line is not UTF-8 |
| Multipart.ReadHeaders | mobius/www/utils.py:132-154 | without CRLFCRLF nothing is read and the buffer is kept; otherwise the header set is well keyed and the buffer continues after the block or is kept on a decode error |
| Multipart.ReadHeadersShrinks | mobius/www/utils.py:140 | after a header block the buffer is at least four bytes shorter |
| Multipart.ReadHeadersLoop | mobius/www/utils.py:138-154 | the `for` loop over the block's lines computes `ReadHeaders` |
| Multipart.AddHeaderUnknown | mobius/www/utils.py:146-150 | a header not named `unknown` never fails to add; it extends the `unknown` list by itself exactly when it is nameless, and creates the key only then |
| Multipart.AddHeadersNamed | mobius/www/utils.py:143-150 | after the lines are added, each name other than `unknown` holds the last header of that name, and a name no line carries keeps its earlier value |
| Multipart.AddHeadersBare | mobius/www/utils.py:143-150 | with no header named `unknown`, adding never fails and `unknown` lists the earlier nameless headers followed by the block's, in order |
| Multipart.AddHeadersUnknownKey | mobius/www/utils.py:148-150 | with no header named `unknown`, the key is present afterwards iff it was before or the block has a nameless line |
| Multipart.AddHeadersRest | mobius/www/utils.py:138-153 | the whole buffer is handed back iff some line of the block is not UTF-8; otherwise the buffer after the block |
| Multipart.ReadHeadersContents | mobius/www/utils.py:132-154 | for a block whose lines are UTF-8 and name no header `unknown`: each name maps to its last header, `unknown` lists the nameless lines in order (absent when none), empty lines add nothing, and the buffer continues after the block |
| Multipart.ReadHeadersKeepsBuffer | mobius/www/utils.py:152-153 | after a header block, the whole buffer is kept iff a line of the block is not UTF-8 |
| HeaderPattern.MatchHeaderValue | mobius/www/utils.py:40 | a match is a reading of the line by `([^:]+):\s+([^\s;]+)(.*)`, group by group |
| HeaderPattern.HeaderMatchUnique | mobius/www/utils.py:40 | the pattern reads a line in at most one way |
| HeaderPattern.MatchHeaderValueFinds | mobius/www/utils.py:40 | whenever the pattern allows a reading, the scanner finds one |
| HeaderPattern.MatchHeaderValueExact | mobius/www/utils.py:40 | the scanner's result is exactly the reading the pattern allows |
| HeaderPattern.NameGroupUnique | mobius/www/utils.py:40 | the name group ends at the first colon |
| HeaderPattern.ValueGroupUnique | mobius/www/utils.py:40 | the value group is the longest run of `[^\s;]` |
| HeaderPattern.TailGroupUnique | mobius/www/utils.py:40 | the tail group runs to the end of the line |
| HeaderParams.MatchParamAt | mobius/www/utils.py:41 | a match of `;\s*([^=]+)="(.*?)"` starts at a `;`, has a non-empty key free of `=` and a value free of `"` and line ends |
| HeaderParams.ParseParams | mobius/www/utils.py:97-111 | distinct keys, a later pair replacing an earlier one; `{'value': buf}` for a non-empty buffer with no match; nothing for an empty one |
| HeaderParams.InsertAllDistinct | mobius/www/utils.py:107-108 | pairs with keys distinct from each other and from the earlier ones are appended in order |
| HeaderParams.FindAllOfText | mobius/www/utils.py:105 | `findall` over parameters written as `; key="value"` finds exactly those pairs, in order |
| HeaderParams.ParamsRoundTrip | mobius/www/utils.py:97-111 | readable parameters with distinct keys written as `; key="value"` parse back exactly, in order |
| HeaderParams.LastValue | mobius/www/utils.py:107-108 | the value of the last pair with the key, and none exactly when no pair has that key |
| HeaderParams.InsertAllLookup | mobius/www/utils.py:107-108 | assigning the pairs in turn leaves each key with its last pair's value, and other keys as they were |
| HeaderParams.ParseParamsLookup | mobius/www/utils.py:105-108 | when `findall` finds pairs, the parameters hold exactly the keys found, each with its last pair's value |
| MultipartParser.Step | mobius/www/utils.py:194-204 | one pass keeps the state valid, never drops a delivery, and a failing pass leaves the state as it was |
| MultipartParser.StepProgress | mobius/www/utils.py:193-204 | every continuing pass shortens the buffer or moves from headers to data, unless it starts a cycle |
| MultipartParser.Pump | mobius/www/utils.py:193-204 | the loop keeps the state valid and only appends deliveries |
| MultipartParser.NotEndWithHeaders | mobius/www/utils.py:156-173 | a buffer holding CRLFCRLF is neither the end of the request nor the end of the data |
| MultipartParser.HangRepeats | mobius/www/utils.py:193-204 | under an empty boundary, a header block kept after a decode error makes two passes return to the same buffer with one more header set and one more empty delivery: the loop never ends |
| MultipartParser.EmptyBoundaryCutAsWritten | mobius/www/utils.py:85-91 | as written, under an empty boundary each data pass delivers all but the last two bytes and keeps the whole buffer |
| MultipartParser.Receive | mobius/www/utils.py:176-204 | a chunk joins the buffer, the boundary is looked for while missing (a `RuntimeError` past 1000 bytes), then the loop runs; deliveries are only appended |
| MultipartParser.ProgressOf | mobius/www/utils.py:213-217 | `ZeroDivisionError` iff the total is zero; otherwise the floor of count × 100 / total, within 0..100 when count ≤ total |
| MultipartParser.Initial | mobius/www/utils.py:44-58 | no boundary, not receiving data, empty buffer, header list and deliveries, which meets the pump's invariant |
| MultipartParser.PostContentParser.constructor | mobius/www/utils.py:44-58 | no boundary, header state, empty buffer and header list, count 0, total 1 |
| MultipartParser.PostContentParser.Prepare | mobius/www/utils.py:206-210 | the total becomes `int(Content-Length)`; a `ValueError` when it is not an integer, leaving the total |
| MultipartParser.PostContentParser.Progress | mobius/www/utils.py:213-217 | the parser's progress is `ProgressOf` of its count and total |
| MultipartParser.PostContentParser.ReadDataStep | mobius/www/utils.py:75-94 | the cut is `ReadData`, and its data is delivered under the last header set |
| MultipartParser.PostContentParser.DataReceived | mobius/www/utils.py:176-204 | the new state and error are `Receive` of the old state and the chunk; the count grows by the chunk's length |
| MultipartParser.PostContentParser.PumpLoop | mobius/www/utils.py:193-204 | the `while True` loop computes `Pump` of the state under the boundary |
| MultipartParser.PostContentParser.StepOnce | mobius/www/utils.py:194-204 | one pass of the loop body computes `Step` |
| ParserTrace.PumpHeader | mobius/www/utils.py:198-202 | a non-empty header block read in the header state appends the set and turns to the data |
| ParserTrace.PumpData | mobius/www/utils.py:194-197 | a data part followed by more input is delivered under the last header set and the loop turns to headers |
| ParserTrace.PumpLastData | mobius/www/utils.py:194-197 | the data part before the closing `--` CRLF is delivered and the loop ends without error |
| ParserTrace.TwoPartPump | mobius/www/utils.py:193-204 | two well-formed parts are delivered in order, each under the header set read just before it |
| ParserTrace.TwoPartReceive | mobius/www/utils.py:176-204 | a first chunk holding the boundary line and two parts ends with the boundary kept and both parts delivered |
| MultipartSample.SampleBoundaryLine | mobius/www/test/test_utils.py:41 | the test body's boundary is `------test_boundary` |
| MultipartSample.FileIdLine | mobius/www/test/test_utils.py:41 | the file part's disposition line parses to `form-data` with `name="fileID"` and `filename="test.stl"` |
| MultipartSample.FileTypeLine | mobius/www/test/test_utils.py:41 | the file part's content-type line parses to `application/octet-stream` |
| MultipartSample.FileNameLine | mobius/www/test/test_utils.py:41 | the field part's disposition line parses to `form-data` with `name="fileName"` |
| MultipartSample.FirstDataCut | mobius/www/test/test_utils.py:41-50 | the first part's data is `test content` |
| MultipartSample.LastDataCut | mobius/www/test/test_utils.py:41-51 | the second part's data is `test file`, followed by the closing `--` CRLF |
| MultipartSample.SampleTrace | mobius/www/test/test_utils.py:41-61 | the test's body, received as one chunk, delivers `test content` under the file part's headers, then `test file` under the field part's headers, and ends without error |
| Upload.FieldName | mobius/www/handlers/upload.py:107-117 | a field name comes only from a single `Content-Disposition` entry; without one there is none |
| Upload.NoListUnderDisposition | mobius/www/handlers/upload.py:115 | in a header set the parser builds, `Content-Disposition` holds one named header, never the `unknown` list |
| Upload.FieldNameOfDisposition | mobius/www/handlers/upload.py:115 | the field name is the `name` parameter of the last disposition line added |
| Upload.NoDispositionNoField | mobius/www/handlers/upload.py:114-117 | without `Content-Disposition` the field name is None |
| Upload.ReceiveStep | mobius/www/handlers/upload.py:97-132 | the headers become current; a zero total raises; with an envelope one progress reply is sent; a file chunk is appended to the file; a file-name chunk replaces the user's file name, raising when it is not UTF-8 |
| Upload.Replay | mobius/www/utils.py:89-93 | the deliveries of one call are received in order until one raises; the envelope never changes |
| Upload.LastNameChunk | mobius/www/handlers/upload.py:104-105 | the index found is a file-name chunk with none after it, and there is none at all when nothing is found |
| Upload.ReplayCompletes | mobius/www/handlers/upload.py:119-132 | all deliveries are received iff the progress can be computed (or there are none) and every file-name chunk is UTF-8 |
| Upload.ReplayWritesFileChunks | mobius/www/handlers/upload.py:88-95 | the temporary file receives exactly the file chunks, in order |
| Upload.ReplayKeepsLastName | mobius/www/handlers/upload.py:97-105 | the user's file name is the last file-name chunk, decoded, or unchanged when there is none |
| Upload.ReplayRepliesProgress | mobius/www/handlers/upload.py:123-126 | one progress reply per chunk on the stored envelope when there is one, none without |
| Upload.ReplayStopsAt | mobius/www/handlers/upload.py:119-132 | once a delivery raises, later ones are not received |
| Upload.UploadedModelId | mobius/www/handlers/upload.py:146-154 | a model id is taken iff the reply is a decoded `DBResponse` whose `success` is true |
| Upload.NewFileInfo | mobius/comm/comm_config.py:7-10 | `/db/new_file` sends and receives `DBRequest` and is replied to with `DBResponse` |
| Upload.ReplyFrameAsWritten | mobius/comm/stream.py:192-193 | the reply handed to `request_done` is its bytes parsed as a `DBRequest`, or raw when that fails |
| Upload.ReplyAsWrittenNeverSetsId | mobius/www/handlers/upload.py:146-154 | so decoded, no reply ever sets the model id |
| Upload.ReplyFrame | mobius/www/handlers/upload.py:146-154 | the reply parsed as a `DBResponse`, the channel's reply type, or raw when that fails |
| Upload.ReplyFrameSetsId | mobius/www/handlers/upload.py:146-154 | so decoded, a reply sets the model id iff it parses and reports success, and then to the saved model's id |
| Upload.IsFileChunk | mobius/www/handlers/upload.py:129 | a file chunk has a `Content-Disposition` header and is not a file-name chunk |
| Upload.IsNameChunk | mobius/www/handlers/upload.py:104 | a file-name chunk has a `Content-Disposition` header |
| Upload.PostBody | mobius/www/handlers/upload.py:80-85 | the body reads back as `{"success": …, "model_id": …}`, with -1 and false when no model was uploaded |
| Upload.StreamHandler.constructor | mobius/www/handlers/upload.py:30-53 | a fresh parser in its initial state; no headers, file name, envelope, model id; empty file |
| Upload.StreamHandler.StoreEnvelope | mobius/www/handlers/upload.py:55-57 | the envelope is stored and nothing else changes |
| Upload.StreamHandler.ReceiveData | mobius/www/handlers/upload.py:119-132 | the new state and error are `ReceiveStep` at the parser's progress |
| Upload.StreamHandler.DataReceived | mobius/www/utils.py:176-204 | the parser takes the chunk as `Receive` does, and the handler replays exactly the new deliveries |
| Upload.StreamHandler.ReceiveAll | mobius/www/utils.py:89-93 | the loop over the deliveries computes `Replay` |
| Upload.StreamHandler.RequestDone | mobius/www/handlers/upload.py:136-154 | one `SAVE_FILE` request is sent with the file path, user's file name and user id; the model id is set only by a reply that, decoded as a `DBResponse`, reports success |
| Upload.StreamHandler.Post | mobius/www/handlers/upload.py:74-86 | status 201 and the JSON body of the outcome |
| UploadSample.FileThenName | mobius/www/handlers/upload.py:119-132 | a file chunk then a file-name chunk: the file gets the first, the name is the second decoded |
| UploadSample.FileHeadersRead | mobius/www/test/test_utils.py:55-61 | the first header set's disposition is `form-data` with name `fileID` and filename `test.stl`, so it is a file chunk |
| UploadSample.FieldHeadersRead | mobius/www/handlers/upload.py:104 | the second header set names the `fileName` field |
| UploadSample.SampleUpload | mobius/www/test/test_utils.py:41-54 | the test's body uploaded by a fresh handler: the file holds `test content`, the user's file name is `test file`, two different header sets |
| Server.PortType | mobius/www/server.py:479-493 | accepted iff `int` reads the text and the value is in 1024..65535, or in 1..1023 for root; accepted values are returned unchanged; 1..1023 without root is the root-privileges error; everything else is the invalid-port error |
| Server.PortOfNumber | mobius/www/server.py:484-493 | the decimal text of a number is accepted unchanged in 1024..65535, in 1..1023 only for root, and refused as invalid outside 1..65535 |
| Server.PortRange | mobius/www/server.py:485-491 | an accepted port lies in 1..65535, and root accepts every port there |
| Server.TerminalReply | mobius/www/server.py:355-363 | status 200 iff the state is RESULT, with the response; ERROR gives 500 with the error; any other state gives 500 with `Unexpected error occurred.` |
| Server.StateOf | mobius/www/server.py:346 | only a decoded `ProviderResponse` has a state |
| Server.IsProgress | mobius/www/server.py:347-349 | a reply the loop passes over is a decoded `ProviderResponse` in the UPLOADING state |
| Server.QuoteReply | mobius/www/server.py:294-306 | the quote handler replies with the terminal mapping of its one reply, and raises when it has no state |
| Server.Stop | mobius/www/server.py:347-363 | a reply that ends the loop raises when it is UPLOADING or stateless, and otherwise gives the quote handler's reply |
| Server.ProviderOutcome | mobius/www/server.py:343-363 | the outcome is decided at a reply that is not a progress reply, as that reply ends the loop |
| Server.ProgressBeforeOutcome | mobius/www/server.py:347-353 | the handler waits iff every reply is a progress reply; otherwise every reply before the deciding one is |
| Server.FirstStopDecides | mobius/www/server.py:347-363 | the first reply that is not a progress reply decides the outcome |
| Server.LaterRepliesIgnored | mobius/www/server.py:347-363 | replies after the deciding one change nothing |
| Server.TerminalFirst | mobius/www/server.py:355-363 | a terminal first reply ends the upload handler exactly as it ends the quote handler |
| Server.UploadToProvider | mobius/www/server.py:343-364 | the handler's loop computes `ProviderOutcome` |
| Server.MakeRequest | mobius/www/server.py:60-78 | a wrong message type raises and leaves the callback registered; otherwise the message is written, the callback receives the batch, the result is its last frame decoded, and the callback is cleared |
| Server.LocalRequestRefused | mobius/comm/comm_config.py:14-17 | `/request/local` sends only `ProviderRequest`, so the handlers' `Request` is refused, and what it receives is read as a `ProviderRequest` |
| General.Singleton.constructor | mobius/utils/general.py:4-9 | no instance cached yet |
| General.Singleton.Call | mobius/utils/general.py:10-13 | constructs and caches a new instance with the arguments when none is cached (or it is false); otherwise returns the cached one and ignores the arguments |
| General.Singleton.CallTwice | mobius/utils/general.py:10-13 | two calls give the identical object, built from the first call's arguments only |
| General.Decode | mobius/utils/general.py:21-22 | succeeds iff the text is JSON for an object, giving its members, which have distinct keys |
| General.GetItem | mobius/utils/general.py:24-28 | `json_string` gives the encoding; any other key gives its member iff present, and `AttributeError` otherwise |
| General.Encode | mobius/utils/general.py:50-55 | `json_string` reads back, with `json.loads`, as the object of the members |
| General.SetItem | mobius/utils/general.py:33-40 | refused iff the key is `json_string`; otherwise keys stay distinct |
| General.DelItem | mobius/utils/general.py:42-48 | `KeyError` iff the key is absent |
| General.EmptyByDefault | mobius/utils/general.py:21-22 | `JSONObject()` has no members |
| General.GetAfterSet | mobius/utils/general.py:24-40 | after `obj[k] = v`, `obj[k]` is `v` and `k in obj`; every other key reads as before |
| General.GetAfterDel | mobius/utils/general.py:42-48 | `del obj[k]` removes `k` and only `k` |
| General.EncodeDecode | mobius/utils/general.py:50-55 | `JSONObject(obj.json_string)` has the same members in the same order |
| General.PropertyShadowsMember | mobius/utils/general.py:24-28 | the `json_string` property is read even when a member has that name |
| General.InsertWellFormed | mobius/utils/general.py:33-40 | setting a JSON value keeps every member a JSON value with distinct keys |
| General.RemoveWellFormed | mobius/utils/general.py:42-48 | deleting a member keeps the members well formed |
| General.JSONObject.constructor | mobius/utils/general.py:21-22 | a new object has no members |
| General.JSONObject.FromText | mobius/utils/general.py:21-22 | a fresh object holding the decoded members, or the error of decoding |
| General.JSONObject.Get | mobius/utils/general.py:24-28 | reads as `GetItem` of the members |
| General.JSONObject.Contains | mobius/utils/general.py:30-31 | holds iff the key is a member |
| General.JSONObject.JsonString | mobius/utils/general.py:50-55 | decoding the text gives the members back |
| General.JSONObject.Set | mobius/utils/general.py:33-40 | refused for `json_string`, leaving the members; otherwise the key maps to the value, which `Get` then reads |
| General.JSONObject.Del | mobius/utils/general.py:42-48 | `KeyError` iff absent, leaving the members; otherwise the key is removed and no longer contained |
| Json.LoadsDumps | mobius/utils/general.py:50-55 | `json.loads(json.dumps(v)) == v` for every value whose objects have distinct keys |
| Json.Dumps | mobius/utils/general.py:55 | a string, array or object is written between its quotes or brackets |
| Json.Loads | mobius/utils/general.py:22 | `json.loads` returns values whose objects have distinct keys |
| Text.Utf8RoundTrip | mobius/www/handlers/upload.py:105 | UTF-8 decoding gives encoded text back |
| Text.Utf8Decode | mobius/www/handlers/upload.py:105 | decoded text has between a quarter of the bytes' count and that count of characters, each taking one to four bytes |
| Text.ParsePyInt | mobius/www/server.py:484 | `int` accepts the stripped text iff it is a digit run, optionally after one sign; a `-` gives a value at most 0, otherwise at least 0 |
| Text.IntStringRoundTrip | mobius/www/server.py:484 | `int(str(n)) == n` |

## Left out

- I/O: sockets, the ZeroMQ context, the Tornado loop, the temporary file on disk, and HTTP. They are logs and parameters as described above.
- `SocketFactory` (mobius/comm/stream.py:205-383): socket creation and bind/connect. Its undefined `on_recv`/`on_send` names at lines 259 and 281 are not modelled.
- `Stream.flush` and `Stream.close`: they only delegate to the ZeroMQ stream.
- `reply(...)` is not defined on `Stream`. Replies are an abstract emit event with no frame layout.
- Callback arity: `_callback_wrapper` calls the callback with the frame list only. The handlers' `(envelope, msgs)` signature is not modelled.
- Protocol-buffer parsing and serialisation are parameters. Of the parser the model assumes only that it yields a message of the class asked for, or fails (`Messages.ParsesAsType`).
- Upload.StreamHandler.RequestDone: the reply is parsed with the channel's reply type, `DBResponse`, as intended. As written it is parsed with the receive type, `DBRequest`, and never sets the model id (see Findings, `Upload.ReplyFrameAsWritten`).
- Sculpteo.SculpteoService.ProcessRequest: the broken `except` branches raise (a message-less `log.exception()`, a missing argument) before any reply, so only "no entry, nothing sent, an error" is stated.
- The worker functions and `SaveFile.run`: HTTP, file and database work. A worker's outcome is a parameter of `FinishUp`.
- MultipartParser.Step: the data pass cuts with the intended `ReadData`, not the slice as written at mobius/www/utils.py:88 (see Findings). The two agree whenever at least two bytes precede the boundary (Multipart.ReadDataAgrees), as they do after the CRLF of a well-formed body. A boundary at index 0 or 1 of the buffer is where the source delivers `buf[:i - 2]` read from the end.
- MultipartParser.Pump: runs `Step`, so it carries the intended cut of the previous line.
- MultipartParser.Receive: runs `Pump`, so it carries the intended cut.
- MultipartParser.HangRepeats: with the intended cut, each cycle delivers empty data. As written, each cycle delivers all but the last two bytes of the buffer (MultipartParser.EmptyBoundaryCutAsWritten). The loop never ends either way.
- MultipartParser.PostContentParser.ReadDataStep: computes the intended cut, as `Step` does.
- MultipartParser.PostContentParser.StepOnce: runs `ReadDataStep`, so it carries the intended cut.
- MultipartParser.PostContentParser.PumpLoop: runs `StepOnce`, so it carries the intended cut.
- MultipartParser.PostContentParser.DataReceived: runs `PumpLoop`, so it carries the intended cut.
- Server.PortType: `int()` is modelled on ASCII digits only. Python also reads other Unicode decimal digits, so a port written with them (for example full-width digits) is accepted by the source and refused by the model.
- Upload.StreamHandler.DataReceived: the parser's pass carries the intended cut, as `Receive` does. Also, when `receive_data` raises mid-loop in the source, the parser's loop is abandoned too. The model lets the parser finish its pass and stops only the handler's replay, so the parser state after such an abort is not modelled.
- Upload.FieldName: an `unknown` list under `Content-Disposition` would raise `TypeError`. The parser never builds one (Upload.NoListUnderDisposition), so that case yields None.
- General.GetItem: dunder names (`__dict__`, `__class__`, the special methods) resolve on the object before its members. They are excluded by a precondition.
- General.Singleton.Call: instances are known by construction index. Python object identity, and arguments of any arity or keyword, are not modelled.
- JSON floats, NaN and Infinity, and lone surrogates: `Json.Loads` treats them as unsupported.
- `str.lower()` is modelled on ASCII letters only. No non-ASCII character lowers into the letters of a transport name, so transport classification is unaffected.
- Server.UploadToProvider and Server.QuoteReply: the handlers' own `send` of a `Request` on `/request/local` always raises (Server.LocalRequestRefused). The model therefore starts from the replies the future would receive. Argument parsing, `current_user` and logging are not modelled.
- Server.MakeRequest: the future is resolved by the first non-empty batch, given as a parameter. A batch that never comes (the coroutine waiting forever) is not modelled.
- `hash_password`, `load_user`, the Session/Application/authentication handlers, websockets, the database wrapper, the process pool, the Materialise service, the YAML builder and the request proxy are not part of this model.
- `get_zmq_dir` is imported but not defined by the utilities shown, so the runtime directory is a parameter of `Streams.ZmqUrl`.

## Findings

| source | as written | input that shows it | evidently intended | confidence | as-written member | corrected member |
|---|---|---|---|---|---|---|
| mobius/www/utils.py:88 | the data before the boundary is sliced up to the boundary's index minus two; Python reads a negative end index from the end of the buffer | boundary `--b`, buffer `--b--` CRLF (the CRLF before the boundary ended the previous chunk): the boundary's index is 0, so all but the last two bytes, boundary included, are delivered as data | the data ends before the CRLF that precedes the boundary, and is empty when fewer than two bytes precede it | not executed | Multipart.ReadDataAsWritten | Multipart.ReadData |
| mobius/comm/comm_config.py:7-10 | `/db/new_file` gives no receive type, so it receives its send type, `DBRequest`; `_recv_wrapper` (mobius/comm/stream.py:192-193) parses the database's reply with that type, and `request_done` then reads `result.success` on a `DBRequest` or on raw bytes, which raises inside its bare `except` | any reply, a successful `DBResponse` included: it is parsed as a `DBRequest` or left raw, so `_uploaded_model_id` is never set and `post` always writes `{"success": false, "model_id": -1}` | the reply is parsed with the channel's reply type, `DBResponse`, and a successful one sets the model id | not executed | Upload.ReplyAsWrittenNeverSetsId | Upload.ReplyFrameSetsId |

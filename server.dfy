/**
 * The request-side logic of `mobius/www/server.py`: the `--port` argument
 * type, the mapping of a worker's terminal state to an HTTP status and body in
 * `QuoteHandler.get` and `UploadToProvider.get`, the loop of
 * `UploadToProvider.get` over progress replies, and `make_request`.
 */
module Server {
  import opened Wrappers
  import opened Text
  import opened Dicts
  import opened Json
  import opened Messages
  import opened CommConfig
  import opened Streams
  import opened General

  // ---------------------------------------------------------------------------
  // port_type

  /** The two `argparse.ArgumentTypeError`s of `port_type`, by message. */
  datatype PortError = RootRequired(message: string) | Invalid(message: string)

  function RootMessage(value: string): string {
    "You must have root privileges to use port " + value
  }

  function InvalidMessage(value: string): string {
    "Port value " + value + " is invalid."
  }

  /**
   * `port_type(value)` run by a process whose `os.getuid()` is `uid`: a
   * privileged port needs root, any other port must lie in 1..65535, and a
   * value `int` refuses is invalid.
   */
  function PortType(value: string, uid: int): (r: Result<int, PortError>)
    ensures r.Ok? <==> (ParsePyInt(value).Some? &&
      (1024 <= ParsePyInt(value).value <= 65535 || (1 <= ParsePyInt(value).value <= 1023 && uid == 0)))
    ensures r.Ok? ==> r.value == ParsePyInt(value).value
    ensures r == Err(RootRequired(RootMessage(value))) <==>
      ParsePyInt(value).Some? && 1 <= ParsePyInt(value).value <= 1023 && uid != 0
    ensures r.Err? && !r.error.RootRequired? ==> r.error == Invalid(InvalidMessage(value))
  {
    match ParsePyInt(value)
    case None => Err(Invalid(InvalidMessage(value)))
    case Some(n) =>
      if 1 <= n <= 1023 then
        if uid != 0 then Err(RootRequired(RootMessage(value))) else Ok(n)
      else if n <= 0 || n > 65535 then Err(Invalid(InvalidMessage(value)))
      else Ok(n)
  }

  /** The decimal text of a number: accepted unchanged in 1024..65535, and in 1..1023 only for root. */
  lemma PortOfNumber(n: int, uid: int)
    ensures 1024 <= n <= 65535 ==> PortType(IntToString(n), uid) == Ok(n)
    ensures 1 <= n <= 1023 ==> (PortType(IntToString(n), uid) ==
      (if uid == 0 then Ok(n) else Err(RootRequired(RootMessage(IntToString(n))))))
    ensures n <= 0 || n > 65535 ==> PortType(IntToString(n), uid) == Err(Invalid(InvalidMessage(IntToString(n))))
  {
    IntStringRoundTrip(n);
  }

  /** Whatever the process, an accepted port lies in 1..65535, and root accepts every port there. */
  lemma PortRange(value: string, uid: int)
    ensures PortType(value, uid).Ok? ==> 1 <= PortType(value, uid).value <= 65535
    ensures ParsePyInt(value).Some? && 1 <= ParsePyInt(value).value <= 65535 ==> PortType(value, 0).Ok?
    ensures PortType(value, uid).Ok? ==> PortType(value, 0) == PortType(value, uid)
  {
  }

  // ---------------------------------------------------------------------------
  // Terminal states

  /** What the handler writes: `set_status(status)` and `write(body)`. */
  datatype HttpReply = HttpReply(status: int, body: string)

  const UNEXPECTED: string := "Unexpected error occurred."

  /** The `if`/`elif`/`else` on `state.state_id` that ends both handlers. */
  function TerminalReply(state: WorkerState): (r: HttpReply)
    ensures r.status == 200 || r.status == 500
    ensures r.status == 200 <==> state.stateId == ResultState
    ensures state.stateId == ResultState ==> r.body == state.response
    ensures state.stateId == ErrorState ==> r.body == state.error
    ensures state.stateId != ResultState && state.stateId != ErrorState ==> r.body == UNEXPECTED
  {
    match state.stateId
    case ErrorState => HttpReply(500, state.error)
    case ResultState => HttpReply(200, state.response)
    case _ => HttpReply(500, UNEXPECTED)
  }

  /** `response.state`: only a decoded `ProviderResponse` has one; anything else raises `AttributeError`. */
  function StateOf(f: Frame): (r: Option<WorkerState>)
    ensures r.Some? <==> f.Decoded? && f.msg.ProviderResponse?
    ensures r.Some? ==> f == Decoded(ProviderResponse(r.value))
  {
    if f.Decoded? && f.msg.ProviderResponse? then Some(f.msg.state) else None
  }

  /** How a handler ends: a reply decided by the reply at index `at`, an exception raised at `at`, or still waiting. */
  datatype Outcome = Replied(reply: HttpReply, at: nat) | Raised(at: nat) | Waiting

  /** The outcome with every index moved on by `n`. */
  function Shift(o: Outcome, n: nat): (r: Outcome)
    ensures r.Waiting? <==> o.Waiting?
    ensures r.Replied? <==> o.Replied?
    ensures r.Replied? ==> r.reply == o.reply && r.at == o.at + n
    ensures r.Raised? ==> r.at == o.at + n
  {
    match o
    case Replied(reply, at) => Replied(reply, at + n)
    case Raised(at) => Raised(at + n)
    case Waiting => Waiting
  }

  /** `QuoteHandler.get` after its one reply: the terminal mapping, where an UPLOADING state is unexpected. */
  function QuoteReply(f: Frame): (r: Outcome)
    ensures r.Waiting? == false
    ensures r.Raised? <==> StateOf(f).None?
    ensures r.Replied? ==> r.at == 0 && r.reply == TerminalReply(StateOf(f).value)
  {
    match StateOf(f)
    case None => Raised(0)
    case Some(state) => Replied(TerminalReply(state), 0)
  }

  // ---------------------------------------------------------------------------
  // UploadToProvider

  const PROGRESS: string := "progress"

  /**
   * A reply the loop of `UploadToProvider.get` passes over: an UPLOADING state
   * whose response is a JSON object, read by `JSONObject`, that has a
   * `progress` attribute.
   */
  predicate IsProgress(f: Frame)
    ensures IsProgress(f) ==> f.Decoded? && f.msg.ProviderResponse? && f.msg.state.stateId == UploadingState
  {
    StateOf(f).Some? && StateOf(f).value.stateId == UploadingState && HasProgress(StateOf(f).value.response)
  }

  /** `JSONObject(response).progress` does not raise. */
  predicate HasProgress(response: string) {
    Decode(response).Ok? && GetItem(Decode(response).value, PROGRESS).Ok?
  }

  /** A reply that stops the loop: the handler raises on it, or maps it to a reply. */
  function Stop(f: Frame): (r: Outcome)
    requires !IsProgress(f)
    ensures r.Replied? <==> StateOf(f).Some? && StateOf(f).value.stateId != UploadingState
    ensures r.Replied? ==> r == QuoteReply(f)
    ensures r.Raised? ==> r.at == 0
    ensures !r.Waiting?
  {
    match StateOf(f)
    case None => Raised(0)
    case Some(state) => if state.stateId == UploadingState then Raised(0) else Replied(TerminalReply(state), 0)
  }

  /**
   * `UploadToProvider.get` given the replies its future receives, in order:
   * progress replies are passed over, the first other reply decides, and when
   * the replies run out first the handler is still waiting.
   */
  function ProviderOutcome(replies: seq<Frame>): (r: Outcome)
    ensures !r.Waiting? ==> (r.at < |replies| && !IsProgress(replies[r.at]) && r == Shift(Stop(replies[r.at]), r.at))
  {
    if replies == [] then Waiting
    else if IsProgress(replies[0]) then Shift(ProviderOutcome(replies[1..]), 1)
    else Stop(replies[0])
  }

  /** The handler waits exactly when every reply so far is a progress reply; otherwise every reply before the deciding one is. */
  lemma {:induction false} ProgressBeforeOutcome(replies: seq<Frame>)
    ensures ProviderOutcome(replies).Waiting? <==> forall j :: 0 <= j < |replies| ==> IsProgress(replies[j])
    ensures var r := ProviderOutcome(replies);
      !r.Waiting? ==> forall j :: 0 <= j < r.at ==> IsProgress(replies[j])
  {
    if replies != [] {
      ProgressBeforeOutcome(replies[1..]);
      assert forall j :: 1 <= j < |replies| ==> replies[j] == replies[1..][j - 1];
    }
  }

  /** The outcome is decided by the first reply that is not a progress reply. */
  lemma {:induction false} FirstStopDecides(replies: seq<Frame>, k: nat)
    requires k < |replies| && !IsProgress(replies[k])
    requires forall j :: 0 <= j < k ==> IsProgress(replies[j])
    ensures ProviderOutcome(replies) == Shift(Stop(replies[k]), k)
  {
    if k > 0 {
      assert replies[1..][k - 1] == replies[k];
      FirstStopDecides(replies[1..], k - 1);
    }
  }

  /** Once a reply has decided the outcome, replies received after it change nothing. */
  lemma {:induction false} LaterRepliesIgnored(replies: seq<Frame>, more: seq<Frame>)
    requires !ProviderOutcome(replies).Waiting?
    ensures ProviderOutcome(replies + more) == ProviderOutcome(replies)
  {
    assert (replies + more)[0] == replies[0];
    if IsProgress(replies[0]) {
      assert (replies + more)[1..] == replies[1..] + more;
      LaterRepliesIgnored(replies[1..], more);
    }
  }

  /** A first reply in a terminal state ends `UploadToProvider.get` exactly as it ends `QuoteHandler.get`. */
  lemma TerminalFirst(f: Frame, rest: seq<Frame>)
    requires StateOf(f).Some? && StateOf(f).value.stateId != UploadingState
    ensures ProviderOutcome([f] + rest) == QuoteReply(f)
  {
    assert ([f] + rest)[0] == f;
  }

  /** The loop of `UploadToProvider.get`, over the replies its future receives. */
  method UploadToProvider(replies: seq<Frame>) returns (o: Outcome)
    ensures o == ProviderOutcome(replies)
  {
    if replies == [] {
      return Waiting;
    }
    var i := 0;
    var state := StateOf(replies[0]);
    if state.None? {
      return Raised(0);
    }
    while state.value.stateId == UploadingState
      invariant 0 <= i < |replies| && state == StateOf(replies[i]) && state.Some?
      invariant ProviderOutcome(replies) == Shift(ProviderOutcome(replies[i..]), i)
      decreases |replies| - i
    {
      var result := Decode(state.value.response);
      if result.Err? || GetItem(result.value, PROGRESS).Err? {
        assert !HasProgress(state.value.response);
        return Raised(i);
      }
      assert replies[i..][1..] == replies[i + 1..];
      if i + 1 == |replies| {
        return Waiting;
      }
      i := i + 1;
      state := StateOf(replies[i]);
      if state.None? {
        return Raised(i);
      }
    }
    return Replied(TerminalReply(state.value), i);
  }

  // ---------------------------------------------------------------------------
  // make_request

  /**
   * `make_request(message, socket)`: registers a receive callback, sends the
   * message, and when the first batch of frames arrives resolves with its last
   * frame and clears the callback. A message of the wrong type makes `send`
   * raise, and the callback stays registered.
   */
  method MakeRequest(s: Stream, message: Message, cb: Callback, batch: seq<bytes>) returns (r: Result<Frame, SendError>)
    requires s.Valid() && batch != []
    modifies s
    ensures s.Valid() && s.onSend == old(s.onSend)
    ensures r.Err? <==> TypeOf(message) != s.info.sendType
    ensures r.Err? ==> s.onRecv == Some(cb) && s.written == old(s.written) && s.calls == old(s.calls)
    ensures r.Ok? ==> s.onRecv.None? && s.written == old(s.written) + [s.serialize(message)]
    ensures r.Ok? ==> s.calls == old(s.calls) + [(cb, DecodeAll(batch, s.info.recvType, s.parse))]
    ensures r.Ok? ==> r.value == DecodeFrame(batch[|batch| - 1], s.info.recvType, s.parse)
  {
    s.OnRecv(Some(cb));
    var sent := s.Send(message);
    if sent.Err? {
      return Err(sent.error);
    }
    s.Receive(batch);
    var msgs := s.calls[|s.calls| - 1].1;
    r := Ok(msgs[|msgs| - 1]);
    s.OnRecv(None);
  }

  /**
   * Both handlers send a `Request` on `/request/local`, whose messages must be
   * `ProviderRequest`s: `send` always refuses it, and what the channel
   * receives is read as a `ProviderRequest`, which has no `state`.
   */
  lemma LocalRequestRefused(command: Command, params: string)
    ensures GetStreamName("/request/local").Ok?
    ensures var info := GetStreamName("/request/local").value;
      TypeOf(Request(command, params)) != info.sendType && info.recvType == ProviderRequestType
  {
    GetStreamNameExact("/request/local");
    assert STREAM_MAP[2] == ("/request/local", ChannelParams(ProviderRequestType, Some(ProviderResponseType)));
  }
}

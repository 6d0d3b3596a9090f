/**
 * The messaging layer (`mobius/comm/stream.py`): validated ZeroMQ endpoint
 * addresses and their URLs, and `Stream`, which checks the type of what it
 * sends and decodes every frame it hands to its single receive or send callback.
 * The underlying `ZMQStream` is represented by what it has written and by which
 * of its two hooks are installed; protocol-buffer encoding is a pair of
 * functions given to the stream.
 */
module Streams {
  import opened Wrappers
  import opened Text
  import opened Messages
  import opened CommConfig

  // ---------------------------------------------------------------------------
  // ZmqAddress

  /** `StreamError(message)`. */
  datatype StreamError = StreamError(message: string)

  /**
   * A validated endpoint. The transport is stored lower-cased; an ipc or inproc
   * address keeps its channel name, a tcp address its host and port.
   */
  datatype ZmqAddress =
    | LocalAddress(transport: string, chanName: string)
    | TcpAddress(host: string, port: int)

  /** `str.lower()` on one character, for the ASCII letters. */
  function LowerChar(c: char): (l: char) {
    if 'A' <= c <= 'Z' then (c as int + 32) as char else c
  }

  /** `transport.lower()`, for the ASCII letters. */
  function Lower(s: string): (r: string)
    ensures |r| == |s| && forall i :: 0 <= i < |s| ==> r[i] == LowerChar(s[i])
  {
    seq(|s|, i requires 0 <= i < |s| => LowerChar(s[i]))
  }

  predicate IsLocal(t: string) { t == "ipc" || t == "inproc" }
  predicate IsTcp(t: string) { t == "tcp" }
  predicate IsMulticast(t: string) { t == "pgm" || t == "epgm" }

  /** `ZmqAddress(transport, host, chan_name, port)`; each check in the order the constructor makes it. */
  function NewZmqAddress(transport: string, host: Option<string>, chanName: Option<string>, port: Option<int>)
    : (r: Result<ZmqAddress, StreamError>)
    ensures r.Ok? && r.value.LocalAddress? ==>
      r.value.transport == Lower(transport) && IsLocal(r.value.transport) && chanName == Some(r.value.chanName)
    ensures r.Ok? && r.value.TcpAddress? ==>
      IsTcp(Lower(transport)) && host == Some(r.value.host) && port == Some(r.value.port)
    ensures IsLocal(Lower(transport)) && chanName.None? ==>
      r == Err(StreamError("'" + Lower(transport) + "' transport requires a chan_name."))
    ensures IsTcp(Lower(transport)) && (host.None? || port.None?) ==>
      r == Err(StreamError("'" + Lower(transport) + "' transport requires a port and a host."))
  {
    var t := Lower(transport);
    if IsMulticast(t) then Err(StreamError("Pragmatic general multicast not supported."))
    else if IsLocal(t) && chanName.None? then Err(StreamError("'" + t + "' transport requires a chan_name."))
    else if IsTcp(t) && (port.None? || host.None?) then
      Err(StreamError("'" + t + "' transport requires a port and a host."))
    else if !(IsLocal(t) || IsTcp(t)) then Err(StreamError("Incorrect transport specified: '" + transport + "'"))
    else if IsLocal(t) then Ok(LocalAddress(t, chanName.value))
    else Ok(TcpAddress(host.value, port.value))
  }

  /** `chan_name.lstrip('/')` */
  function StripSlashes(s: string): (r: string)
    ensures |r| <= |s| && r == s[|s| - |r|..]
    ensures r == [] || r[0] != '/'
    ensures forall i :: 0 <= i < |s| - |r| ==> s[i] == '/'
  {
    if s != [] && s[0] == '/' then StripSlashes(s[1..]) else s
  }

  /** `s.replace('/', '_')` */
  function SlashesToUnderscores(s: string): (r: string)
    ensures |r| == |s|
    ensures forall i :: 0 <= i < |s| ==> r[i] == (if s[i] == '/' then '_' else s[i])
  {
    seq(|s|, i requires 0 <= i < |s| => if s[i] == '/' then '_' else s[i])
  }

  /** The file name of a local endpoint: leading slashes dropped, the others turned into underscores. */
  function ChannelFileName(chanName: string): (r: string)
    ensures '/' !in r && |r| <= |chanName|
    ensures r != [] ==> chanName[|chanName| - |r|] != '/'
  {
    SlashesToUnderscores(StripSlashes(chanName))
  }

  /** `os.path.join(directory, name)` for a relative `name`. */
  function PathJoin(directory: string, name: string): (r: string)
    requires name == [] || name[0] != '/'
    ensures |directory| + |name| <= |r| <= |directory| + |name| + 1
    ensures r[..|directory|] == directory && r[|r| - |name|..] == name
    ensures directory != [] ==> r[|r| - |name| - 1] == '/'
    ensures |r| == |directory| + |name| + 1 ==> directory != [] && directory[|directory| - 1] != '/'
  {
    if directory == [] || directory[|directory| - 1] == '/' then directory + name
    else directory + "/" + name
  }

  /** `ZmqAddress.zmq_url()`, under the runtime directory `zmqDir` of local endpoints. */
  function ZmqUrl(a: ZmqAddress, zmqDir: string): string {
    match a
    case LocalAddress(t, chanName) => t + "://" + PathJoin(zmqDir, ChannelFileName(chanName))
    case TcpAddress(host, port) => "tcp://" + host + ":" + IntToString(port)
  }

  // ---------------------------------------------------------------------------
  // Properties of ZmqAddress

  /** Multicast transports, in any letter case, are refused. */
  lemma MulticastRefused(transport: string, host: Option<string>, chanName: Option<string>, port: Option<int>)
    requires IsMulticast(Lower(transport))
    ensures NewZmqAddress(transport, host, chanName, port) == Err(StreamError("Pragmatic general multicast not supported."))
  {
  }

  /** A transport that is none of ipc, inproc, tcp, pgm and epgm is refused, naming it as given. */
  lemma UnknownTransportRefused(transport: string, host: Option<string>, chanName: Option<string>, port: Option<int>)
    requires var t := Lower(transport); !IsLocal(t) && !IsTcp(t) && !IsMulticast(t)
    ensures NewZmqAddress(transport, host, chanName, port) ==
      Err(StreamError("Incorrect transport specified: '" + transport + "'"))
  {
  }

  /**
   * An address is accepted exactly when the transport is ipc or inproc with a
   * channel name, or tcp with both a host and a port, in any letter case.
   */
  lemma AddressAccepted(transport: string, host: Option<string>, chanName: Option<string>, port: Option<int>)
    ensures var t := Lower(transport);
      NewZmqAddress(transport, host, chanName, port).Ok? <==>
        (IsLocal(t) && chanName.Some?) || (IsTcp(t) && host.Some? && port.Some?)
  {
  }

  /**
   * For the five transports it knows, letter case does not matter: "IPC" and
   * "Tcp" give the same address, or the same error, as "ipc" and "tcp". (An
   * unknown transport is quoted as given, see `UnknownTransportRefused`.)
   */
  lemma TransportCaseInsensitive(transport: string, host: Option<string>, chanName: Option<string>, port: Option<int>)
    requires var t := Lower(transport); IsLocal(t) || IsTcp(t) || IsMulticast(t)
    ensures NewZmqAddress(Lower(transport), host, chanName, port) == NewZmqAddress(transport, host, chanName, port)
  {
    LowerIdempotent(transport);
  }

  lemma LowerIdempotent(s: string)
    ensures Lower(Lower(s)) == Lower(s)
  {
  }

  /**
   * A local endpoint's file name is the channel name with its leading slashes
   * dropped and every other slash replaced by an underscore.
   */
  lemma ChannelFileNameFlat(chanName: string)
    ensures forall i :: 0 <= i < |chanName| - |StripSlashes(chanName)| ==> chanName[i] == '/'
    ensures var k := |chanName| - |StripSlashes(chanName)|;
      |ChannelFileName(chanName)| == |chanName| - k &&
      forall i :: 0 <= i < |ChannelFileName(chanName)| ==>
        ChannelFileName(chanName)[i] == if chanName[k + i] == '/' then '_' else chanName[k + i]
  {
  }

  /** "/request/local" becomes "request_local". */
  lemma RequestLocalFileName()
    ensures ChannelFileName("/request/local") == "request_local"
  {
    var s := "/request/local";
    var t := "request/local";
    assert s[1..] == t;
    assert StripSlashes(t) == t;
    var u := SlashesToUnderscores(t);
    assert |u| == 13;
    assert forall i :: 0 <= i < 13 ==> u[i] == "request_local"[i];
  }

  /** The URL of an accepted ipc or inproc address is the transport, `://`, and the file under the directory. */
  lemma LocalUrl(transport: string, chanName: string, zmqDir: string)
    requires IsLocal(Lower(transport))
    ensures NewZmqAddress(transport, None, Some(chanName), None).Ok?
    ensures ZmqUrl(NewZmqAddress(transport, None, Some(chanName), None).value, zmqDir) ==
      Lower(transport) + "://" + PathJoin(zmqDir, ChannelFileName(chanName))
  {
    var t := Lower(transport);
    assert t[0] == 'i';
    assert !IsMulticast(t) && !IsTcp(t);
    assert NewZmqAddress(transport, None, Some(chanName), None) == Ok(LocalAddress(t, chanName));
  }

  /** The URL of an accepted tcp address is exactly `tcp://host:port`. */
  lemma TcpUrl(transport: string, host: string, port: int, zmqDir: string)
    requires IsTcp(Lower(transport))
    ensures NewZmqAddress(transport, Some(host), None, Some(port)).Ok?
    ensures ZmqUrl(NewZmqAddress(transport, Some(host), None, Some(port)).value, zmqDir) ==
      "tcp://" + host + ":" + IntToString(port)
  {
  }

  // ---------------------------------------------------------------------------
  // Decoding the frames handed to a callback

  /** One frame: the message parsed as `msgType`, or the raw bytes when parsing fails. */
  function DecodeFrame(d: bytes, msgType: MsgType, parse: (MsgType, bytes) -> Option<Message>): (f: Frame)
    ensures f.Raw? <==> parse(msgType, d).None?
    ensures f.Raw? ==> f.data == d
    ensures f.Decoded? ==> f.msg == parse(msgType, d).value
    ensures ParsesAsType(parse) && f.Decoded? ==> TypeOf(f.msg) == msgType
  {
    match parse(msgType, d)
    case Some(m) => Decoded(m)
    case None => Raw(d)
  }

  /** Every frame decoded, in order. */
  function DecodeAll(data: seq<bytes>, msgType: MsgType, parse: (MsgType, bytes) -> Option<Message>): (fs: seq<Frame>)
    ensures |fs| == |data|
    ensures forall i :: 0 <= i < |data| ==> fs[i] == DecodeFrame(data[i], msgType, parse)
    ensures ParsesAsType(parse) ==> forall i :: 0 <= i < |fs| && fs[i].Decoded? ==> TypeOf(fs[i].msg) == msgType
  {
    if data == [] then [] else DecodeAll(data[..|data| - 1], msgType, parse) + [DecodeFrame(data[|data| - 1], msgType, parse)]
  }

  /** An opaque identity for a registered callback. */
  type Callback = nat

  /** `ValueError` from `Stream.send`. */
  datatype SendError = WrongMessageType

  class Stream {
    const info: StreamInfo
    const path: string
    /** `msg.SerializeToString()` */
    const serialize: Message -> bytes
    /** `msg_type().ParseFromString(d)`, None when it raises */
    const parse: (MsgType, bytes) -> Option<Message>
    var onRecv: Option<Callback>
    var onSend: Option<Callback>
    /** Whether the underlying stream calls `_recv_wrapper` / `_send_wrapper`. */
    var recvHooked: bool
    var sendHooked: bool
    /** What the underlying stream has been asked to send, in order. */
    var written: seq<bytes>
    /** Every callback invocation, with the decoded frames it was given. */
    var calls: seq<(Callback, seq<Frame>)>

    /**
     * A hook is installed exactly when a callback is registered, and parsing
     * yields only messages of the class asked for.
     */
    ghost predicate Valid()
      reads this
    {
      recvHooked == onRecv.Some? && sendHooked == onSend.Some? && ParsesAsType(parse)
    }

    constructor(info: StreamInfo, path: string, onRecv: Option<Callback>, onSend: Option<Callback>,
                serialize: Message -> bytes, parse: (MsgType, bytes) -> Option<Message>)
      requires ParsesAsType(parse)
      ensures Valid()
      ensures this.info == info && this.path == path && this.serialize == serialize && this.parse == parse
      ensures this.onRecv == onRecv && this.onSend == onSend
      ensures written == [] && calls == []
    {
      this.info := info;
      this.path := path;
      this.serialize := serialize;
      this.parse := parse;
      this.onRecv := onRecv;
      this.onSend := onSend;
      recvHooked := onRecv.Some?;
      sendHooked := onSend.Some?;
      written := [];
      calls := [];
    }

    /** `on_send(callback)`: replaces the one send callback; None removes the hook. */
    method OnSend(callback: Option<Callback>)
      requires Valid()
      modifies this
      ensures Valid()
      ensures onSend == callback
      ensures onRecv == old(onRecv) && recvHooked == old(recvHooked)
      ensures written == old(written) && calls == old(calls)
    {
      onSend := callback;
      sendHooked := callback.Some?;
    }

    /** `on_recv(callback)`: replaces the one receive callback; None removes the hook. */
    method OnRecv(callback: Option<Callback>)
      requires Valid()
      modifies this
      ensures Valid()
      ensures onRecv == callback
      ensures onSend == old(onSend) && sendHooked == old(sendHooked)
      ensures written == old(written) && calls == old(calls)
    {
      onRecv := callback;
      recvHooked := callback.Some?;
    }

    /** `send(msg)`: only a message of the channel's send type is written, once, serialised. */
    method Send(msg: Message) returns (r: Result<(), SendError>)
      modifies this
      ensures r.Err? <==> TypeOf(msg) != info.sendType
      ensures r.Err? ==> written == old(written)
      ensures r.Ok? ==> written == old(written) + [serialize(msg)]
      ensures onRecv == old(onRecv) && onSend == old(onSend)
      ensures recvHooked == old(recvHooked) && sendHooked == old(sendHooked) && calls == old(calls)
    {
      if TypeOf(msg) != info.sendType {
        return Err(WrongMessageType);
      }
      written := written + [serialize(msg)];
      return Ok(());
    }

    /** The loop of `_callback_wrapper`: each frame parsed, or kept raw. */
    method DecodeFrames(data: seq<bytes>, msgType: MsgType) returns (msgs: seq<Frame>)
      ensures msgs == DecodeAll(data, msgType, parse)
    {
      msgs := [];
      var i := 0;
      while i < |data|
        invariant 0 <= i <= |data|
        invariant msgs == DecodeAll(data[..i], msgType, parse)
      {
        var d := data[i];
        var msg: Frame;
        match parse(msgType, d) {
          case Some(m) => msg := Decoded(m);
          case None => msg := Raw(d);
        }
        assert data[..i + 1][..i] == data[..i];
        msgs := msgs + [msg];
        i := i + 1;
      }
      assert data[..i] == data;
    }

    /** `_callback_wrapper(data, msg_type, callback)`: the callback runs iff there is at least one frame. */
    method CallbackWrapper(data: seq<bytes>, msgType: MsgType, callback: Callback)
      modifies this
      ensures data == [] ==> calls == old(calls)
      ensures data != [] ==> calls == old(calls) + [(callback, DecodeAll(data, msgType, parse))]
      ensures written == old(written) && onRecv == old(onRecv) && onSend == old(onSend)
      ensures recvHooked == old(recvHooked) && sendHooked == old(sendHooked)
    {
      var msgs := DecodeFrames(data, msgType);
      if msgs != [] {
        calls := calls + [(callback, msgs)];
      }
    }

    /** The underlying stream received `data`: `_recv_wrapper` decodes with the receive type, when hooked. */
    method Receive(data: seq<bytes>)
      requires Valid()
      modifies this
      ensures Valid()
      ensures recvHooked && data != [] ==> calls == old(calls) + [(onRecv.value, DecodeAll(data, info.recvType, parse))]
      ensures !recvHooked || data == [] ==> calls == old(calls)
      ensures written == old(written) && onRecv == old(onRecv) && onSend == old(onSend)
    {
      if recvHooked {
        CallbackWrapper(data, info.recvType, onRecv.value);
      }
    }

    /** The underlying stream sent `data`: `_send_wrapper` decodes with the send type, when hooked. */
    method Sent(data: seq<bytes>)
      requires Valid()
      modifies this
      ensures Valid()
      ensures sendHooked && data != [] ==> calls == old(calls) + [(onSend.value, DecodeAll(data, info.sendType, parse))]
      ensures !sendHooked || data == [] ==> calls == old(calls)
      ensures written == old(written) && onRecv == old(onRecv) && onSend == old(onSend)
    {
      if sendHooked {
        CallbackWrapper(data, info.sendType, onSend.value);
      }
    }
  }
}

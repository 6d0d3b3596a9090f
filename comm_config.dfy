/**
 * The channel table (`mobius/comm/comm_config.py`): every named channel with the
 * message types sent, received and replied on it, and the exact-match lookup
 * that fails with `StreamConfigError` on an unknown name.
 */
module CommConfig {
  import opened Wrappers
  import opened Dicts
  import opened Messages

  /** A channel definition; fixed once built, read through the properties of the same names. */
  datatype StreamInfo = StreamInfo(name: string, sendType: MsgType, recvType: MsgType, replyType: MsgType)

  /** `StreamConfigError(message)`. */
  datatype StreamConfigError = StreamConfigError(message: string)

  /** `StreamInfo(name, send_type, recv_type=None, reply_type=None)`. */
  function NewStreamInfo(name: string, sendType: MsgType, recvType: Option<MsgType>, replyType: Option<MsgType>): (info: StreamInfo)
    ensures info.name == name && info.sendType == sendType
    ensures recvType.None? ==> info.recvType == sendType
    ensures recvType.Some? ==> info.recvType == recvType.value
    ensures replyType.None? ==> info.replyType == sendType
    ensures replyType.Some? ==> info.replyType == replyType.value
  {
    StreamInfo(name, sendType,
      if recvType.None? then sendType else recvType.value,
      if replyType.None? then sendType else replyType.value)
  }

  /** The keyword arguments of one `STREAM_MAP` entry. */
  datatype ChannelParams = ChannelParams(sendType: MsgType, replyType: Option<MsgType>)

  /** `STREAM_MAP`, in the order of its literal. */
  const STREAM_MAP: seq<(string, ChannelParams)> := [
    ("/db/new_file", ChannelParams(DBRequestType, Some(DBResponseType))),
    ("/mobius/model", ChannelParams(MobiusModelType, None)),
    ("/request/local", ChannelParams(ProviderRequestType, Some(ProviderResponseType))),
    ("/request/request", ChannelParams(ProviderRequestType, None)),
    ("/request/do_work", ChannelParams(ProviderRequestType, None)),
    ("/request/result", ChannelParams(ProviderResponseType, None))
  ]

  /** `_create_stream_info(chan_name, params)`: `StreamInfo(chan_name, **params)`. */
  function CreateStreamInfo(chanName: string, params: ChannelParams): (info: StreamInfo)
    ensures info.name == chanName && info.sendType == params.sendType
    ensures info.recvType == params.sendType
    ensures info.replyType == if params.replyType.Some? then params.replyType.value else params.sendType
  {
    NewStreamInfo(chanName, params.sendType, None, params.replyType)
  }

  /** The dictionary comprehension of `StreamMap.__init__`, over a table of entries. */
  function BuildInfos(table: seq<(string, ChannelParams)>): (infos: seq<(string, StreamInfo)>)
    ensures |infos| == |table|
    ensures forall i :: 0 <= i < |table| ==> infos[i] == (table[i].0, CreateStreamInfo(table[i].0, table[i].1))
  {
    if table == [] then [] else [(table[0].0, CreateStreamInfo(table[0].0, table[0].1))] + BuildInfos(table[1..])
  }

  /** `StreamMap()._stream_infos`. */
  function StreamInfos(): (infos: seq<(string, StreamInfo)>)
    ensures |infos| == |STREAM_MAP|
    ensures forall i :: 0 <= i < |infos| ==>
      infos[i].0 == STREAM_MAP[i].0 && infos[i].1.name == infos[i].0 && infos[i].1.recvType == infos[i].1.sendType
  {
    BuildInfos(STREAM_MAP)
  }

  /** `StreamMap().get_stream_name(chan_name)`. */
  function GetStreamName(chanName: string): (r: Result<StreamInfo, StreamConfigError>)
    ensures r.Ok? <==> HasKey(StreamInfos(), chanName)
    ensures r.Ok? ==> Lookup(StreamInfos(), chanName) == Some(r.value)
    ensures r.Err? ==> r.error.message == "Channel '" + chanName + "' doesn't exist."
  {
    match Lookup(StreamInfos(), chanName)
    case Some(info) => Ok(info)
    case None => Err(StreamConfigError("Channel '" + chanName + "' doesn't exist."))
  }

  // ---------------------------------------------------------------------------
  // Properties of the table

  /** The keys of the built map are those of the table, in the same order. */
  lemma {:induction false} BuildInfosKeys(table: seq<(string, ChannelParams)>)
    ensures Keys(BuildInfos(table)) == Keys(table)
  {
    if table != [] {
      BuildInfosKeys(table[1..]);
      assert BuildInfos(table)[1..] == BuildInfos(table[1..]);
    }
  }

  /** Looking a name up in the built map finds the info built from that name's entry. */
  lemma {:induction false} BuildInfosLookup(table: seq<(string, ChannelParams)>, k: string)
    ensures Lookup(BuildInfos(table), k) ==
      (match Lookup(table, k) case None => None case Some(p) => Some(CreateStreamInfo(k, p)))
  {
    if table != [] {
      BuildInfosLookup(table[1..], k);
      assert BuildInfos(table)[1..] == BuildInfos(table[1..]);
    }
  }

  /** The map holds exactly one info per `STREAM_MAP` key, and each info's name is its key. */
  lemma StreamInfosMatchTable()
    ensures Keys(StreamInfos()) == Keys(STREAM_MAP)
    ensures DistinctKeys(StreamInfos())
    ensures forall i :: 0 <= i < |StreamInfos()| ==> StreamInfos()[i].1.name == StreamInfos()[i].0
  {
    BuildInfosKeys(STREAM_MAP);
    DistinctKeysOfKeys(StreamInfos(), STREAM_MAP);
  }

  /**
   * Lookup is exact: a name resolves iff it is literally a key of `STREAM_MAP`,
   * and then to the info built from that entry, carrying the name itself.
   */
  lemma GetStreamNameExact(chanName: string)
    ensures GetStreamName(chanName).Ok? <==> HasKey(STREAM_MAP, chanName)
    ensures GetStreamName(chanName).Ok? ==>
      GetStreamName(chanName).value == CreateStreamInfo(chanName, Lookup(STREAM_MAP, chanName).value)
    ensures GetStreamName(chanName).Ok? ==> GetStreamName(chanName).value.name == chanName
  {
    BuildInfosLookup(STREAM_MAP, chanName);
  }

  /** The error for an unknown channel names it: the name sits inside the message after `Channel '`. */
  lemma UnknownChannelMessage(chanName: string)
    requires !HasKey(STREAM_MAP, chanName)
    ensures GetStreamName(chanName).Err?
    ensures var m := GetStreamName(chanName).error.message;
      |m| == |chanName| + 25 && m[9..9 + |chanName|] == chanName
  {
    GetStreamNameExact(chanName);
  }

  /** `/db/new_file` sends and receives `DBRequest` and is replied to with `DBResponse`. */
  lemma DbNewFileChannel()
    ensures GetStreamName("/db/new_file") == Ok(StreamInfo("/db/new_file", DBRequestType, DBRequestType, DBResponseType))
  {
    GetStreamNameExact("/db/new_file");
  }

  /** `/request/result` uses `ProviderResponse` for all three types. */
  lemma RequestResultChannel()
    ensures GetStreamName("/request/result") ==
      Ok(StreamInfo("/request/result", ProviderResponseType, ProviderResponseType, ProviderResponseType))
  {
    GetStreamNameExact("/request/result");
  }

  /** No normalisation: a trailing slash makes a known name unknown. */
  lemma TrailingSlashUnknown()
    ensures GetStreamName("/db/new_file/").Err?
  {
    GetStreamNameExact("/db/new_file/");
  }
}

/**
 * The protocol-buffer messages the services exchange (`mobius.comm.msg_pb2`),
 * reduced to the fields the modelled code reads or writes, and the frames a
 * stream hands to its callbacks. The generated message classes are not part of
 * this model: their wire encoding is a parameter wherever it is needed.
 */
module Messages {
  import opened Wrappers
  import opened Text

  /** A message class, as `isinstance` and `ParseFromString` see it. */
  datatype MsgType =
    | DBRequestType
    | DBResponseType
    | MobiusModelType
    | ProviderRequestType
    | ProviderResponseType
    | RequestType
    | ResponseType
    | UploadProgressType

  /** `mobius.service.Command`; only `SAVE_FILE` is told apart by the modelled code. */
  datatype Command = SaveFile | OtherCommand(code: int)

  /** The request kinds the Sculpteo service knows (`mobius.service.QUOTE`, `UPLOAD`, `TEST`). */
  datatype RequestKind = Quote | Upload | Test | OtherKind(code: int)

  /** `WorkerState.state_id`. */
  datatype StateId = ResultState | ErrorState | UploadingState | OtherState(code: int)

  datatype MobiusModel = MobiusModel(id: int, userId: int)

  datatype WorkerState = WorkerState(stateId: StateId, response: string, error: string)

  datatype Message =
    | DBRequest(command: Command, path: string, filename: Option<string>, userId: int)
    | DBResponse(success: bool, savedModel: Option<MobiusModel>, error: Option<string>)
    | ModelMessage(model: MobiusModel)
    | ProviderRequest(kind: RequestKind, model: MobiusModel)
    | ProviderResponse(state: WorkerState)
    | Request(command: Command, params: string)
    | Response(serviceName: string, response: Option<string>, error: Option<string>)
    | UploadProgress(progress: int)

  /** The class of a message (`type(msg)`). */
  function TypeOf(m: Message): MsgType {
    match m
    case DBRequest(_, _, _, _) => DBRequestType
    case DBResponse(_, _, _) => DBResponseType
    case ModelMessage(_) => MobiusModelType
    case ProviderRequest(_, _) => ProviderRequestType
    case ProviderResponse(_) => ProviderResponseType
    case Request(_, _) => RequestType
    case Response(_, _, _) => ResponseType
    case UploadProgress(_) => UploadProgressType
  }

  /** One frame handed to a stream callback: a decoded message, or the raw bytes when decoding failed. */
  datatype Frame = Decoded(msg: Message) | Raw(data: bytes)

  /**
   * What `msg_type().ParseFromString(d)` may do: give a message of the class it
   * was asked for, or raise (None); it never yields a message of another class.
   */
  ghost predicate ParsesAsType(parse: (MsgType, bytes) -> Option<Message>) {
    forall t: MsgType, d: bytes :: parse(t, d).Some? ==> TypeOf(parse(t, d).value) == t
  }
}

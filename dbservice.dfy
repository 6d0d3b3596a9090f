/**
 * The database service (`mobius/db/dbservice.py`): its one-entry command table,
 * the construction of a `SaveFile` command from a request and the service
 * context, and the two typed replies on `/db/new_file`. Running a command
 * (file and database I/O) is not part of this model; the database handle is
 * an opaque value.
 */
module DbService {
  import opened Wrappers
  import opened Dicts
  import opened Messages

  /** `db.DBHandle(url)`, opaque. */
  type DbHandle = nat

  /** `SaveFile(path, filename, user_id, db_handle)`, as constructed. */
  datatype SaveFileCommand = SaveFileCommand(path: string, filename: Option<string>, userId: int, dbHandle: DbHandle)

  /** The factory methods a command id can map to. */
  datatype CommandMaker = MakeSave

  /** `KeyError` from the context lookup. */
  datatype ContextError = MissingKey(key: string)

  /** `DBCommandFactory().commands` */
  const COMMANDS: seq<(Command, CommandMaker)> := [(SaveFile, MakeSave)]

  /** `commands[command]`: None is the `KeyError` of a command the service does not know. */
  function CommandFor(c: Command): (m: Option<CommandMaker>)
    ensures m.Some? ==> (c, m.value) in COMMANDS
    ensures m.None? ==> forall i :: 0 <= i < |COMMANDS| ==> COMMANDS[i].0 != c
  {
    if c == SaveFile then Some(MakeSave) else None
  }

  /** The command table holds `SAVE_FILE` and nothing else. */
  lemma OnlySaveFile(c: Command)
    ensures CommandFor(c) == Some(MakeSave) <==> c == SaveFile
    ensures CommandFor(c).None? <==> c != SaveFile
  {
  }

  /** `make_save_command(request, context)`: the request's fields and the context's `db_handle`. */
  function MakeSaveCommand(request: Message, context: seq<(string, DbHandle)>): (r: Result<SaveFileCommand, ContextError>)
    requires request.DBRequest?
    ensures r.Ok? <==> HasKey(context, "db_handle")
    ensures r.Err? ==> r.error == MissingKey("db_handle")
    ensures r.Ok? ==> (r.value.path == request.path && r.value.filename == request.filename &&
      r.value.userId == request.userId && Some(r.value.dbHandle) == Lookup(context, "db_handle"))
  {
    match Lookup(context, "db_handle")
    case None => Err(MissingKey("db_handle"))
    case Some(h) => Ok(SaveFileCommand(request.path, request.filename, request.userId, h))
  }

  /** With the service's own context, making a save command never fails and uses the service's handle. */
  lemma SaveCommandInServiceContext(request: Message, service: DBService)
    requires request.DBRequest?
    ensures MakeSaveCommand(request, service.GetServiceContext()) ==
      Ok(SaveFileCommand(request.path, request.filename, request.userId, service.dbHandle))
  {
  }

  /** `DBService.name` */
  const NAME: string := "DBService"

  /** The `DBResponse` of `respond_success`: the saved model carries the new id and the requesting user. */
  function SuccessResponse(request: Message, result: int): (m: Message)
    requires request.DBRequest?
    ensures m.DBResponse? && m.success && m.error.None?
    ensures m.savedModel == Some(MobiusModel(result, request.userId))
  {
    DBResponse(true, Some(MobiusModel(result, request.userId)), None)
  }

  /** The `DBResponse` of `respond_error`: `str(error)` and no model. */
  function ErrorResponse(error: string): (m: Message)
    ensures m.DBResponse? && !m.success && m.savedModel.None? && m.error == Some(error)
  {
    DBResponse(false, None, Some(error))
  }

  /** A reply tells success from failure by its flag alone, and only a success carries a model. */
  lemma RepliesDistinguished(request: Message, result: int, error: string)
    requires request.DBRequest?
    ensures SuccessResponse(request, result) != ErrorResponse(error)
    ensures SuccessResponse(request, result).savedModel.Some? && ErrorResponse(error).savedModel.None?
  {
  }

  class DBService {
    const dbHandle: DbHandle
    /** `_new_file_rep.reply(envelope, response)`, in order. */
    var replies: seq<(seq<Frame>, Message)>

    constructor(dbHandle: DbHandle)
      ensures this.dbHandle == dbHandle && replies == []
    {
      this.dbHandle := dbHandle;
      replies := [];
    }

    /** `get_service_context()`: exactly one key, `db_handle`, holding the service's handle. */
    function GetServiceContext(): (ctx: seq<(string, DbHandle)>)
      ensures DistinctKeys(ctx) && Keys(ctx) == ["db_handle"] && Lookup(ctx, "db_handle") == Some(dbHandle)
    {
      [("db_handle", dbHandle)]
    }

    /** `respond_success(envelope, request, result)`: one reply, on the given envelope. */
    method RespondSuccess(envelope: seq<Frame>, request: Message, result: int)
      requires request.DBRequest?
      modifies this
      ensures replies == old(replies) + [(envelope, SuccessResponse(request, result))]
    {
      replies := replies + [(envelope, DBResponse(true, Some(MobiusModel(result, request.userId)), None))];
    }

    /** `respond_error(envelope, request, error)`: one reply, on the given envelope. */
    method RespondError(envelope: seq<Frame>, request: Message, error: string)
      modifies this
      ensures replies == old(replies) + [(envelope, ErrorResponse(error))]
    {
      replies := replies + [(envelope, DBResponse(false, None, Some(error)))];
    }
  }
}

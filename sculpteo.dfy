/**
 * The Sculpteo service's request dispatch (`mobius/service/sculpteo.py`): a
 * work request names one of three workers; the service submits it to its
 * executor, remembers the request under the returned future, and once the
 * future is done schedules a continuation on its loop that replies with the
 * result or the error and forgets the request.
 *
 * The executor and the loop are not run: a future is a handle the service
 * allocates, `submitted` records what was handed to the executor, `scheduled`
 * the continuations waiting on the loop, and `replies` what was published on
 * `/request/result`.
 */
module Sculpteo {
  import opened Wrappers
  import opened Messages
  import opened Json

  /** `Sculpteo.NAME` */
  const NAME: string := "SCULPTEO"

  /** The three worker functions of `WORKERS`. */
  datatype Worker = GetQuote | UploadFile | TestModel

  /** `WORKERS[request.type]`: None is the `KeyError` of an unknown type. */
  function WorkerFor(kind: RequestKind): (w: Option<Worker>)
    ensures w.Some? <==> !kind.OtherKind?
  {
    match kind
    case Quote => Some(GetQuote)
    case Upload => Some(UploadFile)
    case Test => Some(TestModel)
    case OtherKind(_) => None
  }

  /** A future returned by the executor. */
  type Handle = nat

  /** The triple stored under a future: the two envelope frames as received, then the request. */
  datatype Job = Job(frame0: Frame, frame1: Frame, request: Message)

  /** How a future ended, as `future.result(timeout=0)` reports it. */
  datatype WorkResult = Completed(value: string) | Cancelled | Failed(message: string)

  /** Why `process_request` raised instead of submitting work. */
  datatype DispatchError =
    | WrongFrameCount          // the unpack of `msgs` into three names
    | NotAProviderRequest      // `request.type` on a raw frame, then `_respond_error(request)` with too few arguments
    | UnknownRequestType       // `KeyError`, then `log.exception()` with no message

  datatype Dispatch = Submitted(handle: Handle) | Raised(error: DispatchError)

  /** `json.dumps({"error": str(error)})` */
  function ErrorJson(error: string): (r: string)
    ensures Loads(r) == Ok(JObject([("error", JString(error))]))
  {
    var v := JObject([("error", JString(error))]);
    LoadsDumps(v);
    Dumps(v)
  }

  /** `str(error)` of what `future.result` raised; a bare `CancelledError()` prints as the empty string. */
  function ErrorText(r: WorkResult): (t: string)
    requires !r.Completed?
    ensures r.Failed? ==> t == r.message
    ensures r.Cancelled? ==> t == []
  {
    if r.Cancelled? then "" else r.message
  }

  /** The `Response` of `_respond_success`. */
  function SuccessResponse(result: string): (m: Message)
    ensures m.Response? && m.serviceName == NAME && m.response == Some(result) && m.error.None?
  {
    Response(NAME, Some(result), None)
  }

  /** The `Response` of `_respond_error`: its error field is a JSON object whose one member is the error text. */
  function ErrorResponse(error: string): (m: Message)
    ensures m.Response? && m.serviceName == NAME && m.response.None? && m.error.Some?
    ensures Loads(m.error.value) == Ok(JObject([("error", JString(error))]))
  {
    Response(NAME, None, Some(ErrorJson(error)))
  }

  /**
   * The envelope of a reply: `_respond_*` unpack the stored triple as
   * (server_id, request_id, request) and reply on [server_id, request_id].
   */
  function ReplyEnvelope(job: Job): (env: seq<Frame>)
    ensures |env| == 2 && env[0] == job.frame0 && env[1] == job.frame1
  {
    [job.frame0, job.frame1]
  }

  /** The triple `process_request` stores: `(request_id, server_id, request)` unpacked from the frames. */
  function JobOf(msgs: seq<Frame>): (job: Job)
    requires |msgs| == 3 && msgs[2].Decoded?
    ensures ReplyEnvelope(job) == msgs[..2]
    ensures job.request == msgs[2].msg
  {
    Job(msgs[0], msgs[1], msgs[2].msg)
  }

  /** The reply `finish_up` publishes for a job and the way its future ended. */
  function FinishReply(job: Job, result: WorkResult): (reply: (seq<Frame>, Message))
    ensures reply.0 == ReplyEnvelope(job)
    ensures result.Completed? ==> reply.1 == SuccessResponse(result.value)
    ensures !result.Completed? ==> reply.1 == ErrorResponse(ErrorText(result))
  {
    (ReplyEnvelope(job), if result.Completed? then SuccessResponse(result.value) else ErrorResponse(ErrorText(result)))
  }

  /** The two swapped unpacks cancel out: a reply goes back on the first two frames, in the order received. */
  lemma EnvelopeOrderPreserved(msgs: seq<Frame>)
    requires |msgs| == 3 && msgs[2].Decoded?
    ensures ReplyEnvelope(JobOf(msgs)) == msgs[..2]
  {
  }

  /** Every request type of the service has a worker, and no other type has one. */
  lemma WorkersTable()
    ensures WorkerFor(Quote) == Some(GetQuote)
    ensures WorkerFor(Upload) == Some(UploadFile)
    ensures WorkerFor(Test) == Some(TestModel)
    ensures forall c :: WorkerFor(OtherKind(c)) == None
  {
  }

  /** An error reply carries the error text and nothing else, whatever the error was. */
  lemma ErrorReplyCarriesText(job: Job, message: string)
    ensures var reply := FinishReply(job, Failed(message));
      reply.1.response.None? && Loads(reply.1.error.value) == Ok(JObject([("error", JString(message))]))
    ensures var reply := FinishReply(job, Cancelled);
      Loads(reply.1.error.value) == Ok(JObject([("error", JString(""))]))
  {
  }

  class SculpteoService {
    /** `_futures`: the job of every future that has not been finished up. */
    var futures: map<Handle, Job>
    /** The next future the executor returns; every one it returned is below it. */
    var nextHandle: Handle
    /** `executor.submit(worker, request.model.id)`, in order. */
    var submitted: seq<(Handle, Worker, int)>
    /** The `finish_up` continuations added to the loop and not run yet, each with the job it captured. */
    var scheduled: seq<(Handle, Job)>
    /** `_work_result.reply(envelope, response)`, in order. */
    var replies: seq<(seq<Frame>, Message)>

    predicate ScheduledFor(h: Handle)
      reads this
    {
      exists i :: 0 <= i < |scheduled| && scheduled[i].0 == h
    }

    /**
     * Futures are fresh; a waiting continuation belongs to a future still in
     * the table and carries its job; no future has two continuations.
     */
    predicate Valid()
      reads this
    {
      (forall h :: h in futures ==> h < nextHandle) &&
      (forall i :: 0 <= i < |scheduled| ==> scheduled[i].0 in futures && futures[scheduled[i].0] == scheduled[i].1) &&
      (forall i, j :: 0 <= i < j < |scheduled| ==> scheduled[i].0 != scheduled[j].0)
    }

    constructor()
      ensures Valid()
      ensures futures == map[] && submitted == [] && scheduled == [] && replies == []
    {
      futures := map[];
      nextHandle := 0;
      submitted := [];
      scheduled := [];
      replies := [];
    }

    /**
     * `process_request(msgs)`. A known request type gets exactly one new entry,
     * under a fresh future, holding the frames as received; every failure leaves
     * the table unchanged and sends nothing.
     */
    method ProcessRequest(msgs: seq<Frame>) returns (d: Dispatch)
      requires Valid()
      modifies this
      ensures Valid()
      ensures d.Raised? <==>
        |msgs| != 3 || !(msgs[2].Decoded? && msgs[2].msg.ProviderRequest?) || msgs[2].msg.kind.OtherKind?
      ensures d.Raised? ==> futures == old(futures) && submitted == old(submitted) && nextHandle == old(nextHandle)
      ensures d.Raised? && |msgs| != 3 ==> d.error == WrongFrameCount
      ensures d.Raised? && |msgs| == 3 && !(msgs[2].Decoded? && msgs[2].msg.ProviderRequest?) ==> d.error == NotAProviderRequest
      ensures d.Raised? && |msgs| == 3 && msgs[2].Decoded? && msgs[2].msg.ProviderRequest? ==> d.error == UnknownRequestType
      ensures d.Submitted? ==>
        d.handle !in old(futures) && futures == old(futures)[d.handle := JobOf(msgs)] &&
        submitted == old(submitted) + [(d.handle, WorkerFor(msgs[2].msg.kind).value, msgs[2].msg.model.id)]
      ensures scheduled == old(scheduled) && replies == old(replies)
    {
      if |msgs| != 3 {
        return Raised(WrongFrameCount);
      }
      var request := msgs[2];
      if !(request.Decoded? && request.msg.ProviderRequest?) {
        return Raised(NotAProviderRequest);
      }
      var worker := WorkerFor(request.msg.kind);
      if worker.None? {
        return Raised(UnknownRequestType);
      }
      var future := nextHandle;
      nextHandle := nextHandle + 1;
      submitted := submitted + [(future, worker.value, request.msg.model.id)];
      futures := futures[future := Job(msgs[0], msgs[1], request.msg)];
      return Submitted(future);
    }

    /**
     * `_finish_request(future)`, run once when the future is done: it reads the
     * job (a `KeyError` for an unknown future) and schedules `finish_up`; it
     * sends nothing and changes no entry.
     */
    method FinishRequest(h: Handle) returns (r: Result<(), ()>)
      requires Valid() && !ScheduledFor(h)
      modifies this
      ensures Valid()
      ensures r.Ok? <==> h in futures
      ensures r.Ok? ==> scheduled == old(scheduled) + [(h, futures[h])]
      ensures r.Err? ==> scheduled == old(scheduled)
      ensures futures == old(futures) && replies == old(replies)
      ensures submitted == old(submitted) && nextHandle == old(nextHandle)
    {
      if h !in futures {
        return Err(());
      }
      scheduled := scheduled + [(h, futures[h])];
      return Ok(());
    }

    /**
     * The loop runs the oldest `finish_up`: it replies on the stored envelope,
     * with the result or the error, and pops the entry, which is always there.
     */
    method FinishUp(result: WorkResult)
      requires Valid() && scheduled != []
      modifies this
      ensures Valid()
      ensures var (h, job) := old(scheduled[0]);
        h in old(futures) && futures == old(futures) - {h} &&
        replies == old(replies) + [FinishReply(job, result)]
      ensures scheduled == old(scheduled[1..])
      ensures submitted == old(submitted) && nextHandle == old(nextHandle)
    {
      var (h, job) := scheduled[0];
      scheduled := scheduled[1..];
      replies := replies + [FinishReply(job, result)];
      futures := futures - {h};
      assert forall i :: 0 <= i < |scheduled| ==> scheduled[i] == old(scheduled)[i + 1];
    }
  }
}

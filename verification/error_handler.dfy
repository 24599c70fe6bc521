/** The top-level error handler. It does not return after a reply, so one
    error can reach several `reply.status(…).send(…)` calls; the framework
    honours only one of them. `Replies` lists every send in order and
    `FirstReply` is the first of them. */
module ErrorHandler {
  import opened Errors
  import Tables
  import Storage

  /** The `message` field of a reply body: a text, or the validation report
      itself. */
  datatype Message = Text(text: string) | Report(issues: seq<string>)

  /** One `reply.status(status).send({ message, data? })`. */
  datatype Reply = Reply(status: int, message: Message, data: Option<Data>)

  const QueryFailed: string := "Something went wrong."
  const Fallback: string := "something went wrong"

  /** The reply chosen from the database error under a failed query. */
  function DatabaseReply(queryMessage: string, cause: PgCause): (reply: Reply)
    ensures reply.data.None?
    ensures cause.code == "23505" <==> reply.status == 409
    ensures cause.code == "22007" <==> reply.status == 400
    ensures reply.status == 409 ==> reply.message == Text(cause.detail)
    ensures reply.status == 400 ==> reply.message == Text(queryMessage)
    ensures reply.status != 409 && reply.status != 400 ==> reply.status == 500 && reply.message == Text(cause.message)
  {
    if cause.code == "23505" then Reply(409, Text(cause.detail), None)
    else if cause.code == "22007" then Reply(400, Text(queryMessage), None)
    else Reply(500, Text(cause.message), None)
  }

  /** `err.statusCode` as the last branch reads it. */
  function DeclaredStatus(err: Fault): Option<int>
  {
    match err
    case Custom(k, _, _) => Some(StatusCode(k))
    case Validation(status, _, _) => status
    case DrizzleQuery(_, _) => None
    case Other(status, _) => status
  }

  /** The reply every error reaches at the end: the declared status or 500,
      and the message unless it is empty. */
  function FinalReply(err: Fault): (reply: Reply)
    ensures reply.data.None? && reply.message.Text? && reply.message.text != ""
    ensures DeclaredStatus(err).None? ==> reply.status == 500
    ensures DeclaredStatus(err).Some? ==> reply.status == DeclaredStatus(err).value
    ensures err.message != "" ==> reply.message == Text(err.message)
    ensures err.message == "" ==> reply.message == Text(Fallback)
  {
    Reply(DeclaredStatus(err).GetOr(500), Text(if err.message == "" then Fallback else err.message), None)
  }

  /** Every send the handler makes for `err`, in order: one per branch whose
      test holds, then the final one. */
  function Replies(err: Fault): (sends: seq<Reply>)
    ensures |sends| >= 1 && sends[|sends| - 1] == FinalReply(err)
    ensures err.Other? <==> |sends| == 1
    ensures err.DrizzleQuery? && err.cause.Some? <==> |sends| == 3
    ensures err.DrizzleQuery? ==> sends[|sends| - 2] == Reply(500, Text(QueryFailed), None)
  {
    match err
    case Validation(status, _, issues) => [Reply(status.GetOr(400), Report(issues), None), FinalReply(err)]
    case Custom(k, message, data) => [Reply(StatusCode(k), Text(message), data), FinalReply(err)]
    case DrizzleQuery(message, cause) =>
      (if cause.Some? then [DatabaseReply(message, cause.value)] else [])
      + [Reply(500, Text(QueryFailed), None), FinalReply(err)]
    case Other(_, _) => [FinalReply(err)]
  }

  /** The first send the handler attempts for an error. */
  function FirstReply(err: Fault): Reply
  {
    Replies(err)[0]
  }

  /** A custom error answers with its class's status, its own message and
      its data; the status is a server error exactly for the server-side
      kinds. */
  lemma CustomReply(k: CustomKind, message: Option<string>, data: Option<Data>)
    requires k in {BadRequest, Duplicated} ==> message.Some?
    ensures var e := NewError(k, message, data);
      var reply := FirstReply(e);
      && reply.status == StatusCode(k)
      && 400 <= reply.status < 600
      && (reply.status >= 500 <==> k in {Unknown, NotImplemented, ServiceUnavailable})
      && reply.message == Text(e.message)
      && (reply.data.Some? <==> KeepsData(k) && data.Some?)
  {
  }

  /** A duplicate key reported by the database answers 409 with the
      database's detail line naming the column and the value. */
  lemma DuplicateKeyReply(constraint: string, column: string, value: string)
    ensures FirstReply(Tables.UniqueViolation(constraint, column, value))
         == Reply(409, Text("Key (" + column + ")=(" + value + ") already exists."), None)
  {
  }

  /** A failed query without a database error behind it answers the generic
      500; one with a database error answers from that error, and the generic
      500 that follows is dropped. */
  lemma QueryErrorReply(message: string, cause: Option<PgCause>)
    ensures cause.None? ==> FirstReply(DrizzleQuery(message, cause)) == Reply(500, Text(QueryFailed), None)
    ensures cause.Some? ==> FirstReply(DrizzleQuery(message, cause)) == DatabaseReply(message, cause.value)
  {
  }

  /** A storage failure rethrown as a plain error answers 500 with the
      prefixed message. */
  lemma StorageFailureReply(prefix: string, error: string)
    requires prefix != ""
    ensures FirstReply(Storage.Rethrown(prefix, error)) == Reply(500, Text(prefix + error), None)
  {
  }

  /** A validation error answers with its report, under its own status or
      400; the text message it also carries never reaches the client. */
  lemma ValidationReply(status: Option<int>, message: string, issues: seq<string>)
    ensures FirstReply(Validation(status, message, issues)) == Reply(status.GetOr(400), Report(issues), None)
    ensures |Replies(Validation(status, message, issues))| == 2
  {
  }
}

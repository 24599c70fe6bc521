/** The server's error taxonomy. Each `CustomError` subclass becomes a
    `CustomKind` carrying its fixed HTTP status; any other thrown value is one
    of the remaining `Fault` variants, which is all the top-level error handler
    distinguishes. `Result` stands for "returns or throws". */
module Errors {

  datatype Option<T> = None | Some(value: T)
  {
    function GetOr(default: T): T
    {
      match this
      case Some(v) => v
      case None => default
    }
  }

  /** The `data` record a custom error may carry; its values are opaque. */
  type Data = map<string, string>

  /** The subclasses of `CustomError`. */
  datatype CustomKind =
    | BadRequest | Unauthorized | Forbidden | NotFound | Duplicated
    | Unknown | NotImplemented | ServiceUnavailable

  /** The `cause` of a query error when the driver reports a database error:
      the SQLSTATE code, the detail line and the message. */
  datatype PgCause = PgCause(code: string, detail: string, message: string)

  datatype Fault =
    /** An instance of a `CustomError` subclass. */
    | Custom(kind: CustomKind, message: string, data: Option<Data>)
    /** A request-validation error raised by the framework; `issues` is the
        validation report it carries. */
    | Validation(statusCode: Option<int>, message: string, issues: seq<string>)
    /** A failed ORM query, with the driver's database error when there is one. */
    | DrizzleQuery(message: string, cause: Option<PgCause>)
    /** Any other thrown `Error` (a plain `Error`, a `TypeError`, a storage
        client error). */
    | Other(statusCode: Option<int>, message: string)

  datatype Result<T> = Ok(value: T) | Err(error: Fault)

  /** The `statusCode` field each subclass declares. */
  function StatusCode(k: CustomKind): (status: int)
    ensures 400 <= status < 600
    ensures status >= 500 <==> k in {Unknown, NotImplemented, ServiceUnavailable}
  {
    match k
    case BadRequest => 400
    case Unauthorized => 401
    case Forbidden => 403
    case NotFound => 404
    case Duplicated => 409
    case Unknown => 500
    case NotImplemented => 501
    case ServiceUnavailable => 503
  }

  /** The message a constructor uses when it is given none. `BadRequest` and
      `Duplicated` have no default: their constructors require a message. */
  function DefaultMessage(k: CustomKind): string
  {
    match k
    case BadRequest => ""
    case Duplicated => ""
    case Unauthorized => "Unauthorized"
    case Forbidden => "Access denied: You do not have the necessary permissions to perform this action."
    case NotFound => "the resource requested is not found"
    case Unknown => "unknown error"
    case NotImplemented => "this api is not implemented yet."
    case ServiceUnavailable => "Service unavailable"
  }

  /** Only `BadRequest` and `Unauthorized` pass a `data` record on to the base
      class; the other constructors take none. */
  predicate KeepsData(k: CustomKind) { k == BadRequest || k == Unauthorized }

  /** `new <Kind>(message, data)`: the constructed error. */
  function NewError(k: CustomKind, message: Option<string>, data: Option<Data>): (e: Fault)
    requires k in {BadRequest, Duplicated} ==> message.Some?
    ensures e.Custom? && e.kind == k
    ensures k != Unknown ==> e.message == message.GetOr(DefaultMessage(k))
    ensures k == Unknown ==> e.message == "Error: " + message.GetOr(DefaultMessage(k))
    ensures e.data.Some? <==> KeepsData(k) && data.Some?
  {
    var m := message.GetOr(DefaultMessage(k));
    Custom(k, if k == Unknown then "Error: " + m else m, if KeepsData(k) then data else None)
  }
}

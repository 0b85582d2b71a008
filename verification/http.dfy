/**
 * What the route handlers share: the fields of a JSON request body, the
 * JavaScript truthiness the handlers test them with, the error replies, and
 * the pair (reply, database after the request) every handler produces.
 */
module Http {
  import opened Wrappers
  import opened Store

  /** A text field of a request body: missing (`undefined`), `null`, or a string. */
  datatype Field = Absent | Null | Text(value: string)

  /** `!f`: undefined, null and the empty string are falsy. */
  predicate Falsy(f: Field) {
    f.Absent? || f.Null? || f == Text("")
  }

  /** `f || d` */
  function OrElse(f: Field, d: string): (r: string)
    ensures Falsy(f) ==> r == d
    ensures !Falsy(f) ==> f == Text(r) && r != ""
  {
    if Falsy(f) then d else f.value
  }

  /** `f || null` */
  function OrNull(f: Field): (r: Option<string>)
    ensures r.None? <==> Falsy(f)
    ensures r.Some? ==> f == Text(r.value)
  {
    if Falsy(f) then None else Some(f.value)
  }

  /**
   * `f !== undefined ? f : existing`: only a missing field keeps the old
   * value; `null` and `''` are written as given.
   */
  function Patch(f: Field, existing: Option<string>): (r: Option<string>)
    ensures f.Absent? ==> r == existing
    ensures f.Null? ==> r == None
    ensures f.Text? ==> r == Some(f.value)
  {
    match f
    case Absent => existing
    case Null => None
    case Text(s) => Some(s)
  }

  /** The error replies of the routes, each with its `{ error }` body left out. */
  datatype Failure =
    | NotFound
    | BadRequest
    | Unconfigured
    | GeneratorFailed
    | StatementFailed(cause: DbError)

  /** The HTTP status each failure is sent with; a thrown statement error becomes 500. */
  function HttpStatus(f: Failure): (code: int)
    ensures code == 404 <==> f.NotFound?
    ensures code == 400 <==> f.BadRequest?
    ensures code == 422 <==> f.Unconfigured?
    ensures code == 500 <==> f.GeneratorFailed? || f.StatementFailed?
  {
    match f
    case NotFound => 404
    case BadRequest => 400
    case Unconfigured => 422
    case GeneratorFailed => 500
    case StatementFailed(_) => 500
  }

  /** A handler's reply together with the database it leaves behind. */
  datatype Reply<T> = Reply(result: Result<T, Failure>, db: Db)
}

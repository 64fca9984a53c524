/** Shared vocabulary of every name and file-tree iteration: optional values,
    results that carry an exception instead of throwing it, the exception
    taxonomy with its trigger chain, the two fixed characters of a name, and a
    mutable string array that several objects can share. */
module Common {

  /** The default delimiter of every name iteration (adap-b01/names/Name.ts:3). */
  const DEFAULT_DELIMITER: char := '.'

  /** The escape character (adap-b01/names/Name.ts:4). */
  const ESCAPE_CHARACTER: char := '\\'

  datatype Option<+T> = None | Some(value: T)

  /** The four exception classes of the repository, plus the plain JavaScript
      `Error` that some index checks throw. */
  datatype ExceptionKind =
    | IllegalArgument
    | InvalidState
    | MethodFailed
    | ServiceFailure
    | PlainError

  /** An exception with the optional exception that triggered it. */
  datatype Exception = Exception(kind: ExceptionKind, trigger: Option<Exception>)

  /** The value of an operation that either returns or throws. */
  datatype Result<+T> = Ok(value: T) | Err(error: Exception)

  /** The outcome of an operation that returns nothing or throws. */
  datatype Outcome = Pass | Fail(error: Exception)

  /** An exception raised by a check, with no trigger. */
  function Raise(kind: ExceptionKind): (e: Exception)
    ensures e.kind == kind && e.trigger.None?
  {
    Exception(kind, None)
  }

  /** `X.assert(cond, msg)`: throws an `X` exactly when `cond` is false. */
  function Check(cond: bool, kind: ExceptionKind): (r: Outcome)
    ensures r.Pass? <==> cond
    ensures r.Fail? ==> r.error == Raise(kind)
  {
    if cond then Pass else Fail(Raise(kind))
  }

  /** The cause a ServiceFailure carries when it wraps `ex`: the trigger of
      `ex` if it has one, otherwise `ex` itself. */
  function Cause(ex: Exception): (c: Exception)
    ensures ex.trigger.Some? ==> c == ex.trigger.value
    ensures ex.trigger.None? ==> c == ex
  {
    match ex.trigger
    case Some(t) => t
    case None => ex
  }

  /** `new ServiceFailureException("Service failed", cause)` built from a caught exception. */
  function WrapAsServiceFailure(ex: Exception): (e: Exception)
    ensures e.kind == ServiceFailure
    ensures e.trigger == Some(Cause(ex))
  {
    Exception(ServiceFailure, Some(Cause(ex)))
  }

  /** A snapshot of another name as `concat` reads it: its delimiter and its components. */
  datatype NameView = NameView(delimiter: char, components: seq<string>)

  /** A JavaScript `string[]`: a mutable list that several names (and the
      caller) may reference at once. */
  class StringList {
    var items: seq<string>

    constructor (items: seq<string>)
      ensures this.items == items
    {
      this.items := items;
    }
  }
}

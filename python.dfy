/** How the backend's Python code fails: the exceptions it raises, and an
    outcome type that either carries a value or the exception in flight. */
module Python {

  /** An exception in flight. `HTTPException` is FastAPI's, turned into a
      reply with that status and `{"detail": detail}`; `ValidationError` is
      what pydantic raises when a model rejects its input; `Fault` stands for
      every other exception (TypeError, AttributeError, ValueError, ...),
      which FastAPI answers with status 500 when nothing catches it. */
  datatype Exc =
    | HTTPException(status: int, detail: string)
    | ValidationError(message: string)
    | Fault

  /** The result of running a piece of Python: a value, or a raised exception. */
  datatype Outcome<+T> = Ok(value: T) | Raised(exc: Exc) {

    predicate IsFailure() {
      Raised?
    }

    function PropagateFailure<U>(): Outcome<U>
      requires Raised?
    {
      Raised(exc)
    }

    function Extract(): T
      requires Ok?
    {
      value
    }
  }

  /** The status FastAPI answers with when `e` escapes a route handler. */
  function StatusOf(e: Exc): (s: int)
    ensures e.HTTPException? ==> s == e.status
    ensures !e.HTTPException? ==> s == 500
  {
    match e
    case HTTPException(status, _) => status
    case _ => 500
  }
}

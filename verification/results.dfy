/** Failure-carrying values shared by the whole model: the client's
    `WebCallResult` is either data or an `Error`, and an argument guard
    either lets a call through or stops it with an `ArgumentException`. */
module Results {

  datatype Option<+T> = None | Some(value: T) {
    function GetOr(default: T): T {
      match this
      case Some(v) => v
      case None => default
    }
  }

  /** The errors the client can hand back to its caller. */
  datatype Error =
    /** The error the underlying HTTP call already carried (transport
        failure, non-success status, unparsable body). */
    | CallError(cause: string)
    /** A version-2 envelope whose `code` is not 200. */
    | ServerCodeError(status: int, text: string)
    /** A basic envelope whose `err-code` is present. */
    | ServerError(errCode: string, errMessage: Option<string>)
    /** A basic envelope unwrapped together with its timestamp: code and
        message joined into one text. */
    | ServerMessageError(detail: string)
    /** An `ArgumentError` the client returns as the call's result: the
        caller receives a failed `WebCallResult`. */
    | ArgumentError(reason: string)
    /** An `ArgumentException` the client throws: no result is returned,
        the exception escapes to the caller. */
    | ArgumentException(message: string)
    /** A `NullReferenceException` the client throws when it reads through
        a null it did not check for; it too escapes to the caller. */
    | NullReference(site: string)

  datatype Result<+T> = Ok(value: T) | Err(error: Error) {
    predicate IsFailure() {
      Err?
    }

    function PropagateFailure<U>(): Result<U>
      requires Err?
    {
      Err(error)
    }

    function Extract(): T
      requires Ok?
    {
      value
    }
  }

  /** The outcome of an argument check: no value, possibly an error. */
  datatype Outcome = Pass | Fail(error: Error)
}

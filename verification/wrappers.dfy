/** Failure-compatible wrappers shared by every module of the model:
    `Option` stands for Python's `None`-or-value, `Result` for a value or
    an HTTP error the service would raise. */
module Wrappers {

  datatype Option<+T> = None | Some(value: T) {

    /** The wrapped value, or `default` when there is none (Python's `d.get(k, default)`). */
    function GetOr(default: T): T {
      match this
      case Some(v) => v
      case None => default
    }
  }

  /** An `HTTPException`: status code and detail message. */
  datatype HttpError = HttpError(code: nat, detail: string)

  datatype Result<+T> = Ok(value: T) | Err(error: HttpError) {

    predicate IsFailure() {
      Err?
    }

    function PropagateFailure<U>(): Result<U>
      requires Err?
    {
      Err(error)
    }

    function Extract(): T
      requires Ok?
    {
      value
    }
  }
}

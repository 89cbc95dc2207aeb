/** Failure-compatible result types and the exception kinds the tagger raises. */
module Wrappers {

  /** A value that may be absent: Python's `None` or a missing dictionary key. */
  datatype Option<+T> = None | Some(value: T) {
    function GetOr(default: T): T {
      match this
      case Some(v) => v
      case None => default
    }
  }

  /** The Python exception classes the modelled code raises or lets escape. */
  datatype Error =
    | ValueError
    | KeyError
    | TypeError
    | NotImplementedError
    | InvalidInputError
    | FileNotFoundError
    | ZeroDivisionError
    | AttributeError

  /** Either the value a call returns or the exception it raises. */
  datatype Result<+T> = Success(value: T) | Failure(error: Error) {
    predicate IsFailure() {
      Failure?
    }

    function PropagateFailure<U>(): Result<U>
      requires Failure?
    {
      Failure(error)
    }

    function Extract(): T
      requires Success?
    {
      value
    }
  }

  /** The outcome of a call that returns nothing useful but may raise. */
  datatype Outcome = Pass | Fail(error: Error)
}

/** Failure-carrying result types used for the Python exceptions of the model. */
module Wrappers {

  /** An attribute that may or may not be present on a Python object. */
  datatype Option<+T> = None | Some(value: T) {
    function GetOr(default: T): T {
      match this
      case Some(v) => v
      case None => default
    }
  }

  /** A computed value, or the exception that stopped the computation. */
  datatype Result<+T, +E> = Success(value: T) | Failure(error: E)

  /** The outcome of a coroutine that returns None: it completes or it raises. */
  datatype Outcome<+E> = Pass | Fail(error: E)
}

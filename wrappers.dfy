/** Failure-compatible helper datatypes shared by the other modules. */
module Wrappers {

  /** A value that may be absent: Python's `None` versus a present value. */
  datatype Option<+T> = None | Some(value: T) {
    function GetOr(default: T): T {
      match this
      case Some(v) => v
      case None => default
    }
  }

  /** The outcome of an operation that changes state and may fail with an error `E`. */
  datatype Outcome<+E> = Pass | Fail(error: E)

  /** The result of a computation that may fail with an error `E`. */
  datatype Result<+T, +E> = Ok(value: T) | Err(error: E)
}

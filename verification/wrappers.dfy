/** The `Option` and `Result` datatypes used across the model. */
module Wrappers {

  /** A value that may be missing: JavaScript's `undefined` for an absent field. */
  datatype Option<+T> = None | Some(value: T) {
    function GetOr(default: T): T {
      match this
      case Some(v) => v
      case None => default
    }
  }

  /** The outcome of an operation that either produces a value or raises an error. */
  datatype Result<+T, +E> = Success(value: T) | Failure(error: E)
}

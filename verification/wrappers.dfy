/** Failure-compatible wrappers shared by the other modules. */
module Wrappers {

  /** A value that may be absent: `null`/`undefined` in the JavaScript original. */
  datatype Option<+T> = None | Some(value: T)

  /** A computation that either produces a value or throws an error. */
  datatype Result<+T, +E> = Success(value: T) | Failure(error: E)
}

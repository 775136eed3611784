/** Failure-carrying values used across the model: `undefined` and thrown errors. */
module Wrappers {

  /** A value that may be `undefined` in the JavaScript source. */
  datatype Option<+T> = None | Some(value: T)

  /** The outcome of an operation that either returns a value or ends the program. */
  datatype Result<+R, +E> = Success(value: R) | Failure(error: E)
}

/** Failure-carrying datatypes shared by the modules of this model. */
module Wrappers {

  /** A value that may be absent; Go's nil pointer or nil error. */
  datatype Option<+T> = None | Some(value: T)

  /** Success with a value, or failure with an error; Go's `(T, error)` pair. */
  datatype Result<+T, +E> = Success(value: T) | Failure(error: E)

  /** Success without a value, or failure with an error; a Go `error` return. */
  datatype Outcome<+E> = Pass | Fail(error: E)
}

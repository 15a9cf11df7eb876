/** Failure-compatible wrappers shared by the whole model. */
module Wrappers {

  /** A value that may be absent, as a nullable column or a missing JSON body. */
  datatype Option<+T> = None | Some(value: T)

  /** The outcome of an operation that either produces a value or fails with an error. */
  datatype Result<+T, +E> = Success(value: T) | Failure(error: E)
}

/** Failure-carrying values used throughout the model in place of C++ exceptions and NULL pointers. */
module Wrappers {

  datatype Option<+T> = None | Some(value: T)

  /** The outcome of an operation that returns a value or throws an exception with a message. */
  datatype Result<+R, +E> = Success(value: R) | Failure(error: E)
}

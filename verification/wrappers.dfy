/** Failure-compatible result types shared by the model. */
module Wrappers {

  /** A value that may be absent: a blank form field, a missing key, no match. */
  datatype Option<+T> = None | Some(value: T)

  /** The outcome of an operation that the application can refuse with a notice. */
  datatype Result<+R, +E> = Success(value: R) | Failure(error: E)
}

/** Option and Result datatypes used for absent values and error returns. */
module Wrappers {

  /** A value that may be absent; plays the role of Python's `None`. */
  datatype Option<+T> = None | Some(value: T)

  /** The outcome of an operation that may raise: a value or an error. */
  datatype Result<+R, +E> = Success(value: R) | Failure(error: E)
}

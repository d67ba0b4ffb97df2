/** Option and Result, the two failure-carrying datatypes the rest of the model uses. */
module Wrappers {

  datatype Option<+T> = None | Some(value: T)

  /** The outcome of an operation that either returns a value or raises. */
  datatype Result<+R, +E> = Success(value: R) | Failure(error: E)
}

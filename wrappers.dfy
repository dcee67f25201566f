/** Option and Result, the failure-carrying datatypes used throughout the model. */
module Wrappers {

  /** A Java reference that may be `null` (`None`). */
  datatype Option<+T> = None | Some(value: T)

  /** The outcome of a service call: a value, or the exception it throws. */
  datatype Result<+T, +E> = Success(value: T) | Failure(error: E)

  /** The outcome of a `void` service call: it returns, or throws. */
  datatype Outcome<+E> = Pass | Fail(error: E)
}

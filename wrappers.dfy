/** Option and Result: `null`-able values and thrown errors of the application. */
module Wrappers {

  /** A value that may be absent (`T | null` in the application). */
  datatype Option<+T> = None | Some(value: T)

  /** The outcome of an operation that either returns a value or throws. */
  datatype Result<+T, +E> = Success(value: T) | Failure(error: E)
}

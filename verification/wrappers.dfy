/** Option and result types used across the model. */
module Wrappers {

  /** A value that may be absent. */
  datatype Option<+T> = None | Some(value: T)

  /** Either a value or an error, for operations that return `(T, error)` in the source. */
  datatype Result<+T, +E> = Success(value: T) | Failure(error: E)

  /** Success or an error, for operations that return only `error` in the source. */
  datatype Outcome<+E> = Pass | Fail(error: E)
}

/** Optional values and results with an error, as used across the model. */
module Wrappers {

  /** A value that may be absent (`null` in the component). */
  datatype Option<+T> = None | Some(value: T)

  /** A computation that either succeeds or fails with an error value. */
  datatype Result<+R, +E> = Success(value: R) | Failure(error: E)
}

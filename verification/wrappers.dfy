/** Optional values and results with errors, shared by every module of the model. */
module Wrappers {

  /** A value that may be absent (Python's `None`). */
  datatype Option<+T> = None | Some(value: T)

  /** Either a value or the error an operation raised. */
  datatype Result<+T, +E> = Success(value: T) | Failure(error: E)
}

/** Optional values and results with an error, used for the error paths of the model. */
module Wrappers {

  /** A value that may be absent; `None` also stands for a Python call that raised. */
  datatype Option<+T> = None | Some(value: T)

  /** The outcome of an operation that either produces a value or fails with an error. */
  datatype Result<+T, +E> = Success(value: T) | Failure(error: E)
}

/** Optional values and results with an error, used for "no value" cells and load failures. */
module Wrappers {

  /** A value that may be absent; `None` is the explicit "no value" marker. */
  datatype Option<+T> = None | Some(value: T)

  /** The outcome of an operation that can fail with an error of type E. */
  datatype Result<+T, +E> = Success(value: T) | Failure(error: E)
}

/** Optional values and results with an error, as used throughout the model. */
module Wrappers {

  /** A JavaScript value that may be `null` (or `undefined`). */
  datatype Option<+T> = None | Some(value: T)

  /** The outcome of an operation whose JavaScript original may throw. */
  datatype Result<+R, +E> = Success(value: R) | Failure(error: E)
}

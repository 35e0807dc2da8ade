/** Optional values and results with an error, used throughout the model. */
module Wrappers {

  /** A value that may be absent: a JSON key that is missing or null, a row that does not exist. */
  datatype Option<+T> = None | Some(value: T)

  /** The outcome of a check that either yields a value or an error. */
  datatype Result<+R, +E> = Success(value: R) | Failure(error: E)
}

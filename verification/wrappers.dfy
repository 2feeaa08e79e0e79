/** Optional values and results with an error, standing in for Java's `null` and thrown exceptions. */
module Wrappers {

  /** A value that may be missing (a Java reference that may be `null`). */
  datatype Option<+T> = None | Some(value: T)

  /** The outcome of an operation that either returns a value or throws. */
  datatype Result<+T, +E> = Success(value: T) | Failure(error: E)
}

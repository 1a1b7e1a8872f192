/** Optional values and results with an error, used for the places where the
    Java code returns null or throws. */
module Wrappers {

  /** A value that may be absent (a Java null). */
  datatype Option<+T> = None | Some(value: T)

  /** The outcome of a step that may fail with an error describing why. */
  datatype Result<+R, +E> = Success(value: R) | Failure(error: E)
}

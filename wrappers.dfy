/** Option and Result: a Java reference that may be null, and a call that may throw. */
module Wrappers {

  /** A value that may be absent (a Java reference that may be null). */
  datatype Option<+T> = None | Some(value: T)

  /** The outcome of a call that either returns a value or throws with a message. */
  datatype Result<+R, +E> = Success(value: R) | Failure(error: E)
}

/** Failure-carrying values shared by the model: Java's nullable references
    become Option, and thrown exceptions become the Failure side of Result. */
module Wrappers {

  /** A value that may be missing (a Java `null`). */
  datatype Option<+T> = None | Some(value: T)

  /** Either a normal return value or the exception the call would throw. */
  datatype Result<+T, +E> = Success(value: T) | Failure(error: E)
}

/** Failure-carrying datatypes shared by the model: `Option` stands for a Java
    reference that may be null, `Result` for a call that either returns or
    throws one of the errors the source distinguishes. */
module Wrappers {

  /** A value that may be absent (Java `null`). */
  datatype Option<+T> = None | Some(value: T)

  /** The outcome of an operation that may fail with an error of type `E`. */
  datatype Result<+R, +E> = Success(value: R) | Failure(error: E)
}

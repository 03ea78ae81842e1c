/** Failure-compatible carriers: Java's null references and exceptions become these values. */
module Wrappers {

  /** A value that may be absent (a Java reference that may be null). */
  datatype Option<+T> = None | Some(value: T)

  /** A computed value, or the failure that stopped the computation. */
  datatype Result<+R, +E> = Success(value: R) | Failure(error: E)

  /** A check that passes or fails with an error (a void method that may throw). */
  datatype Outcome<+E> = Pass | Fail(error: E)
}

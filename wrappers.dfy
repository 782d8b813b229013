/** Option and Result values standing in for Java's null and thrown exceptions. */
module Wrappers {

  /** A Java reference that may be null. */
  datatype Option<+T> = None | Some(value: T)

  /** A call that returns a value, or throws an exception described by an `E`. */
  datatype Result<+T, +E> = Success(value: T) | Failure(error: E)

  /** A `void` call that returns normally (Pass) or throws an exception with a message (Fail). */
  datatype Outcome = Pass | Fail(error: string)
}

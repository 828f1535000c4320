/** Failure-carrying values used in place of the source's exceptions and null references. */
module Wrappers {

  /** A value that may be absent (a null reference in the source). */
  datatype Option<+T> = Nothing | Some(value: T)

  /** The value of an operation, or the exception it raised. */
  datatype Result<+T, +E> = Ok(value: T) | Err(error: E)

  /** Completion of an operation that returns nothing, or the exception it raised. */
  datatype Outcome<+E> = Pass | Fail(error: E)
}

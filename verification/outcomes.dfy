/**
 * Failure-carrying values shared by every part of the model: an `Option` for
 * lookups that may find nothing, and a `Result` for operations that the Java
 * code either completes or abandons by throwing.
 */
module Outcomes {

  /** A value that may be absent (the Java `Optional`). */
  datatype Option<+T> = None | Some(value: T)

  /** Either the value an operation produced or the error it threw instead. */
  datatype Result<+T, +E> = Success(value: T) | Failure(error: E)
}

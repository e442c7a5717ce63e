/** Failure-carrying return values: the model's stand-in for Python exceptions. */
module Wrappers {

  datatype Option<+T> = None | Some(value: T)

  datatype Result<+T, +E> = Ok(value: T) | Err(error: E)

  /** A check that either passes or fails with an error (a `raise` in the source). */
  datatype Outcome<+E> = Pass | Fail(error: E)
}

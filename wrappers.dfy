/** Option, Result and Outcome: the distinguished "no value" and error returns of the model. */
module Wrappers {

  /** A value or nothing: Python's `str` or `None`. */
  datatype Option<+T> = None | Some(value: T)

  /** A value, or the exception the source raises instead of returning one. */
  datatype Result<+T, +E> = Ok(value: T) | Err(error: E)

  /** Success with no value, or the exception the source raises. */
  datatype Outcome<+E> = Pass | Fail(error: E)
}

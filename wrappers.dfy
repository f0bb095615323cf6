/** Failure-carrying return values used in place of Python's `None` results and raised exceptions. */
module Wrappers {

  /** A value that may be absent (Python's `Optional[...]`). */
  datatype Option<+T> = None | Some(value: T)

  /** Either a value or the exception the operation raised. */
  datatype Result<+T, +E> = Ok(value: T) | Err(error: E)

  /** Either nothing happened or an exception was raised (a function returning `None`). */
  datatype Outcome<+E> = Pass | Fail(error: E)
}

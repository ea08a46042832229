/**
  Failure-carrying datatypes shared by the bundle and validator models.
  Python raises exceptions; here every operation returns one of these values
  and the exception class becomes an error tag.
*/
module Results {

  /** A value that may be absent (Python `None`). */
  datatype Option<+T> = None | Some(value: T)

  /** The outcome of an operation that produces a value or raises an error. */
  datatype Result<+T, +E> = Ok(value: T) | Err(error: E)

  /** The outcome of an operation that returns nothing or raises an error. */
  datatype Outcome<+E> = Pass | Fail(error: E)
}

/** Result types standing in for JavaScript's thrown errors. */
module Wrappers {

  datatype Option<+T> = None | Some(value: T)

  /** A computation that yields a value or fails with an error. */
  datatype Result<+T, +E> = Ok(value: T) | Err(error: E)

  /** A computation that yields nothing on success (an `async` function returning `undefined`). */
  datatype Outcome<+E> = Pass | Fail(error: E)
}

/** Result types standing for the Result and Option values of the program. */
module Outcomes {

  datatype Option<+T> = None | Some(value: T)

  /** A result that carries a value on success. */
  datatype Result<+T, +E> = Ok(value: T) | Err(error: E)

  /** A result that carries nothing on success. */
  datatype Outcome<+E> = Pass | Fail(error: E)
}

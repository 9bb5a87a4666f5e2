/** The two result types the other modules share. */
module Wrappers {

  datatype Option<+T> = None | Some(value: T)

  /** A value, or the exception the program would throw instead. */
  datatype Result<+T, +E> = Ok(value: T) | Err(error: E)
}

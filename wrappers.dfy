/** The small option and result types the rest of the model uses. */
module Wrappers {

  datatype Option<+T> = None | Some(value: T)

  /** Either a value or the error the source throws. */
  datatype Result<+T, +E> = Ok(value: T) | Err(error: E)
}

/** Option and Result values used for the source's `None` returns and raised exceptions. */
module Wrappers {

  datatype Option<+T> = None | Some(value: T)

  /** `Err` carries the message of the exception the source would raise. */
  datatype Result<+T> = Ok(value: T) | Err(error: string)
}

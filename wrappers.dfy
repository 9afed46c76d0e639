/** Option and Result, the failure-carrying values used across the model. */
module Wrappers {

  datatype Option<+T> = None | Some(value: T)

  /** `Err` carries the reason a Python statement raised (for a KeyError, the missing key). */
  datatype Result<+T> = Ok(value: T) | Err(error: string)
}

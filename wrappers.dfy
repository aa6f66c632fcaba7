/** Option and Result, used for the error paths and the "no value" cases of the tracker. */
module Wrappers {

  datatype Option<+T> = None | Some(value: T)

  datatype Result<+R, +E> = Ok(value: R) | Err(error: E)
}

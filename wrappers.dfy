/** Option and Result: the `undefined`/`null` values and the error returns of the system. */
module Wrappers {

  datatype Option<+T> = None | Some(value: T)

  datatype Result<+T, +E> = Ok(value: T) | Err(error: E)
}

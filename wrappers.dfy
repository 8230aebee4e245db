/** Option and Result, for look-ups that may miss and operations that may raise. */
module Wrappers {

  datatype Option<+T> = None | Some(value: T)

  /** `Err` carries the exception the source would raise. */
  datatype Result<+T, +E> = Ok(value: T) | Err(error: E)
}

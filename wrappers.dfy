/** Option and Result values standing in for JavaScript's `undefined` and for
    thrown errors. */
module Wrappers {

  datatype Option<+T> = None | Some(value: T)

  /** Either a value, or the error that the source would have thrown. */
  datatype Result<+T, +E> = Ok(value: T) | Err(error: E)
}

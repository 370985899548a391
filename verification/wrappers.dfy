/** Option and Result types shared by every module of the model. */
module Wrappers {

  /** A value that may be missing: JavaScript's `undefined`/`null`. */
  datatype Option<+T> = None | Some(value: T)

  /** Either a computed value or the error the source would throw. */
  datatype Result<+T, +E> = Ok(value: T) | Err(error: E)
}

/** Optional and fallible values shared by every module of the model. */
module Wrappers {

  /** A nullable value: `None` plays the part of SQL NULL and JavaScript `null`. */
  datatype Option<+T> = None | Some(value: T)

  /** The outcome of an operation that either yields a value or fails with an error. */
  datatype Result<+T, +E> = Ok(value: T) | Err(error: E)
}

/** Failure-carrying values shared by the model. */
module Wrappers {

  /** A value that may be absent; `None` models JavaScript's `null`. */
  datatype Option<+T> = None | Some(value: T)

  /** A value or the reason it could not be produced. */
  datatype Result<+T, +E> = Ok(value: T) | Err(error: E)
}

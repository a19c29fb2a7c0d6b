/** A value that may be missing, and a result that may be an error. */
module Wrappers {
  datatype Option<T> = None | Some(value: T)
  datatype Result<T, E> = Ok(value: T) | Err(error: E)
}

/** Option and Result, used wherever the source returns NULL, throws or dies. */
module Wrappers {
  datatype Option<T> = None | Some(value: T)

  datatype Result<T> = Ok(value: T) | Err(error: string)
}

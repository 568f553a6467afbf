/** Optional values and error-carrying results shared by the other modules. */
module Wrappers {

  datatype Option<+T> = None | Some(value: T)

  /** Either the value an operation produced or the reason it could not. */
  datatype Result<+T, +E> = Ok(value: T) | Err(error: E)
}

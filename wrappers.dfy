/** Optional values and results with an error, used for lookups that can miss
    and for handlers that answer either a value or an error. */
module Wrappers {

  datatype Option<+T> = None | Some(value: T)

  datatype Result<+T, +E> = Ok(value: T) | Err(error: E)
}

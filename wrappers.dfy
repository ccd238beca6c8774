/** Optional values and success-or-error results, used for nullable table cells,
    absent query arguments and the error paths of the request handlers. */
module Wrappers {

  datatype Option<+T> = None | Some(value: T)

  datatype Result<+T, +E> = Ok(value: T) | Err(error: E)
}

/** Optional values and error-or-value results, used where the plugin
    returns null or throws a validation exception. */
module Wrappers {

  datatype Option<+T> = None | Some(value: T)

  datatype Result<+T, +E> = Ok(value: T) | Err(error: E)
}

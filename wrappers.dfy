/** Optional values and success/failure results, used where the JavaScript
    source has `null`/`undefined` or an early error reply. */
module Wrappers {

  datatype Option<+T> = None | Some(value: T)

  datatype Result<+R, +E> = Success(value: R) | Failure(error: E)
}

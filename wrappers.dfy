/** Optional values and success-or-error results, used where the service
    returns nothing found or raises one of its errors. */
module Wrappers {

  datatype Option<+T> = None | Some(value: T)

  datatype Result<+R, +E> = Success(value: R) | Failure(error: E)
}

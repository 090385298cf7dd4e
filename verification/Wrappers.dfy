/** Optional values, and the results of functions that also return an error. */
module Wrappers {
  datatype Option<T> = None | Some(value: T)

  datatype Result<T> = Success(value: T) | Failure(reason: string)
}

/** Optional values and results with an error, used for lookups that may miss
    and for operations whose source raises instead of returning. */
module Wrappers {

  datatype Option<+T> = None | Some(value: T)

  datatype Result<+R, +E> = Success(value: R) | Failure(error: E)
}

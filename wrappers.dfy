/** Optional values and results with an error, for the values the dashboard
    may receive as `None` and for the lookups that raise a `KeyError`. */
module Wrappers {

  datatype Option<+T> = None | Some(value: T)

  datatype Result<+T, +E> = Success(value: T) | Failure(error: E)
}

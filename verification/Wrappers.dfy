/** Optional values and results of operations that may throw. */
module Wrappers {
  datatype Option<+T> = None | Some(value: T)

  datatype Result<+T, +E> = Success(value: T) | Failure(error: E)

  /** The value, or another one when there is none. */
  function GetOr<T>(o: Option<T>, other: T): T {
    if o.Some? then o.value else other
  }
}

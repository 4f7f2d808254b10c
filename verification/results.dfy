/** Optional values and error-carrying results, for lookups that can miss
    and conversions that can fail. */
module Results {

  datatype Option<+T> = None | Some(value: T)

  datatype Result<+T, +E> = Success(value: T) | Failure(error: E)
}

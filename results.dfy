/** Optional values and the success-or-error outcome of an operation that the
    source lets raise an exception. */
module Results {

  datatype Option<+T> = None | Some(value: T)

  datatype Result<+T, +E> = Success(value: T) | Failure(error: E)
}

/** Optional values (an absent JSON field or query parameter) and tagged outcomes
    (a handler's success value or its error category). */
module Results {

  datatype Option<+T> = None | Some(value: T)

  datatype Result<+T, +E> = Success(value: T) | Failure(error: E)
}

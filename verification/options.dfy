/** Optional values and success/failure results: the model's stand-ins for Java's
    `null` returns and thrown exceptions. */
module Options {

  datatype Option<T> = None | Some(value: T)

  datatype Result<T, E> = Success(value: T) | Failure(error: E)

}

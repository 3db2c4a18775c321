/** Optional values and results with an error, for the source's keyword
    arguments that default when omitted and for the exceptions it raises. */
module Wrappers {

  datatype Option<T> = None | Some(value: T)

  datatype Result<T, E> = Success(value: T) | Failure(error: E)
}

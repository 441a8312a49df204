/** Optional values and results with an error, as the modelled code uses them:
    `None` for Python's None, `Failure` for a raised exception. */
module Wrappers {

  datatype Option<+T> = None | Some(value: T)

  datatype Result<+T, +E> = Success(value: T) | Failure(error: E)
}

/** Optional values and results: the model's stand-ins for C# nullables and for
    operations that either return a value or throw. */
module Wrappers {

  datatype Option<+T> = None | Some(value: T)

  /** Either the value an operation returns, or the exception it throws. */
  datatype Result<+R, +E> = Success(value: R) | Failure(error: E)
}

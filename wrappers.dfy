/** Option and Result, used for lookups that may miss and for calls that may throw. */
module Wrappers {

  datatype Option<T> = None | Some(value: T)

  /** A call either produces a value or raises an error (a C++ exception in the source). */
  datatype Result<T, E> = Success(value: T) | Failure(error: E)
}

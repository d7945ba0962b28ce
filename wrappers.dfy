/** Optional values (a C# reference that may be null) and results that may carry an error. */
module Wrappers {

  /** `None` stands for a null reference. */
  datatype Option<+T> = None | Some(value: T)

  /** The outcome of an operation that either returns a value or raises an error. */
  datatype Result<+R, +E> = Success(value: R) | Failure(error: E)
}

/** Values that may be missing, and computations that may fail. */
module Wrappers {

  /** A value that may be missing; pandas writes a missing number as NaN. */
  datatype Option<T> = None | Some(value: T)

  /** The outcome of a step that either yields a value or raises an exception. */
  datatype Result<T> = Success(value: T) | Failure(error: string)
}

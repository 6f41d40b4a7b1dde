/** Option and Result, the two wrappers the model uses for values that may be
    missing (a JavaScript `null`) and for operations that may throw. */
module Wrappers {

  /** `None` stands for JavaScript's `null`. */
  datatype Option<+T> = None | Some(value: T)

  /** `Failure` stands for an exception that escapes the computation. */
  datatype Result<+R, +E> = Success(value: R) | Failure(error: E)
}

/** Option and Result values: the "no value" and "error" outcomes of the statistics pipeline. */
module Wrappers {

  /** A value that may be missing; None stands for JavaScript's NaN where a number was expected. */
  datatype Option<+T> = None | Some(value: T)

  /** Either the computed value or the error that stopped the computation. */
  datatype Result<+R, +E> = Success(value: R) | Failure(error: E)
}

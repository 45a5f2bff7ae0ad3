/** Optional values and results, standing for pandas' nullable cells and for raised exceptions. */
module Wrappers {

  /** A nullable value: `None` is pandas' `NA`/`NaN`. */
  datatype Option<+T> = None | Some(value: T)

  /** The outcome of an operation that may raise. */
  datatype Result<+R, +E> = Success(value: R) | Failure(error: E)
}

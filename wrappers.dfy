/** Option and Result values used for JavaScript's null and for handler outcomes. */
module Wrappers {

  /** `None` stands for JavaScript's `null` / `undefined`. */
  datatype Option<+T> = None | Some(value: T)

  /** The outcome of a route handler: the data it answers with, or an error code. */
  datatype Result<+R, +E> = Success(value: R) | Failure(error: E)
}

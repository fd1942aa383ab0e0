/** Option and Result: the "maybe a value" and "value or error" shapes used by the model. */
module Wrappers {

  /** `None` stands for JavaScript's NaN / undefined where the source tests for them. */
  datatype Option<+T> = None | Some(value: T)

  /** A computation that either yields a value or takes the promise's catch path. */
  datatype Result<+R, +E> = Success(value: R) | Failure(error: E)
}

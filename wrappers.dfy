/** Optional values and results with an error, for the model's partial steps. */
module Wrappers {

  /** A value that may be absent (JavaScript's `undefined`). */
  datatype Option<+T> = None | Some(value: T)

  /** The outcome of a computation that may fail with an error. */
  datatype Result<+R, +E> = Ok(value: R) | Err(error: E)
}

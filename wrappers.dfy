/** Optional values and results with an error, used across the model in place of
    JavaScript's null/undefined and thrown exceptions. */
module Wrappers {

  datatype Option<+T> = None | Some(value: T)

  datatype Result<+T, +E> = Ok(value: T) | Err(error: E)

  /** A byte of a Uint8Array. */
  type byte = b: int | 0 <= b < 256
}

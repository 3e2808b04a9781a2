/** Optional values and success-or-error results shared by the pipeline modules. */
module Wrappers {

  datatype Option<+T> = None | Some(value: T)

  /** A JavaScript promise that either resolves with a value or rejects with a reason. */
  datatype Result<+T, +E> = Ok(value: T) | Err(error: E)
}

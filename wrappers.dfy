/** Optional values and results with an error payload, as used throughout the model. */
module Wrappers {

  /** A Kotlin nullable value: `None` stands for `null`. */
  datatype Option<+T> = None | Some(value: T)

  /** The outcome of a constructor that checks its arguments with `require`. */
  datatype Result<+T, +E> = Ok(value: T) | Rejected(error: E)
}

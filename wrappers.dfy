/** Optional values (JavaScript's `undefined`/`null` versus a value) and
    results of a conversion that may throw. */
module Wrappers {

  datatype Option<+T> = None | Some(value: T)

  /** `Err` stands for an exception thrown by the converter. */
  datatype Result<+T, +E> = Ok(value: T) | Err(error: E)
}

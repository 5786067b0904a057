/** Optional values and results with an error, used wherever the source
    has an optional field, a `?? default` or a thrown exception. */
module Wrappers {

  datatype Option<T> = None | Some(value: T) {
    /** The value, or `default` when absent (JavaScript's `??`). */
    function GetOr(default: T): T {
      if Some? then value else default
    }
  }

  datatype Result<T, E> = Ok(value: T) | Err(error: E)

  /** An optional flag read as a JavaScript condition: only `true` is truthy. */
  predicate IsTrue(flag: Option<bool>) {
    flag == Some(true)
  }
}

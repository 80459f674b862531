/** Option and Result, used for nullable columns and for operations that raise. */
module Wrappers {

  datatype Option<+T> = None | Some(value: T) {

    /** The value, or `default` when there is none (Python's `getattr(obj, name, default)`). */
    function GetOr(default: T): T
    {
      match this
      case Some(v) => v
      case None => default
    }
  }

  /** An operation that either completes with a value or is refused with an error. */
  datatype Result<+T, +E> = Ok(value: T) | Err(error: E)
}

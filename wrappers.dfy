/** Optional values: the model's stand-in for JavaScript's null/undefined
    and for SQL NULL columns. */
module Wrappers {

  datatype Option<+T> = None | Some(value: T) {

    /** The value, or `default` when absent (JavaScript's `x || default` on
        a value that is never falsy except when absent). */
    function GetOr(default: T): T {
      match this
      case Some(v) => v
      case None => default
    }
  }
}

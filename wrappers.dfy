/** Optional values: JavaScript's `undefined` / missing property, and the
    "nothing found" result of searches. */
module Wrappers {

  datatype Option<+T> = None | Some(value: T) {

    /** The value if there is one, otherwise `default`. */
    function GetOr(default: T): T {
      match this
      case Some(v) => v
      case None => default
    }
  }
}

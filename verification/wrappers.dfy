/** Optional values: `undefined`/`null` in the application, a regex without a
    match, or an evaluation that produced no usable number. */
module Wrappers {

  datatype Option<+T> = None | Some(value: T) {

    /** The value, or `default` when there is none. */
    function GetOr(default: T): T {
      match this
      case Some(v) => v
      case None => default
    }
  }
}

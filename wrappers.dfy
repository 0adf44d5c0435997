/** The one failure-compatible type the model needs: a value that may be
    missing (JavaScript's `undefined`, `null` or `NaN`, depending on context). */
module Wrappers {

  datatype Option<+T> = None | Some(value: T) {

    /** The value, or `default` when there is none (JavaScript's `x || default`). */
    function GetOr(default: T): T {
      match this
      case Some(v) => v
      case None => default
    }
  }
}

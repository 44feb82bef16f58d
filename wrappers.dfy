/** Option: a value that may be missing (JavaScript's `undefined`, `null`
    or an absent property), and the JavaScript outcome of an expression
    that may throw a TypeError. */
module Wrappers {

  datatype Option<+T> = None | Some(value: T) {

    /** The value, or `default` when it is missing. */
    function GetOr(default: T): T {
      match this
      case Some(v) => v
      case None => default
    }
  }

  /** The result of an expression that throws a TypeError when it reads a
      property of `undefined`. */
  datatype Thrown<+T> = Returned(value: T) | TypeError
}

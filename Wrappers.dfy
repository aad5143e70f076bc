/** The optional value used for JavaScript's `undefined`/`NaN` outcomes. */
module Wrappers {

  datatype Option<+T> = None | Some(value: T) {

    /** The value inside `Some`, or `default` for `None` (JavaScript's `x || default`
        when `None` stands for a falsy value). */
    function GetOr(default: T): T {
      match this
      case Some(v) => v
      case None => default
    }
  }
}

/** A minimal optional value, used for JavaScript's `undefined` results. */
module Wrappers {

  /** `None` stands for an absent value (JavaScript `undefined` or a `null` key). */
  datatype Option<+T> = None | Some(value: T) {

    /** Returns the value in `Some`, or `default` for `None`. */
    function GetOr(default: T): T {
      match this
      case Some(v) => v
      case None => default
    }
  }
}

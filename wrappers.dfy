/**
 * Optional values. `Option` is a JavaScript value that is absent or present,
 * where `undefined` and `null` act alike; `Nullable` keeps the two apart.
 */
module Wrappers {

  datatype Option<+T> = None | Some(value: T) {

    /** The value, or `default` when absent: the `??` operator. */
    function GetOr(default: T): T {
      match this
      case Some(v) => v
      case None => default
    }
  }

  /** A JavaScript value that is `undefined`, `null` or present, where `===` tells the two absent ones apart. */
  datatype Nullable<+T> = Undefined | Null | Given(value: T) {

    /** The value, or `default` when `undefined` or `null`: the `??` operator. */
    function GetOr(default: T): T {
      match this
      case Given(v) => v
      case _ => default
    }
  }
}

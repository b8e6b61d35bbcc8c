/** The optional value used for nullable columns, `.first()` lookups and
    JavaScript's `parseInt`, whose `NaN` result is `None` here. */
module Wrappers {

  datatype Option<+T> = None | Some(value: T) {

    function GetOr(default: T): T {
      match this
      case Some(v) => v
      case None => default
    }
  }
}

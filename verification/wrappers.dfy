/** The optional values the model needs: an unset configuration key, an
    unwritten memento key, an undefined current theme, an unarmed timer. */
module Wrappers {

  datatype Option<+T> = None | Some(value: T) {

    /** The encapsulated value, or `default` when there is none: the
        `get(key, default)` read of a host store. */
    function GetOr(default: T): (r: T)
      ensures Some? ==> r == value
      ensures None? ==> r == default
    {
      match this
      case Some(v) => v
      case None => default
    }
  }
}

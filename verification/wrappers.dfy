/** A value that may be missing: the model's stand-in for an optional
    JavaScript value. It covers a pathname that is `null` or `undefined`, the
    optional `exact?: boolean` property, and an omitted options argument. */
module Wrappers {

  datatype Option<T> = None | Some(value: T) {

    /** Returns the value held in Some, or `default` when None. */
    function GetOr(default: T): (r: T)
      ensures Some? ==> r == value
      ensures None? ==> r == default
    {
      match this
      case Some(v) => v
      case None => default
    }
  }
}

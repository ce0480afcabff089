/** Optional values: JavaScript's `null` / "no value". */
module Opt {

  datatype Option<+T> = None | Some(value: T) {

    /** The value held, or `default` when there is none (JavaScript's `x ?? default`). */
    function GetOr(default: T): (r: T)
      ensures Some? ==> r == value
      ensures None? ==> r == default
    {
      match this
      case Some(v) => v
      case None => default
    }
  }
}

/** Nullable values of the Kotlin source (`T?`). */
module Wrappers {
  datatype Option<T> = None | Some(value: T)
  {
    /** Kotlin's elvis operator `this ?: default`. */
    function OrElse(default: T): (r: T)
      ensures Some? ==> r == value
      ensures None? ==> r == default
    {
      match this
      case Some(v) => v
      case None => default
    }
  }
}

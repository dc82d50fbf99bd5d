/** The optional-value datatype shared by every decoder of this model. */
module Wrappers {

  /** A decoded value, or the absence of one (the C++ decoders' negative return code). */
  datatype Option<+T> = None | Some(value: T) {

    /** The carried value, or `default` when there is none. */
    function GetOr(default: T): (r: T)
      ensures Some? ==> r == value
      ensures None? ==> r == default
    {
      match this
      case Some(v) => v
      case None => default
    }
  }
}

/** The optional-value datatype used for fields the source may leave unset
    (an entry's `end`, a missing stored record, a reply's optional notice). */
module Wrappers {

  datatype Option<+T> = None | Some(value: T) {

    /** The carried value, or `default` when there is none. */
    function GetOr(default: T): T {
      match this
      case Some(v) => v
      case None => default
    }
  }
}

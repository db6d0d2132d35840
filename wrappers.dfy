/** Python's `None`-or-value, used wherever the scrapers return `Optional[...]`,
    and the outcome of a call that may raise. */
module Wrappers {

  datatype Option<+T> = None | Some(value: T) {

    /** The value, or `default` when there is none. */
    function GetOr(default: T): T {
      match this
      case Some(v) => v
      case None => default
    }
  }

  /** A Python call that returns a value, or raises. */
  datatype Outcome<+T> = Returns(value: T) | Throws
}

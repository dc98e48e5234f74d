/** The optional value used for the fan's possibly-unset percentage and DAC level. */
module Wrappers {

  /** `None` stands for Python's `None`; `Some(v)` for a stored value. */
  datatype Option<+T> = None | Some(value: T) {

    /** The stored value, or `default` when nothing is stored. */
    function GetOr(default: T): T
    {
      match this
      case Some(v) => v
      case None => default
    }
  }
}

/** The optional value used wherever the source has a value that may be absent:
    a NaT date, a NaN cell, an int() that raised, an unset timer start. */
module Options {
  datatype Option<+T> = None | Some(value: T) {
    /** The value, or `default` when there is none (pandas' fillna, a skipped sum term). */
    function GetOr(default: T): T {
      match this
      case Some(v) => v
      case None => default
    }
  }
}

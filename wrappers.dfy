/** Option-like datatypes for values that Python represents with None or a missing key. */
module Wrappers {

  /** A value that may be None. */
  datatype Option<+T> = None | Some(value: T) {
    /** The value, or `default` when None (Python's `d.get(k, default)`). */
    function GetOr(default: T): T {
      match this
      case Some(v) => v
      case None => default
    }
  }

  /** A key of a JSON object: missing, present with `null`, or present with a value. */
  datatype Field<+T> = Absent | Null | Present(value: T) {
    /** Python's `d.get(k)`: both a missing key and a null value read as None. */
    function Get(): Option<T> {
      match this
      case Present(v) => Some(v)
      case _ => None
    }
  }
}

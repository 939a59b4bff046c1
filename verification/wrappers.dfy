/** Small failure-carrying datatypes shared by the whole model. */
module Wrappers {

  /** A value that may be missing: Python's `None` versus a present value. */
  datatype Option<+T> = None | Some(value: T) {

    /** The carried value, or `default` when there is none. */
    function GetOr(default: T): T {
      match this
      case Some(v) => v
      case None => default
    }
  }

  /** One key of a Python dictionary: either the key is missing (`Absent`), or it is
      present and holds a value that may itself be `None`.  Only where the program
      indexes a dictionary with `d[k]` (which raises on a missing key) does the
      difference between `Absent` and `Present(None)` matter. */
  datatype Key<+T> = Absent | Present(held: Option<T>) {

    /** Python's `d.get(k, None)`: a missing key reads as `None`. */
    function Get(): Option<T> {
      match this
      case Present(v) => v
      case Absent => None
    }
  }

  /** How a Python call ended: with a value, or with an exception that nothing
      catches (named by its class, such as `"KeyError"`).  Used only where the
      program as written lets an exception escape. */
  datatype Call<+T> = Returned(value: T) | Raised(exception: string)
}

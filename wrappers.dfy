/** Small value wrappers shared by the modules of this model. */
module Wrappers {

  /** A value that may be absent: Python's `None` versus a value. */
  datatype Option<T> = None | Some(value: T) {
    function GetOr(default: T): T {
      match this
      case Some(v) => v
      case None => default
    }
  }

  /** One key of a JSON request body: missing, present with `null`, or present with a value.
      `data.get(k)` cannot tell the first two apart; `k in data` can. */
  datatype Field<T> = Absent | Null | Given(value: T) {
    /** `data.get(k)`: `None` unless a value was supplied. */
    function Get(): Option<T> {
      match this
      case Given(v) => Some(v)
      case _ => None
    }

    /** `k in data`. */
    predicate Present() {
      !Absent?
    }
  }

  /** Python truthiness of an optional string: `None` and `""` are falsy. */
  predicate Truthy(s: Option<string>) {
    s.Some? && s.value != ""
  }
}

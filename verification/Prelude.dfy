/** Small datatypes shared by every module of the model. */
module Prelude {

  /** A nullable column or an optional JSON member. */
  datatype Option<+T> = None | Some(value: T) {
    function GetOr(default: T): T {
      match this
      case None => default
      case Some(v) => v
    }

    function OrElse(other: Option<T>): Option<T> {
      if this.Some? then this else other
    }
  }

  /** A call that returns a value or throws. */
  datatype Result<+T, +E> = Ok(value: T) | Err(error: E)
}

/**
 Optional values and results with an error payload, used throughout the model
 wherever the Python code returns `None` or raises.
 */
module Wrappers {

  datatype Option<+T> = None | Some(value: T)
  {
    predicate IsSome() { Some? }

    function GetOr(default: T): (r: T)
      ensures Some? ==> r == value
      ensures None? ==> r == default
    {
      match this
      case Some(v) => v
      case None => default
    }
  }

  datatype Result<+T, +E> = Ok(value: T) | Err(error: E)

}

/**
 * Option and Result values shared by every module: a Python function that
 * may return None becomes an Option, and one whose error path the callers
 * observe (an exception that is caught, or a (False, message) pair) becomes
 * a Result.
 */
module Wrappers {

  datatype Option<T> = None | Some(value: T) {
    predicate IsSome() { Some? }

    function GetOr(default: T): (r: T)
      ensures Some? ==> r == value
      ensures None? ==> r == default
    {
      match this
      case Some(v) => v
      case None => default
    }
  }

  datatype Result<T, E> = Success(value: T) | Failure(error: E) {
    function ToOption(): (r: Option<T>)
      ensures r.Some? <==> Success?
      ensures Success? ==> r.value == value
    {
      match this
      case Success(v) => Some(v)
      case Failure(_) => None
    }
  }
}

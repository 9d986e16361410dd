/** Optional values and the outcome of a call to the backend. */
module Wrappers {

  /** `null` / `undefined` versus a present value. */
  datatype Option<T> = None | Some(value: T) {
    function GetOr(default: T): T {
      match this
      case Some(v) => v
      case None => default
    }
  }

  /** What a failing call throws: an `Error` instance with its message, or any other value. */
  datatype Thrown = ErrorInstance(message: string) | NonErrorValue

  /** A backend call either yields its data or throws. */
  datatype Result<T> = Ok(value: T) | Err(thrown: Thrown)
}

/** Option and Result, the two failure-carrying shapes the model uses. */
module Basics {

  /** A value that may be missing: JavaScript's `undefined` for an absent field. */
  datatype Option<+T> = None | Some(value: T) {
    function GetOr(default: T): T {
      match this
      case Some(v) => v
      case None => default
    }
  }

  /** The outcome of a JavaScript operation that may throw. */
  datatype Result<+T> = Success(value: T) | Failure(error: string)

  function Min(a: int, b: int): int { if a <= b then a else b }

  function Max(a: int, b: int): int { if a >= b then a else b }
}

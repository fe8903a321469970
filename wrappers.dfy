/** Failure-carrying results used across the generator model. */
module Wrappers {

  /** A value that may be absent (JavaScript `null`/`undefined`). */
  datatype Option<+T> = None | Some(value: T) {
    /** `x ?? fallback` */
    function GetOr(fallback: T): T {
      match this
      case Some(v) => v
      case None => fallback
    }
  }

  /** The `{ ok: true, ... }` / `{ ok: false, error }` objects of the generator. */
  datatype Result<+T> = Ok(value: T) | Err(error: string)
}

/** Failure-carrying values shared by every module: Go's `(T, error)` pairs
    become `Result<T>`, whose error is the text Go's `err.Error()` would give;
    a bare `error` return becomes `Option<string>` (None is Go's nil). */
module Wrappers {

  datatype Option<+T> = None | Some(value: T) {
    function GetOr(default: T): T {
      match this
      case Some(v) => v
      case None => default
    }
  }

  datatype Result<+T> = Ok(value: T) | Err(error: string)
}

/** Result types shared by every module: a missing value, and a value or an error. */
module Prelude {

  datatype Option<+T> = None | Some(value: T) {
    function GetOr(default: T): T {
      match this
      case Some(v) => v
      case None => default
    }
  }

  datatype Result<+T, +E> = Ok(value: T) | Err(error: E)

  /** The value when it is present and not empty: what Python takes for true. */
  function Given(v: Option<string>): Option<string> {
    if v == Some("") then None else v
  }
}

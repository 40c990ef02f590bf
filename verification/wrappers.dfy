/** `Option` stands for Python's `None`-or-value (a missing dict key, an unset
    variable), `Result` for a returned value or a raised exception. */
module Wrappers {

  datatype Option<+T> = None | Some(value: T) {

    /** Python's `d.get(key, default)`: the value when present, else `default`. */
    function GetOr(default: T): T {
      if Some? then value else default
    }
  }

  datatype Result<+R, +E> = Success(value: R) | Failure(error: E)
}

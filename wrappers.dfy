/** Optional values and fallible results shared by every module of the model.
    `None` stands for a JSON `null` or a missing key; `Failure` for an
    exception that aborts a script. */
module Wrappers {

  datatype Option<+T> = None | Some(value: T) {
    /** Python's `dict.get(key, default)` / `x or default` on a present-or-absent value. */
    function GetOr(default: T): T {
      match this
      case Some(v) => v
      case None => default
    }
  }

  datatype Result<+R, +E> = Success(value: R) | Failure(error: E)
}

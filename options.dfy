/** Optional values and results: the model's stand-ins for JavaScript's
    `undefined`/`null` and for error responses. */
module Options {

  datatype Option<+T> = None | Some(value: T) {
    /** `x || fallback` for a value that is either absent or present. */
    function GetOr(fallback: T): T {
      match this
      case Some(v) => v
      case None => fallback
    }
  }

  datatype Result<+T, +E> = Success(value: T) | Failure(error: E)
}

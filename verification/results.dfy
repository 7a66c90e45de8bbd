/** Optional values and success/failure outcomes, used where the modelled
    code returns `undefined`, a `Map.get` miss, or a rejected promise. */
module Results {

  datatype Option<+T> = None | Some(value: T) {

    /** The value, or `default` when absent (JavaScript's `??`). */
    function GetOr(default: T): T {
      match this
      case Some(v) => v
      case None => default
    }
  }

  datatype Result<+R, +E> = Success(value: R) | Failure(error: E)
}

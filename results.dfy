/** Failure-carrying return values, as the Rust code uses `Option` and `Result`. */
module Results {

  datatype Option<+T> = None | Some(value: T)

  datatype Result<+T, +E> = Success(value: T) | Failure(error: E) {

    /** The success value, or `default` on failure (Rust's `unwrap_or`). */
    function GetOr(default: T): T
    {
      match this
      case Success(v) => v
      case Failure(_) => default
    }
  }
}

/** The two outcomes a C++ call that may throw has, and values that may be absent. */
module Results {
  datatype Option<+T> = None | Some(value: T)
  datatype Result<+T, +E> = Success(value: T) | Failure(error: E) {
    /** The value `v` if this call succeeded, otherwise its error. */
    function Then<U>(v: U): Result<U, E> {
      match this case Success(_) => Success(v) case Failure(e) => Failure(e)
    }
  }
}

/** Optional values and fallible results, the two shapes the Rust code uses
    (`Option<T>` for a junction's direction, `Result<(), T>` for a refused push,
    and a panic for an aborted construction step). */
module Results {

  datatype Option<+T> = None | Some(value: T)

  /** `Result` is failure-compatible, so `:-` propagates an `Err`. */
  datatype Result<+T, +E> = Ok(value: T) | Err(error: E) {

    predicate IsFailure() {
      Err?
    }

    function PropagateFailure<U>(): Result<U, E>
      requires Err?
    {
      Err(error)
    }

    function Extract(): T
      requires Ok?
    {
      value
    }
  }
}

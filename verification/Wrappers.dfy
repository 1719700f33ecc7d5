/** Failure-compatible results used by every other module. */
module Wrappers {

  datatype Option<+T> = None | Some(value: T)

  /** The outcome of a fallible call; `:-` propagates an `Err` as Rust's `?` does. */
  datatype Result<+T, +E> = Ok(value: T) | Err(error: E) {
    predicate IsFailure() {
      Err?
    }

    function PropagateFailure<U>(): Result<U, E>
      requires Err?
    {
      Err(error)
    }

    function Extract(): T
      requires Ok?
    {
      value
    }
  }

  type byte = x: int | 0 <= x < 256
}

/** Failure-compatible Option and Result values, standing for Rust's `Option` and `Result`. */
module Wrappers {

  datatype Option<+T> = None | Some(value: T)

  /** `Result<T, E>`; usable with `:-`, which plays the part of Rust's `?` operator. */
  datatype Result<+T, +E> = Ok(value: T) | Err(error: E) {
    predicate IsFailure() {
      Err?
    }

    function PropagateFailure<U>(): Result<U, E>
      requires Err?
    {
      Err(error)
    }

    function Extract(): T
      requires Ok?
    {
      value
    }
  }
}

/** Failure-compatible wrappers shared by the compiler stages: `Option` for the
    source's `Option<T>`, and `Result` for operations that panic in the source
    (an `unwrap` on nothing, a `panic!`), so that every panic is an error value. */
module Wrappers {

  datatype Option<+T> = None | Some(value: T)

  datatype Result<+T, +E> = Ok(value: T) | Err(error: E) {
    predicate IsFailure() {
      Err?
    }

    function PropagateFailure<U>(): Result<U, E>
      requires Err?
    {
      Err(error)
    }

    function Extract(): T
      requires Ok?
    {
      value
    }
  }
}

/** Failure-compatible result types used by every stage of the engine. */
module Wrappers {

  datatype Option<+T> = None | Some(value: T)

  /** The outcome of a computation that may abort; `Err` stands for a Go panic. */
  datatype Result<+T, +E> = Ok(value: T) | Err(error: E) {
    predicate IsFailure() { Err? }

    function PropagateFailure<U>(): Result<U, E>
      requires Err?
    {
      Err(error)
    }

    function Extract(): T
      requires Ok?
    {
      value
    }
  }

  /** Success or failure of a method that reports its effect through the heap. */
  datatype Outcome<+E> = Pass | Fail(error: E)
}

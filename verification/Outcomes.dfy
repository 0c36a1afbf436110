/** The two result shapes used throughout: a value that may be missing, and a
    call that either returns or raises. */
module Outcomes {

  datatype Option<+T> = None | Some(value: T)

  /** A call that returned a value, or raised with a short reason. */
  datatype Result<+T> = Ok(value: T) | Err(reason: string) {
    predicate IsFailure() {
      Err?
    }

    function PropagateFailure<U>(): Result<U>
      requires Err?
    {
      Err(reason)
    }

    function Extract(): T
      requires Ok?
    {
      value
    }
  }
}

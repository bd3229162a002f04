/** Result of an operation whose source aborts on a violated assertion.
    `Abort` stands for the process halting in an `assert`; it is never a
    label the caller could confuse with a real classification. */
module Wrappers {

  datatype Result<+T> = Ok(value: T) | Abort {

    predicate IsFailure() {
      Abort?
    }

    function PropagateFailure<U>(): Result<U>
      requires Abort?
    {
      Abort
    }

    function Extract(): T
      requires Ok?
    {
      value
    }
  }

  datatype Option<+T> = None | Some(value: T)
}

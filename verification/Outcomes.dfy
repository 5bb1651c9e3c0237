/** Results of operations that the source lets throw: a value, or the error it raises. */
module Outcomes {

  datatype Outcome<+T> = Ok(value: T) | Fail(error: string) {
    predicate IsFailure() {
      Fail?
    }

    function PropagateFailure<U>(): Outcome<U>
      requires Fail?
    {
      Fail(error)
    }

    function Extract(): T
      requires Ok?
    {
      value
    }
  }

  datatype Option<+T> = None | Some(value: T)
}

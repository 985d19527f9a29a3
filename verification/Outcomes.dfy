/** Results and optional values shared by every module of the model. */
module Outcomes {
  datatype Option<+T> = None | Some(value: T)

  /** A call of the original either returns a value or raises; `Refused` carries what it raised. */
  datatype Result<+T, +E> = Ok(value: T) | Refused(error: E) {
    predicate IsFailure() { Refused? }

    function PropagateFailure<U>(): Result<U, E>
      requires Refused?
    {
      Refused(error)
    }

    function Extract(): T
      requires Ok?
    {
      value
    }
  }
}

/** Absence and refusal as values. */
module Wrappers {
  datatype Option<+T> = None | Some(value: T)

  /** A result, or the source's error return. The messages are not modelled. */
  datatype Result<+T> = Success(value: T) | Refused {
    predicate IsFailure() { Refused? }

    function PropagateFailure<U>(): Result<U>
      requires IsFailure()
    {
      Refused
    }

    function Extract(): T
      requires !IsFailure()
    {
      value
    }
  }
}

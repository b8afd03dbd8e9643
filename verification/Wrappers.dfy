/** Options, and results that carry the exception a Python call would have raised. */
module Wrappers {

  datatype Option<+T> = None | Some(value: T)

  datatype Error =
    | RuntimeError
    | KeyError
    | IndexError
    | TypeError
    | ValueError
    | StructError
    | UnicodeError
    | AdsError(code: nat)

  datatype Result<+T> = Ok(value: T) | Err(error: Error) {
    predicate IsFailure() { Err? }

    function PropagateFailure<U>(): Result<U>
      requires Err?
    {
      Err(error)
    }

    function Extract(): T
      requires Ok?
    {
      value
    }
  }
}

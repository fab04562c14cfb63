/** Optional values, and the exceptions the library raises as values. */
module Wrappers {

  datatype Option<+T> = None | Some(value: T)

  /** The exceptions that can leave the modelled calls, by the class the caller sees. */
  datatype Error =
    | ValueError          // pow(0, -1, P): the base is not invertible
    | UnicodeDecodeError  // a slot name that is not ASCII
    | CorruptHelperError
    | DriftError(present: nat, needed: nat, missing: seq<string>, mandatory: bool)
    | SsError
    | OSError

  datatype Result<+T> = Ok(value: T) | Err(error: Error) {
    predicate IsFailure() {
      Err?
    }

    function PropagateFailure<U>(): Result<U>
      requires Err?
    {
      Err(error)
    }

    function Extract(): T
      requires Ok?
    {
      value
    }
  }
}

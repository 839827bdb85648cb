/** Failure-carrying results and the Python exception kinds the core raises. */
module Wrappers {

  datatype Option<+T> = None | Some(value: T)

  /** The exceptions of the modelled code, by Python class. */
  datatype Error =
    | ValueError(msg: string)
    | NotADirectoryError
    | AttributeError(msg: string)
    | TypeError
    | KeyError(key: string)
    | ParseError
    | RemoteError(code: nat)

  datatype Result<+T> = Ok(value: T) | Err(error: Error) {
    predicate IsFailure() { Err? }

    function PropagateFailure<U>(): Result<U>
      requires Err?
    {
      Err(error)
    }

    function Extract(): T
      requires Ok?
    {
      value
    }
  }
}

/** Failure values for the Python exceptions the modelled scripts raise or let through. */
module Outcomes {

  /** The Python exception an operation ends with. */
  datatype PyError =
    | IndexError            // `seq[0]` or `seq[-1]` on an empty list
    | TypeError             // `None[0]`, `[] in 'text'`
    | NameError(name: string)
    | OSError(message: string)
    | RuntimeError(message: string)
    | AttributeError(message: string)

  datatype Option<+T> = None | Some(value: T)

  datatype Result<+T> = Ok(value: T) | Err(error: PyError) {
    predicate IsFailure() { Err? }

    function PropagateFailure<U>(): Result<U>
      requires Err?
    {
      Err(error)
    }

    function Extract(): T
      requires Ok?
    {
      value
    }
  }
}

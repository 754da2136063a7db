/** Results of operations that raise in the source, and optional values. */
module Outcomes {

  datatype Option<+T> = None | Some(value: T)

  /** The exception classes the modelled Python code raises. */
  datatype Error = ValueError | RuntimeError | StructError | IndexError | FileNotFoundError

  datatype Result<+T> = Ok(value: T) | Err(error: Error) {
    predicate IsFailure() {
      Err?
    }

    function PropagateFailure<U>(): Result<U>
      requires Err?
    {
      Err(error)
    }

    function Extract(): T
      requires Ok?
    {
      value
    }
  }
}

/** Option and Result, the two failure-compatible wrappers the model uses in
    place of Rust's `Option` and `Result<_, Box<dyn Error>>`. */
module Wrappers {

  datatype Option<+T> = None | Some(value: T) {
    function GetOr(default: T): T {
      match this
      case Some(v) => v
      case None => default
    }
  }

  /** Why an operation did not complete. `Raised` is an `Err` that the
      message loop logs before going on with the next message; `Panicked`
      stands for a Rust panic, which ends the process instead. */
  datatype Fault = Raised(message: string) | Panicked(message: string)

  datatype Result<+T> = Ok(value: T) | Err(fault: Fault) {
    predicate IsFailure() {
      Err?
    }

    function PropagateFailure<U>(): Result<U>
      requires Err?
    {
      Err(fault)
    }

    function Extract(): T
      requires Ok?
    {
      value
    }
  }

  /** An `Err` carrying the given message. */
  function Fail<T>(message: string): Result<T> {
    Err(Raised(message))
  }
}

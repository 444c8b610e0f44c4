/**
 * Failure-compatible wrappers shared by every module of the model.
 *
 * The Python engine signals errors with exceptions; the model returns
 * `Result<T>` values whose `Err` case names the exception class that the
 * source raises at that point.
 */
module Wrappers {

  datatype Option<+T> = None | Some(value: T) {
    predicate IsFailure() { None? }

    function PropagateFailure<U>(): Option<U>
      requires None?
    {
      None
    }

    function Extract(): T
      requires Some?
    {
      value
    }

    function GetOr(default: T): T {
      match this
      case Some(v) => v
      case None => default
    }
  }

  /** The Python exception classes the modelled code raises. */
  datatype Exc =
    | TypeError
    | ValueError
    | KeyError
    | IndexError
    | RuntimeError
    | NameError          // an undefined name evaluated while building a message
    | RecursionError
    | OverflowError      // an integer too large to convert to float
    | NotEnoughElementError
    | FileNotFound       // `os.path.getmtime`/`open` on a missing file
    | AssertionError     // a failed `assert` statement
    | Failure            // a bare `Exception(...)` raised by the source

  datatype Result<+T> = Ok(value: T) | Err(error: Exc) {
    predicate IsFailure() { Err? }

    function PropagateFailure<U>(): Result<U>
      requires Err?
    {
      Err(error)
    }

    function Extract(): T
      requires Ok?
    {
      value
    }
  }
}

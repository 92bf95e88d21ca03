/** The two wrapper types every other module shares. */
module Wrappers {
  datatype Option<+T> = None | Some(value: T) {
    function GetOr(default: T): T {
      if Some? then value else default
    }
  }

  datatype Result<+T> = Ok(value: T) | Err(code: string) {
    predicate IsFailure() { Err? }

    function PropagateFailure<U>(): Result<U>
      requires Err?
    {
      Err(code)
    }

    function Extract(): T
      requires Ok?
    {
      value
    }
  }

  /** A check whose failure ends the caller with `code`. */
  function Need(condition: bool, code: string): Result<()> {
    if condition then Ok(()) else Err(code)
  }
}

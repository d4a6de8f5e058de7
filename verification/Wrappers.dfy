/** Result types shared by the modules. */
module Wrappers {

  datatype Option<+T> = None | Some(value: T)

  /** How a Go call ends: a value, a returned error, or a run-time panic. */
  datatype Outcome<+T> = Ok(value: T) | Err | Panic {

    predicate IsFailure() {
      !Ok?
    }

    function PropagateFailure<U>(): Outcome<U>
      requires IsFailure()
    {
      if Err? then Err else Panic
    }

    function Extract(): T
      requires Ok?
    {
      value
    }
  }
}

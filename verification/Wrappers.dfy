/** Failure-compatible result types shared by every component. */
module Wrappers {

  datatype Option<+T> = None | Some(value: T) {
    predicate IsFailure() { None? }

    function PropagateFailure<U>(): Option<U>
      requires None?
    {
      None
    }

    function Extract(): T
      requires Some?
    {
      value
    }
  }

  datatype Result<+T, +E> = Ok(value: T) | Err(error: E) {
    predicate IsFailure() { Err? }

    function PropagateFailure<U>(): Result<U, E>
      requires Err?
    {
      Err(error)
    }

    function Extract(): T
      requires Ok?
    {
      value
    }
  }

  /** The outcome of a check that either passes silently or raises. */
  datatype Outcome<E> = Pass | Fail(error: E) {
    /** Checks run in order: the first failure is the outcome. */
    function Then(next: Outcome<E>): Outcome<E> {
      if Fail? then this else next
    }
  }

  function Check<E>(condition: bool, error: E): Outcome<E> {
    if condition then Pass else Fail(error)
  }

  /** A computation behind a check. */
  function Guarded<T, E>(check: Outcome<E>, rest: Result<T, E>): Result<T, E> {
    match check
    case Pass => rest
    case Fail(e) => Err(e)
  }
}

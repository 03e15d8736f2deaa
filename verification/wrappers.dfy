/** Failure-carrying values shared by every module of the sync engine model.

    Go functions of the form `func f() (T, error)` become `Result<T>`, and
    functions that only return an `error` become `Outcome<string>`. Error
    values are kept as text because some callers inspect the message. */
module Wrappers {

  datatype Option<+T> = None | Some(value: T)

  /** A value or the text of the error that replaced it. */
  datatype Result<+T> = Ok(value: T) | Err(error: string) {

    predicate IsFailure() {
      Err?
    }

    function PropagateFailure<U>(): Result<U>
      requires Err?
    {
      Err(error)
    }

    function Extract(): T
      requires Ok?
    {
      value
    }
  }

  /** Success, or a failure carrying a value of type E. */
  datatype Outcome<+E> = Pass | Fail(error: E)
}

/** Option and Result types shared by the whole model, and the errors the
    configuration code throws. */
module Wrappers {

  datatype Option<+T> = None | Some(value: T)

  /** What a JavaScript `throw` carries in this system: a numbered error
      (`verror("10203: ...")`, `Error("10511: ...")`) or one of the runtime
      errors the interpreter raises on its own. */
  datatype Error =
    | Code(n: int)
    | TypeError        // a property of `undefined` read, or a non-function called
    | ReferenceError   // an undeclared identifier evaluated
    | SyntaxError      // `eval` of text that is not a program

  /** The value a function returns, or the error it throws. */
  datatype Result<+T> = Ok(value: T) | Err(error: Error) {

    predicate IsFailure() {
      Err?
    }

    function PropagateFailure<U>(): Result<U>
      requires Err?
    {
      Err(error)
    }

    function Extract(): T
      requires Ok?
    {
      value
    }
  }

  /** A check that passes or throws. */
  datatype Outcome = Pass | Fail(error: Error) {

    predicate IsFailure() {
      Fail?
    }

    function PropagateFailure<U>(): Result<U>
      requires Fail?
    {
      Err(error)
    }
  }
}

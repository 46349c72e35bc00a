/** Option and Outcome: the value/no-value and pass/fail shapes the model needs
    for Python's `None` and for exceptions that propagate to the caller. */
module Wrappers {

  datatype Option<+T> = None | Some(value: T)

  /** Pass: the call returned normally; Fail(e): it raised e. */
  datatype Outcome<+E> = Pass | Fail(error: E)
}

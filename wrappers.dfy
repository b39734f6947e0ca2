/** Option and pass/fail outcome datatypes shared by the other modules. */
module Wrappers {

  datatype Option<+T> = None | Some(value: T)

  /** The result of a check that either passes or fails with an error,
      like a Go function returning `error` (nil meaning Pass). */
  datatype Outcome<+E> = Pass | Fail(error: E)
}

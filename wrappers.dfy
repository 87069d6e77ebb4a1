/** Failure-compatible wrappers shared by the other modules. */
module Wrappers {

  /** An optional value; Python's `None` is `None` here. */
  datatype Option<+T> = None | Some(value: T)

  /** A value or the error the Python code would raise instead of returning. */
  datatype Result<+R, +E> = Success(value: R) | Failure(error: E)

  /** A dynamically typed Python argument, as far as the type checks of the model look at it. */
  datatype Value = Str(s: string) | Int(i: int) | Bool(b: bool) | NoneValue

  /** The two exceptions the validated setters and constructors raise. */
  datatype PyError = TypeError(bad: Value) | ValueError(bad: Value)
}

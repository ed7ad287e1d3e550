/** Small datatypes shared by every part of the model. */
module Basics {

  /** An absent or present value: C++ `std::optional`, proto2 `optional`. */
  datatype Option<+T> = None | Some(value: T)

  /** A returned value or the exception that replaced it. */
  datatype Outcome<+T, +E> = Success(value: T) | Failure(error: E)

  function Min(a: nat, b: nat): nat {
    if a <= b then a else b
  }
}

/** Small value types shared by the other modules. */
module Basics {

  /** Unsigned 8-bit values, as .NET's `byte`. */
  newtype byte = x: int | 0 <= x < 256

  /** A value that may be missing. */
  datatype Option<T> = None | Some(value: T)

  /** C#'s `(int)` conversion of a double: truncation toward zero. */
  function Truncate(x: real): (n: int)
    ensures 0.0 <= x ==> n as real <= x < n as real + 1.0
    ensures x <= 0.0 ==> n as real - 1.0 < x <= n as real
  {
    if x >= 0.0 then x.Floor else -((-x).Floor)
  }
}

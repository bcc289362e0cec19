/** Absolute value, maximum and minimum, shared by the map and universe modules. */
module Numeric {
  function Abs(x: int): nat {
    if x < 0 then -x else x
  }

  function RealAbs(x: real): real {
    if x < 0.0 then -x else x
  }

  function Max(a: int, b: int): int {
    if a >= b then a else b
  }

  function Min(a: int, b: int): int {
    if a <= b then a else b
  }

  function Max3(a: int, b: int, c: int): int {
    Max(a, Max(b, c))
  }
}

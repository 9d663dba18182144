/** Small shared types: optional values and clock arithmetic. */
module Basics {

  datatype Option<+T> = None | Some(value: T)

  /** How long something took: never negative, otherwise arbitrary. */
  type Duration = d: real | d >= 0.0

  function MaxReal(a: real, b: real): (r: real)
    ensures r >= a && r >= b && (r == a || r == b)
  {
    if a >= b then a else b
  }

  function MinInt(a: int, b: int): (r: int)
    ensures r <= a && r <= b && (r == a || r == b)
  {
    if a <= b then a else b
  }

  /** The least integer that is not below `x`. */
  function Ceil(x: real): (c: int)
    ensures c as real >= x
    ensures (c - 1) as real < x
  {
    -((-x).Floor)
  }
}

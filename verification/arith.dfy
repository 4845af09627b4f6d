/** Small integer helpers shared by the inventory and the bounding box. */
module Arith {

  function Min(a: int, b: int): int
  {
    if a <= b then a else b
  }

  function Max(a: int, b: int): int
  {
    if a <= b then b else a
  }

  function Abs(a: int): int
  {
    if a < 0 then -a else a
  }
}

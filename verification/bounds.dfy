/** Integer bounds used to describe windows of absolute indices. */
module Bounds {

  function Min(a: int, b: int): int { if a <= b then a else b }

  function Max(a: int, b: int): int { if a <= b then b else a }

  /** `x` moved into the closed interval [lo, hi]. */
  function Clamp(x: int, lo: int, hi: int): int
    requires lo <= hi
  {
    Min(Max(x, lo), hi)
  }
}

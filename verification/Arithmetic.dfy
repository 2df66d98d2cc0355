/** Integer and real arithmetic that several modules use. */
module Arithmetic {

  function MaxInt(a: int, b: int): int {
    if a < b then b else a
  }

  function MinInt(a: int, b: int): int {
    if a < b then a else b
  }

  /** A cast from float to int: truncation toward zero. */
  function Trunc(r: real): int {
    if r >= 0.0 then r.Floor else -((-r).Floor)
  }

  lemma ProductNonNegative(a: real, b: real)
    requires a >= 0.0 && b >= 0.0
    ensures a * b >= 0.0
  {
  }

  lemma ProductPositive(a: real, b: real)
    requires a > 0.0 && b > 0.0
    ensures a * b > 0.0
  {
  }

  lemma ScaleUp(a: real, b: real, b': real)
    requires a >= 0.0 && b <= b'
    ensures a * b <= a * b'
  {
  }

  lemma Grow(d: int, p: int, q: int)
    requires d >= 0 && p <= q
    ensures d * p <= d * q
  {
  }

  lemma DivBounds(n: int, d: int)
    requires d > 0
    ensures d * (n / d) <= n < d * (n / d) + d
  {
  }
}

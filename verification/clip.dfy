/**
 * The clamp every range-limited conversion of the tile system goes through:
 * `clip(n, min, max) = Min(Max(n, min), max)`. The model works over exact
 * reals; the IEEE-754 special values (NaN, infinities, signed zeros) that
 * Go's `math.Min` and `math.Max` single out are not modelled.
 */
module Clipping {

  function Max(a: real, b: real): real
  {
    if a >= b then a else b
  }

  function Min(a: real, b: real): real
  {
    if a <= b then a else b
  }

  function Abs(a: real): real
  {
    if a < 0.0 then -a else a
  }

  /** Clamps n into [minValue, maxValue]; when the bounds are crossed the upper one wins. */
  function Clip(n: real, minValue: real, maxValue: real): (r: real)
    ensures r <= maxValue
    ensures minValue <= maxValue ==> minValue <= r
    ensures minValue <= n <= maxValue ==> r == n
    ensures n < minValue <= maxValue ==> r == minValue
    ensures maxValue < n ==> r == maxValue
    ensures maxValue < minValue ==> r == maxValue
  {
    Min(Max(n, minValue), maxValue)
  }

  /** The clamped value is the point of [minValue, maxValue] nearest to n. */
  lemma ClipIsNearest(n: real, minValue: real, maxValue: real, v: real)
    requires minValue <= v <= maxValue
    ensures Abs(Clip(n, minValue, maxValue) - n) <= Abs(v - n)
  {
  }

  /** Clamping twice is clamping once. */
  lemma ClipIdempotent(n: real, minValue: real, maxValue: real)
    ensures Clip(Clip(n, minValue, maxValue), minValue, maxValue) == Clip(n, minValue, maxValue)
  {
  }

  /** Clamping preserves order. */
  lemma ClipMonotone(n: real, m: real, minValue: real, maxValue: real)
    requires n <= m
    ensures Clip(n, minValue, maxValue) <= Clip(m, minValue, maxValue)
  {
  }
}

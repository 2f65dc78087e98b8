/**
 * PHP's rounding functions on exact rationals. The PHP code computes these on floats; the model
 * computes them on `real`, where `/` is exact.
 */
module PhpMath {

  /** `floor($x)` */
  function Floor(x: real): int {
    x.Floor
  }

  /** `ceil($x)` */
  function Ceil(x: real): int {
    -((-x).Floor)
  }

  /** `round($x)`: to the nearest integer, halves away from zero. */
  function Round(x: real): int {
    if x >= 0.0 then (x + 0.5).Floor else -((-x + 0.5).Floor)
  }

  /** `abs($x)` */
  function Abs(x: int): nat {
    if x < 0 then -x else x
  }

  /** PHP's `$x <=> 0` */
  function SignOf(x: int): int {
    if x > 0 then 1 else if x < 0 then -1 else 0
  }

  lemma FloorSpec(x: real)
    ensures Floor(x) as real <= x < Floor(x) as real + 1.0
  {
  }

  /** `ceil` is the integer at or above `x` and less than one above it. */
  lemma CeilSpec(x: real)
    ensures x <= Ceil(x) as real < x + 1.0
  {
  }

  /** `round` is within a half of `x`, an exact half goes away from zero, and integers stay. */
  lemma RoundSpec(x: real)
    ensures x - 0.5 <= Round(x) as real <= x + 0.5
    ensures Round(x) as real == x + 0.5 ==> x > 0.0
    ensures Round(x) as real == x - 0.5 ==> x < 0.0
    ensures x >= 0.0 ==> Round(x) >= 0
  {
  }

  lemma RoundOfInt(n: int)
    ensures Round(n as real) == n
  {
  }

  lemma RoundMonotone(x: real, y: real)
    requires x <= y
    ensures Round(x) <= Round(y)
  {
  }
}

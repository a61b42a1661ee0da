/** Absolute values, bounds, square roots and squares of reals. */
module Reals {

  function Abs(x: real): (r: real)
    ensures r >= 0.0 && (r == x || r == -x)
  {
    if x < 0.0 then -x else x
  }

  function Min(x: real, y: real): real { if y < x then y else x }

  function Clamp(x: real, lo: real, hi: real): real {
    if x < lo then lo else if hi < x then hi else x
  }

  function Zeros(n: nat): (z: seq<real>)
    ensures |z| == n && forall i :: 0 <= i < n ==> z[i] == 0.0
  {
    seq(n, _ => 0.0)
  }

  /** The one property of a square root that is used. */
  ghost predicate IsSqrt(sqrt: real -> real) {
    forall x :: x >= 0.0 ==> sqrt(x) >= 0.0 && sqrt(x) * sqrt(x) == x
  }

  lemma SquareNonNegative(x: real)
    ensures x * x >= 0.0
  {
  }

  lemma SquareMonotone(x: real, y: real)
    requires 0.0 <= x <= y
    ensures x * x <= y * y
  {
  }
}

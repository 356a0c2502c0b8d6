/** The parts-per-million deviation of an experimental mass `e` from a
    theoretical mass `t`, relative to the experimental mass, and the
    tolerance test built on it. */
module Ppm {

  function Abs(x: real): (r: real)
    ensures r >= 0.0 && (r == x || r == -x)
  {
    if x < 0.0 then -x else x
  }

  /** 1e6 * |e - t| / |e|. */
  function Deviation(e: real, t: real): (r: real)
    requires e != 0.0
    ensures r >= 0.0
    ensures r == 0.0 <==> e == t
  {
    1000000.0 * Abs(e - t) / Abs(e)
  }

  /** `e` lies strictly within `tol` ppm of `t`, cross-multiplied so that it
      needs no division. An experimental mass of zero is never a hit: the
      deviation is then infinite or undefined and fails the strict test. */
  predicate IsHit(e: real, t: real, tol: real) {
    e != 0.0 && 1000000.0 * Abs(e - t) < tol * Abs(e)
  }

  /** The cross-multiplied test is the division form of the tolerance test. */
  lemma HitIffDeviationBelow(e: real, t: real, tol: real)
    ensures IsHit(e, t, tol) <==> e != 0.0 && Deviation(e, t) < tol
  {
  }

  /** A tolerance of zero or below admits nothing, not even an exact match. */
  lemma NoHitAtNonPositiveTolerance(e: real, t: real, tol: real)
    requires tol <= 0.0
    ensures !IsHit(e, t, tol)
  {
  }

  /** A wider tolerance keeps every hit of a narrower one. */
  lemma HitMonotone(e: real, t: real, tol1: real, tol2: real)
    requires tol1 <= tol2
    requires IsHit(e, t, tol1)
    ensures IsHit(e, t, tol2)
  {
  }

  /** Rounding to two decimals with ties to the even neighbour, as NumPy's
      `round(..., decimals=2)` does, on exact values. */
  function Round2(x: real): (r: real)
    ensures (r * 100.0).Floor as real == r * 100.0
    ensures Abs(r - x) <= 1.0 / 200.0
  {
    var y := x * 100.0;
    var f := y.Floor;
    var d := y - f as real;
    var n := if d < 0.5 then f else if d > 0.5 then f + 1 else if f % 2 == 0 then f else f + 1;
    assert Abs(n as real - y) <= 0.5;
    n as real / 100.0
  }
}

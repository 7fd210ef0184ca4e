/**
 * Plane geometry shared by both kinds of agent: vectors, squared distances
 * (standing in for `Math.hypot`, which is only ever compared against a
 * non-negative bound), clamping into the canvas, and the sign-only unit step
 * a predator takes along one axis.
 */
module Geometry {

  datatype Vec = Vec(x: real, y: real)

  const ZERO: Vec := Vec(0.0, 0.0)

  function Add(a: Vec, b: Vec): Vec {
    Vec(a.x + b.x, a.y + b.y)
  }

  /** Square of the Euclidean length of (dx, dy). */
  function NormSq(dx: real, dy: real): (r: real)
    ensures r >= 0.0
  {
    SquarePositive(dx);
    SquarePositive(dy);
    dx * dx + dy * dy
  }

  lemma MulPositive(a: real, b: real)
    requires a > 0.0 && b > 0.0
    ensures a * b > 0.0
  {
  }

  lemma SquarePositive(a: real)
    ensures a * a >= 0.0
    ensures a != 0.0 ==> a * a > 0.0
  {
    if a < 0.0 {
      MulPositive(-a, -a);
      assert a * a == (-a) * (-a);
    } else if a > 0.0 {
      MulPositive(a, a);
    }
  }

  /** A fraction `u` in [0, 1) of a non-negative extent lies within that extent. */
  lemma ScaleWithin(u: real, extent: real)
    ensures 0.0 <= u < 1.0 && 0.0 <= extent ==> 0.0 <= u * extent <= extent
  {
    assert extent - u * extent == (1.0 - u) * extent;
  }

  /**
   * `hypot(dx, dy) < bound`, without the square root: the length is never
   * negative, so it is below a positive bound exactly when its square is
   * below the bound's square, and it is never below a bound <= 0.
   */
  predicate Within(dx: real, dy: real, bound: real) {
    0.0 < bound && NormSq(dx, dy) < bound * bound
  }

  function Min(a: real, b: real): real { if a < b then a else b }

  function Max(a: real, b: real): real { if a < b then b else a }

  /** `Math.max(0, Math.min(v, hi))`: the canvas clamp applied to each prey coordinate. */
  function Clamp(v: real, hi: real): (r: real)
    ensures 0.0 <= hi ==> 0.0 <= r <= hi
    ensures 0.0 <= v <= hi ==> r == v
    ensures v < 0.0 ==> r == 0.0
    ensures 0.0 <= hi < v ==> r == hi
  {
    Max(0.0, Min(v, hi))
  }

  /**
   * One predator coordinate moved by one unit towards the target coordinate,
   * and not at all when the two are already equal.
   */
  function StepToward(v: real, target: real): (r: real)
    ensures r - v == 1.0 || r - v == 0.0 || r - v == -1.0
    ensures r == v <==> v == target
    ensures (r - v) * (target - v) >= 0.0
  {
    if v < target then v + 1.0
    else if v > target then v - 1.0
    else v
  }

  function Abs(a: real): real { if a < 0.0 then -a else a }

  /**
   * A step closes one unit of the gap to the target when the gap is at least
   * one unit; a smaller gap may be overshot, but the coordinate then ends
   * less than one unit from the target.
   */
  lemma StepTowardCloses(v: real, target: real)
    ensures Abs(v - target) >= 1.0 ==> Abs(StepToward(v, target) - target) == Abs(v - target) - 1.0
    ensures Abs(v - target) < 1.0 ==> Abs(StepToward(v, target) - target) < 1.0
  {
  }

  /** From anywhere within one unit of [0, hi], a step towards a point of [0, hi] stays within one unit of [0, hi]. */
  lemma StepTowardNearInterval(v: real, target: real, hi: real)
    requires -1.0 <= v <= hi + 1.0
    requires 0.0 <= target <= hi
    ensures -1.0 <= StepToward(v, target) <= hi + 1.0
  {
  }

  /** A step is not clamped: it can leave [0, hi]. */
  lemma StepTowardLeavesInterval()
    ensures StepToward(9.5, 10.0) == 10.5
    ensures StepToward(0.5, 0.0) == -0.5
  {
  }
}

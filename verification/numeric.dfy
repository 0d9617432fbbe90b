/**
 * Real-number helpers shared by the creature model: JavaScript's Math.min,
 * Math.max and Math.abs, the clamp used by the resource setters, the angular
 * distance that the vision test compares against half the view angle, and the
 * abstract trigonometry the simulation calls.
 */
module Numeric {

  /** Math.PI, as a real number (floating-point rounding is not modelled). */
  const PI: real := 3.141592653589793
  const TwoPi: real := 2.0 * PI

  /**
   * Math.hypot, Math.atan2, Math.cos and Math.sin. Their exact values do not
   * matter to any property proved here, so they are given as parameters.
   */
  datatype Trig = Trig(hypot: (real, real) -> real, atan2: (real, real) -> real,
                       cos: real -> real, sin: real -> real)

  function Min(a: real, b: real): real { if a <= b then a else b }

  function Max(a: real, b: real): real { if a >= b then a else b }

  function Abs(a: real): real { if a < 0.0 then -a else a }

  /**
   * Math.max(0, Math.min(hi, v)): the clamp of setSpeed, setEnergy and setHp.
   * The result is never negative, never above a non-negative maximum, and an
   * argument already in [0, hi] is kept as it is.
   */
  function Clamp(v: real, hi: real): (r: real)
    ensures 0.0 <= r
    ensures 0.0 <= hi ==> r <= hi
    ensures 0.0 <= v <= hi ==> r == v
    ensures 0.0 <= hi < v ==> r == hi
    ensures v < 0.0 ==> r == 0.0
    ensures hi < 0.0 ==> r == 0.0
  {
    Max(0.0, Min(hi, v))
  }

  /**
   * How far the angle d is from the nearest whole turn: |d - 2πk| for the
   * integer k that puts d - 2πk into [-π, π).
   */
  function AngleGap(d: real): (r: real)
    ensures 0.0 <= r <= PI
  {
    var k := ((d + PI) / TwoPi).Floor;
    Abs(d - TwoPi * k as real)
  }

  /**
   * Any representative of d modulo whole turns that lies in [-π, π] has
   * magnitude AngleGap(d): the normalisation loops of the vision test may
   * end on π or on -π, but the absolute value they compare is the same.
   */
  lemma NormalizedGap(d: real, a: real, turns: int)
    requires a == d - TwoPi * turns as real
    requires -PI <= a <= PI
    ensures Abs(a) == AngleGap(d)
  {
    var k := ((d + PI) / TwoPi).Floor;
    var s := d - TwoPi * k as real;
    assert k as real <= (d + PI) / TwoPi < k as real + 1.0;
    assert -PI <= s < PI;
    assert AngleGap(d) == Abs(s);
    var j := k - turns;
    assert a - s == TwoPi * j as real;
    assert -1 < j <= 1;
    if j == 1 {
      assert s == -PI && a == PI;
    } else {
      assert a == s;
    }
  }

  /** Inside [-π, π] the angular distance is the plain absolute value. */
  lemma AngleGapInRange(d: real)
    requires -PI <= d <= PI
    ensures AngleGap(d) == Abs(d)
  {
    NormalizedGap(d, d, 0);
  }

  /** The angular distance does not change when whole turns are added. */
  lemma AngleGapPeriodic(d: real, n: int)
    ensures AngleGap(d + TwoPi * n as real) == AngleGap(d)
  {
    var k := ((d + PI) / TwoPi).Floor;
    var s := d - TwoPi * k as real;
    assert k as real <= (d + PI) / TwoPi < k as real + 1.0;
    NormalizedGap(d, s, k);
    NormalizedGap(d + TwoPi * n as real, s, n + k);
  }
}

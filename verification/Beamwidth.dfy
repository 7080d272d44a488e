/**
 The half-power beamwidth of a circular aperture by bisection: `ComputeCircularAperture3dBeamwidthDeg` of
 scratch/nr-x2-conditional-handover-test.cc, in exact arithmetic over a given gain function.
 */
module Beamwidth {
  import opened Reals

  const STEPS: nat := 200

  const WIDEST: real := 30.0

  const HALF_POWER_DB: real := -3.0

  ghost function HalvedWidth(n: nat): (w: real)
    ensures w > 0.0
  {
    if n == 0 then WIDEST else HalvedWidth(n - 1) / 2.0
  }

  /** Where the half-power angle is: the gain is above -3 dB at lo, and at hi it is not, unless hi is still 30. */
  ghost predicate Brackets(relativeGainDb: real -> real, lo: real, hi: real, n: nat) {
    && 0.0 <= lo < hi <= WIDEST
    && hi - lo == HalvedWidth(n)
    && relativeGainDb(lo) > HALF_POWER_DB
    && (hi == WIDEST || relativeGainDb(hi) <= HALF_POWER_DB)
  }

  /** The source takes the gain straight ahead to be 0 dB, which is what is asked of the gain function. */
  method BeamwidthDeg(relativeGainDb: real -> real) returns (width: real)
    requires relativeGainDb(0.0) > HALF_POWER_DB
    ensures exists lo, hi :: Brackets(relativeGainDb, lo, hi, STEPS) && width == lo + hi
    ensures exists lo, hi ::
      && 0.0 <= lo < hi <= 30.0 && (hi - lo) * Power(200) == 30.0 && width == lo + hi
      && relativeGainDb(lo) > -3.0 && (hi == 30.0 || relativeGainDb(hi) <= -3.0)
  {
    var lo, hi := 0.0, WIDEST;
    for i := 0 to STEPS
      invariant Brackets(relativeGainDb, lo, hi, i)
    {
      var mid := 0.5 * (lo + hi);
      if relativeGainDb(mid) > HALF_POWER_DB {
        lo := mid;
      } else {
        hi := mid;
      }
    }
    width := lo + hi;
    hide HalvedWidth, Power;
    HalvedWidthIsPower(STEPS);
    assert (hi - lo) * Power(200) == 30.0;
  }

  /** The gain falls through -3 dB once, at the angle `edge`. */
  ghost predicate FallsAt(relativeGainDb: real -> real, edge: real) {
    forall angle :: 0.0 <= angle <= WIDEST ==> (relativeGainDb(angle) > HALF_POWER_DB <==> angle < edge)
  }

  /** For a gain that falls through -3 dB once before 30 degrees, the result is twice that angle to 30 / 2^200. */
  lemma BeamwidthIsTwiceTheEdge(relativeGainDb: real -> real, edge: real, lo: real, hi: real)
    requires Brackets(relativeGainDb, lo, hi, STEPS)
    requires FallsAt(relativeGainDb, edge) && relativeGainDb(WIDEST) <= HALF_POWER_DB
    ensures lo < edge <= hi
    ensures Abs(lo + hi - 2.0 * edge) <= HalvedWidth(STEPS)
    ensures Abs(lo + hi - 2.0 * edge) * Power(200) <= 30.0
  {
    hide HalvedWidth, Power;
    assert relativeGainDb(lo) > HALF_POWER_DB <==> lo < edge;
    assert relativeGainDb(hi) > HALF_POWER_DB <==> hi < edge;
    var error := Abs(lo + hi - 2.0 * edge);
    assert error <= HalvedWidth(STEPS);
    hide *;
    ErrorTimesPower(error);
  }

  lemma ErrorTimesPower(error: real)
    requires error <= HalvedWidth(STEPS)
    ensures error * Power(200) <= 30.0
  {
    HalvedWidthIsPower(STEPS);
    PowerPositive(200);
    hide HalvedWidth, Power;
    LargerProduct(error, HalvedWidth(STEPS), Power(200));
  }

  lemma LargerProduct(a: real, b: real, c: real)
    requires a <= b && c > 0.0
    ensures a * c <= b * c
  {
    assert (b - a) * c >= 0.0;
  }

  lemma {:induction false} PowerPositive(n: nat)
    ensures Power(n) > 0.0
  {
    if n > 0 {
      PowerPositive(n - 1);
    }
  }

  lemma {:induction false} HalvedWidthIsPower(n: nat)
    ensures HalvedWidth(n) * Power(n) == WIDEST
  {
    if n > 0 {
      HalvedWidthIsPower(n - 1);
      assert HalvedWidth(n) * Power(n) == (HalvedWidth(n - 1) / 2.0) * (2.0 * Power(n - 1));
    }
  }

  /** Two to the power n. */
  ghost function Power(n: nat): real {
    if n == 0 then 1.0 else 2.0 * Power(n - 1)
  }
}

/**
 The game rounds horizontal velocity with `Number(v.toFixed(2))`. On exact
 (mathematical) values that is rounding to the nearest hundredth: for a
 non-negative value the larger of two equally near hundredths is taken, and a
 negative value is rounded as its magnitude and then negated.
 */
module Rounding {

  /** True when `x` is a whole number of hundredths, the grid `toFixed(2)` lands on. */
  predicate OnHundredths(x: real) {
    (x * 100.0).Floor as real == x * 100.0
  }

  /** Rounds a non-negative value to hundredths, a tie going to the larger hundredth. */
  function RoundMagnitude(x: real): (r: real)
    requires x >= 0.0
    ensures OnHundredths(r)
    ensures -0.005 < r - x <= 0.005
    ensures r >= 0.0
    ensures OnHundredths(x) ==> r == x
  {
    var n := (x * 100.0 + 0.5).Floor;
    HundredthsOnGrid(n);
    assert OnHundredths(x) ==> n == (x * 100.0).Floor;
    n as real / 100.0
  }

  /** `Number(x.toFixed(2))` on an exact value. */
  function ToFixed2(x: real): (r: real)
    ensures OnHundredths(r)
    ensures -0.005 <= r - x <= 0.005
    // a tie goes away from zero: `toFixed` takes the larger hundredth of the magnitude
    ensures x >= 0.0 ==> -0.005 < r - x
    ensures x <= 0.0 ==> r - x < 0.005
    ensures x >= 0.0 ==> r >= 0.0
    ensures x <= 0.0 ==> r <= 0.0
    ensures OnHundredths(x) ==> r == x
  {
    if x < 0.0 then
      NegatedOnGrid(x);
      NegatedOnGrid(RoundMagnitude(-x));
      -RoundMagnitude(-x)
    else
      RoundMagnitude(x)
  }

  /** The hundredths grid is symmetric about zero. */
  lemma NegatedOnGrid(x: real)
    ensures OnHundredths(-x) <==> OnHundredths(x)
  {
    if OnHundredths(x) {
      NegateGridPoint(x);
    }
    if OnHundredths(-x) {
      NegateGridPoint(-x);
    }
  }

  lemma NegateGridPoint(x: real)
    requires OnHundredths(x)
    ensures OnHundredths(-x)
  {
    var k := (x * 100.0).Floor;
    var m := -k;
    assert -x * 100.0 == m as real;
    assert (m as real).Floor == m;
  }

  /** Rounding is symmetric about zero: `toFixed` rounds the magnitude. */
  lemma ToFixed2Odd(x: real)
    ensures ToFixed2(-x) == -ToFixed2(x)
  {
  }

  /** A second rounding changes nothing. */
  lemma ToFixed2Idempotent(x: real)
    ensures ToFixed2(ToFixed2(x)) == ToFixed2(x)
  {
  }

  /** Moving a grid point by a whole number of hundredths stays on the grid. */
  lemma ShiftOnGrid(x: real, n: int)
    ensures OnHundredths(x) ==> OnHundredths(x + n as real / 100.0)
  {
    if OnHundredths(x) {
      var m := (x * 100.0).Floor;
      HundredthsOnGrid(m + n);
      assert x + n as real / 100.0 == (m + n) as real / 100.0;
    }
  }

  /** Every whole number of hundredths is on the grid. */
  lemma HundredthsOnGrid(n: int)
    ensures OnHundredths(n as real / 100.0)
  {
    assert n as real / 100.0 * 100.0 == n as real;
  }
}

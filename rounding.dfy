/** Two-decimal rounding over exact reals: the nearest multiple of 0.01, with a value
    exactly halfway between two cents rounded up.  This differs from Python's
    `round(x, 2)`, which rounds ties half to even, on such halfway values. */
module Rounding {

  /** True when `x` is a whole number of hundredths. */
  ghost predicate IsCents(x: real) {
    ((x * 100.0).Floor as real) == x * 100.0
  }

  function Round2(x: real): (r: real)
    ensures x - 0.005 < r <= x + 0.005
    ensures IsCents(r)
  {
    ((x * 100.0 + 0.5).Floor as real) / 100.0
  }

  /** Rounding a value that is already rounded changes nothing. */
  lemma Round2Idempotent(x: real)
    ensures Round2(Round2(x)) == Round2(x)
  {
    var f := (x * 100.0 + 0.5).Floor;
    assert Round2(x) * 100.0 + 0.5 == f as real + 0.5;
    assert (f as real + 0.5).Floor == f;
  }

  /** Rounding keeps the order of its arguments. */
  lemma Round2Monotone(x: real, y: real)
    requires x <= y
    ensures Round2(x) <= Round2(y)
  {
    var fx, fy := (x * 100.0 + 0.5).Floor, (y * 100.0 + 0.5).Floor;
    assert fx <= fy;
  }

  /** A value between 0 and 1 rounds to a value between 0 and 1. */
  lemma Round2UnitInterval(x: real)
    requires 0.0 <= x <= 1.0
    ensures 0.0 <= Round2(x) <= 1.0
  {
    Round2Monotone(0.0, x);
    Round2Monotone(x, 1.0);
    assert (0.5).Floor == 0;
    assert (100.5).Floor == 100;
  }
}

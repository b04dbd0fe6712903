/** Python's `round(x, 4)`, taken over exact reals. */
module Rounding {

  /** The multiple of 1/10000 nearest to `x`; an exact tie goes to the even multiple,
      as Python 3's `round` does. */
  function Round4(x: real): (r: real)
    ensures x - 0.00005 <= r <= x + 0.00005
    ensures (r * 10000.0).Floor as real == r * 10000.0
  {
    var scaled := x * 10000.0;
    var f := scaled.Floor;
    var frac := scaled - f as real;
    var n := if frac < 0.5 then f
             else if frac > 0.5 then f + 1
             else if f % 2 == 0 then f else f + 1;
    n as real / 10000.0
  }

  /** Rounding never reverses the order of two lengths. */
  lemma Round4Monotone(x: real, y: real)
    requires x <= y
    ensures Round4(x) <= Round4(y)
  {
    var fx := (x * 10000.0).Floor;
    var fy := (y * 10000.0).Floor;
    assert fx <= fy;
  }

  /** Hence a length that rounds strictly below `Round4(d)` is itself strictly below `d`. */
  lemma Round4BelowMeansBelow(x: real, d: real)
    requires Round4(x) < Round4(d)
    ensures x < d
  {
    if d <= x {
      Round4Monotone(d, x);
    }
  }

  /** Rounding keeps zero, so a positive length never rounds below zero. */
  lemma Round4NonNegative(x: real)
    requires 0.0 <= x
    ensures 0.0 <= Round4(x)
  {
    Round4Monotone(0.0, x);
    assert Round4(0.0) == 0.0;
  }

  /** A length above 0.00005 rounds to a positive multiple of 0.0001, so at least 0.0001. */
  lemma Round4AboveHalfUnit(x: real)
    requires x > 0.00005
    ensures Round4(x) >= 0.0001
  {
    var r := Round4(x);
    var n := (r * 10000.0).Floor;
    assert n as real == r * 10000.0;
    assert 0 < n;
  }

  /** An exact tie between two multiples of 0.0001 goes to the even one, as in Python 3
      (`round(0.00025, 4)` over exact reals is 0.0002, `round(0.00035, 4)` is 0.0004). */
  lemma Round4TiesToEven(k: int)
    ensures Round4((2 * k) as real / 10000.0 + 0.00005) == (2 * k) as real / 10000.0
    ensures Round4((2 * k + 1) as real / 10000.0 + 0.00005) == (2 * k + 2) as real / 10000.0
  {
    var lo := (2 * k) as real / 10000.0 + 0.00005;
    assert lo * 10000.0 == (2 * k) as real + 0.5;
    assert (lo * 10000.0).Floor == 2 * k;
    var hi := (2 * k + 1) as real / 10000.0 + 0.00005;
    assert hi * 10000.0 == (2 * k + 1) as real + 0.5;
    assert (hi * 10000.0).Floor == 2 * k + 1;
  }
}

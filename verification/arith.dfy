/** Real arithmetic the proofs need, kept linear where possible: the solver handles sums well
    and products of two unknowns poorly. */
module Arith {

  /** `n` strides of length `d`, by repeated addition. */
  function Strides(n: nat, d: real): real
    decreases n
  {
    if n == 0 then 0.0 else Strides(n - 1, d) + d
  }

  /** Strides by repeated addition are the product `n * d`. */
  lemma {:induction false} StridesIsProduct(n: nat, d: real)
    ensures Strides(n, d) == n as real * d
    decreases n
  {
    if 0 < n {
      StridesIsProduct(n - 1, d);
      SuccTimes((n - 1) as real, d);
    }
  }

  /** `a + b` strides are `a` strides followed by `b` strides. */
  lemma {:induction false} StridesAdd(a: nat, b: nat, d: real)
    ensures Strides(a + b, d) == Strides(a, d) + Strides(b, d)
    decreases b
  {
    if 0 < b {
      StridesAdd(a, b - 1, d);
    }
  }

  /** With a positive stride, more strides cover strictly more length. */
  lemma {:induction false} StridesIncreasing(a: nat, b: nat, d: real)
    requires d > 0.0
    requires a < b
    ensures Strides(a, d) < Strides(b, d)
    decreases b
  {
    if a < b - 1 {
      StridesIncreasing(a, b - 1, d);
    }
  }

  lemma {:induction false} StridesNonNegative(n: nat, d: real)
    requires d >= 0.0
    ensures Strides(n, d) >= 0.0
    decreases n
  {
    if 0 < n {
      StridesNonNegative(n - 1, d);
    }
  }

  /** A stride count whose length lies strictly between `n - 1` and `n + 1` strides is `n`. */
  lemma StridesPinned(c: nat, n: nat, d: real)
    requires d > 0.0
    requires 1 <= n
    requires Strides(n - 1, d) < Strides(c, d) < Strides(n + 1, d)
    ensures c == n
  {
    if c < n {
      if c < n - 1 {
        StridesIncreasing(c, n - 1, d);
      }
    } else if n < c {
      if n + 1 < c {
        StridesIncreasing(n + 1, c, d);
      }
    }
  }

  lemma NegativeTimes(a: real, d: real)
    requires a < 0.0
    requires d > 0.0
    ensures d * a < 0.0
  {}

  lemma SuccTimes(q: real, d: real)
    ensures (q + 1.0) * d == q * d + d
  {}

  lemma DivMul(x: real, d: real)
    requires d > 0.0
    ensures (x / d) * d == x
  {}

  lemma MulCancel(a: real, b: real, d: real)
    requires d > 0.0
    requires a * d == b * d
    ensures a == b
  {
    assert (a - b) * d == 0.0;
  }

  /** Dividing by `d` turns a subtraction of `d` into a subtraction of one. */
  lemma DivSubOne(x: real, d: real)
    requires d > 0.0
    ensures (x - d) / d == x / d - 1.0
  {
    DivMul(x, d);
    DivMul(x - d, d);
    SuccTimes(x / d - 1.0, d);
    MulCancel((x - d) / d, x / d - 1.0, d);
  }
}

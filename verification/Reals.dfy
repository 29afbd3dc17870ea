/** Real arithmetic shared by the numeric kernels. Products are named so that proofs
    can hide them from the solver and use the lemmas here instead. */
module Reals {

  function Abs(x: real): real { if x < 0.0 then -x else x }

  function Square(y: real): real { y * y }

  function Times(x: real, y: real): real { x * y }

  lemma TimesAdd(a: real, u: real, v: real)
    ensures Times(a, u + v) == Times(a, u) + Times(a, v)
    ensures Times(u + v, a) == Times(u, a) + Times(v, a)
  {
  }

  lemma TimesPositive(u: real, v: real)
    requires u > 0.0 && v > 0.0
    ensures Times(u, v) > 0.0
  {
  }

  lemma TimesNonNegative(u: real, v: real)
    requires u >= 0.0 && v >= 0.0
    ensures Times(u, v) >= 0.0
  {
  }

  lemma TimesMonotone(a: real, u: real, v: real)
    requires a >= 0.0 && u <= v
    ensures Times(a, u) <= Times(a, v)
  {
    TimesNonNegative(a, v - u);
    assert Times(a, v - u) == Times(a, v) - Times(a, u);
  }

  lemma SquareIsTimes(y: real)
    ensures Square(y) == Times(y, y) == Times(-y, -y)
    ensures Square(0.0) == 0.0
  {
  }

  lemma SquareSign(y: real)
    ensures Square(y) >= 0.0
    ensures y != 0.0 ==> Square(y) > 0.0
  {
    hide Square;
    hide Times;
    SquareIsTimes(y);
    if y > 0.0 {
      TimesPositive(y, y);
    } else if y < 0.0 {
      TimesPositive(-y, -y);
    }
  }

  /** Compensated summation (eval/extrapolate.go:103-114). Both branches return the
      exact sum and leave the compensation as it was: over the reals it starts and
      stays at zero. */
  function KahanSumInc(inc: real, sum: real, c: real): (r: (real, real))
    ensures r.0 == sum + inc && r.1 == c
  {
    var t := sum + inc;
    if Abs(sum) >= Abs(inc) then (t, c + ((sum - t) + inc)) else (t, c + ((inc - t) + sum))
  }
}

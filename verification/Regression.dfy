/** Ordinary least squares behind deriv and predict_linear
    (eval/extrapolate.go:117-176). */
module Regression {
  import opened Types
  import opened Reals

  /** Seconds of sample `i` relative to the intercept time. */
  function X(s: seq<Sample>, t0: int, i: nat): real
    requires i < |s|
  {
    (s[i].ts - t0) as real / 1000.0
  }

  // Sums over the first n samples.

  function SumX(s: seq<Sample>, t0: int, n: nat): real
    requires n <= |s|
  {
    if n == 0 then 0.0 else SumX(s, t0, n - 1) + X(s, t0, n - 1)
  }

  function SumY(s: seq<Sample>, n: nat): real
    requires n <= |s|
  {
    if n == 0 then 0.0 else SumY(s, n - 1) + s[n - 1].v
  }

  function SumXY(s: seq<Sample>, t0: int, n: nat): real
    requires n <= |s|
  {
    if n == 0 then 0.0 else SumXY(s, t0, n - 1) + Times(X(s, t0, n - 1), s[n - 1].v)
  }

  function SumX2(s: seq<Sample>, t0: int, n: nat): real
    requires n <= |s|
  {
    if n == 0 then 0.0 else SumX2(s, t0, n - 1) + Square(X(s, t0, n - 1))
  }

  function At(a: real, b: real, x: real): real { a + b * x }

  /** Sum of (a + b x)^2 over the first n samples. */
  function SumLine2(s: seq<Sample>, t0: int, a: real, b: real, n: nat): real
    requires n <= |s|
    ensures SumLine2(s, t0, a, b, n) >= 0.0
  {
    if n == 0 then 0.0
    else
      SumLine2(s, t0, a, b, n - 1) + Square(At(a, b, X(s, t0, n - 1)))
  }

  /** Residual sum of squares of the line a + b x. */
  function Residual(s: seq<Sample>, t0: int, a: real, b: real, n: nat): real
    requires n <= |s|
  {
    if n == 0 then 0.0
    else
      Residual(s, t0, a, b, n - 1) + Square(s[n - 1].v - At(a, b, X(s, t0, n - 1)))
  }

  predicate Constant(s: seq<Sample>) {
    forall i :: 0 <= i < |s| ==> s[i].v == s[0].v
  }

  function Covariance(n: real, sx: real, sy: real, sxy: real): real
    requires n > 0.0
  {
    sxy - sx * sy / n
  }

  function CovXY(s: seq<Sample>, t0: int): real
    requires |s| > 0
  {
    Covariance(|s| as real, SumX(s, t0, |s|), SumY(s, |s|), SumXY(s, t0, |s|))
  }

  function VarX(s: seq<Sample>, t0: int): real
    requires |s| > 0
  {
    Covariance(|s| as real, SumX(s, t0, |s|), SumX(s, t0, |s|), SumX2(s, t0, |s|))
  }

  /** n a^2 + 2 a b Sx + b^2 Sxx */
  function Quadratic(n: real, a: real, b: real, sx: real, sx2: real): real {
    n * (a * a) + 2.0 * (a * b) * sx + b * b * sx2
  }

  lemma QuadraticStep(n: real, a: real, b: real, sx: real, sx2: real, x: real)
    ensures Quadratic(n, a, b, sx, sx2) + Square(At(a, b, x)) == Quadratic(n + 1.0, a, b, sx + x, sx2 + Square(x))
    ensures Quadratic(0.0, a, b, 0.0, 0.0) == 0.0
  {
  }

  lemma {:induction false} LineSquares(s: seq<Sample>, t0: int, a: real, b: real, n: nat)
    requires n <= |s|
    ensures SumLine2(s, t0, a, b, n) == Quadratic(n as real, a, b, SumX(s, t0, n), SumX2(s, t0, n))
  {
    hide Quadratic;
    hide Square;
    hide At;
    if n == 0 {
      QuadraticStep(0.0, a, b, 0.0, 0.0, 0.0);
    } else {
      LineSquares(s, t0, a, b, n - 1);
      QuadraticStep((n - 1) as real, a, b, SumX(s, t0, n - 1), SumX2(s, t0, n - 1), X(s, t0, n - 1));
    }
  }

  // ---- The spread of the timestamps is positive ----

  lemma {:induction false} SpreadPositive(s: seq<Sample>, t0: int, m: real, n: nat)
    requires 2 <= n <= |s| && Increasing(s)
    ensures SumLine2(s, t0, -m, 1.0, n) > 0.0
  {
    hide Square;
    if n == 2 {
      var u, v := -m + 1.0 * X(s, t0, 0), -m + 1.0 * X(s, t0, 1);
      assert SumLine2(s, t0, -m, 1.0, 0) == 0.0;
      assert SumLine2(s, t0, -m, 1.0, 1) == Square(u);
      SquareSign(u);
      SquareSign(v);
    } else {
      SpreadPositive(s, t0, m, n - 1);
      SquareSign(-m + 1.0 * X(s, t0, n - 1));
    }
  }

  lemma MeanQuadratic(n: real, sx: real, sx2: real)
    requires n > 0.0
    ensures Quadratic(n, -(sx / n), 1.0, sx, sx2) == Covariance(n, sx, sx, sx2)
  {
    var m := sx / n;
    assert m * n == sx;
    assert n * (m * m) == (m * n) * m;
    assert sx * sx / n == sx * m;
  }

  /** The divisor of the slope is positive: the program never divides by zero on two
      or more samples of one series. */
  lemma VarXPositive(s: seq<Sample>, t0: int)
    requires |s| >= 2 && Increasing(s)
    ensures VarX(s, t0) > 0.0
  {
    hide Quadratic;
    hide Covariance;
    var n, sx := |s|, SumX(s, t0, |s|);
    SpreadPositive(s, t0, sx / n as real, n);
    LineSquares(s, t0, -(sx / n as real), 1.0, n);
    MeanQuadratic(n as real, sx, SumX2(s, t0, n));
  }

  function Slope(s: seq<Sample>, t0: int): real
    requires |s| >= 2 && Increasing(s)
  {
    if Constant(s) then 0.0
    else
      VarXPositive(s, t0);
      CovXY(s, t0) / VarX(s, t0)
  }

  function Intercept(s: seq<Sample>, t0: int): real
    requires |s| >= 2 && Increasing(s)
  {
    if Constant(s) then s[0].v
    else Offset(|s| as real, SumX(s, t0, |s|), SumY(s, |s|), Slope(s, t0))
  }

  function Offset(n: real, sx: real, sy: real, m: real): real
    requires n > 0.0
  {
    sy / n - m * sx / n
  }

  /** The loop of the program: one pass over the samples with compensated sums. */
  method LinearRegression(s: seq<Sample>, t0: int) returns (r: Option<(real, real)>)
    requires Increasing(s)
    ensures |s| < 2 ==> r == None
    ensures |s| >= 2 ==> r == Some((Slope(s, t0), Intercept(s, t0)))
  {
    hide Square;
    hide Times;
    hide Offset;
    hide Covariance;
    if |s| < 2 {
      return None;
    }
    var n, constY, initY := 0.0, true, s[0].v;
    var sumX, cX, sumY, cY, sumXY, cXY, sumX2, cX2 := 0.0, 0.0, 0.0, 0.0, 0.0, 0.0, 0.0, 0.0;
    for i := 0 to |s|
      invariant n == i as real
      invariant constY <==> forall j :: 0 <= j < i ==> s[j].v == initY
      invariant cX == cY == cXY == cX2 == 0.0
      invariant sumX == SumX(s, t0, i) && sumY == SumY(s, i)
      invariant sumXY == SumXY(s, t0, i) && sumX2 == SumX2(s, t0, i)
    {
      if constY && i > 0 && s[i].v != initY {
        constY := false;
      }
      n := n + 1.0;
      var x := (s[i].ts - t0) as real / 1000.0;
      var (sumX', cX') := KahanSumInc(x, sumX, cX);
      var (sumY', cY') := KahanSumInc(s[i].v, sumY, cY);
      var (sumXY', cXY') := KahanSumInc(Times(x, s[i].v), sumXY, cXY);
      var (sumX2', cX2') := KahanSumInc(Square(x), sumX2, cX2);
      sumX, cX, sumY, cY := sumX', cX', sumY', cY';
      sumXY, cXY, sumX2, cX2 := sumXY', cXY', sumX2', cX2';
    }
    assert constY <==> Constant(s);
    if constY {
      return Some((0.0, initY));
    }
    sumX := sumX + cX;
    sumY := sumY + cY;
    sumXY := sumXY + cXY;
    sumX2 := sumX2 + cX2;
    var covXY := Covariance(n, sumX, sumY, sumXY);
    var varX := Covariance(n, sumX, sumX, sumX2);
    VarXPositive(s, t0);
    var slope := covXY / varX;
    var intercept := Offset(n, sumX, sumY, slope);
    return Some((slope, intercept));
  }

  // ---- Normal equations and optimality ----

  lemma {:induction false} ConstantSums(s: seq<Sample>, t0: int, n: nat)
    requires 0 < |s| && n <= |s| && Constant(s)
    ensures SumY(s, n) == Times(s[0].v, n as real)
    ensures SumXY(s, t0, n) == Times(s[0].v, SumX(s, t0, n))
  {
    hide Times;
    hide X;
    if n == 0 {
      NothingTimes(s[0].v);
    } else {
      ConstantSums(s, t0, n - 1);
      TimesAdd(s[0].v, (n - 1) as real, 1.0);
      TimesAdd(s[0].v, SumX(s, t0, n - 1), X(s, t0, n - 1));
      SwapTimes(s[0].v, X(s, t0, n - 1));
    }
  }

  lemma SwapTimes(c: real, x: real)
    ensures Times(c, x) == Times(x, c) && Times(c, 1.0) == c && Times(0.0, x) == 0.0
  {
  }

  lemma NothingTimes(c: real)
    ensures Times(c, 0.0) == 0.0
  {
  }

  lemma SolveNormal(n: real, sx: real, sy: real, sxy: real, sx2: real)
    requires n > 0.0 && Covariance(n, sx, sx, sx2) != 0.0
    ensures var m := Covariance(n, sx, sy, sxy) / Covariance(n, sx, sx, sx2);
            var c := Offset(n, sx, sy, m);
            sy == Times(c, n) + Times(m, sx) && sxy == Times(c, sx) + Times(m, sx2)
  {
    var varX := Covariance(n, sx, sx, sx2);
    var m := Covariance(n, sx, sy, sxy) / varX;
    var c := sy / n - m * sx / n;
    var p, q := sx / n, sy / n;
    assert p * n == sx && q * n == sy;
    assert m * sx / n == m * p;
    assert n * (q - m * p) == n * q - m * (p * n);
    assert sx * sy / n == sx * q && sx * sx / n == sx * p;
    assert m * varX == sxy - sx * q;
    assert m * (sx2 - sx * p) == m * sx2 - m * (sx * p);
    assert c * sx == q * sx - (m * p) * sx;
    assert (m * p) * sx == m * (sx * p);
  }

  /** Slope and intercept solve both normal equations, in the constant-value shortcut
      and in the general case. */
  lemma NormalEquations(s: seq<Sample>, t0: int)
    requires |s| >= 2 && Increasing(s)
    ensures SumY(s, |s|) == Times(Intercept(s, t0), |s| as real) + Times(Slope(s, t0), SumX(s, t0, |s|))
    ensures SumXY(s, t0, |s|) == Times(Intercept(s, t0), SumX(s, t0, |s|)) + Times(Slope(s, t0), SumX2(s, t0, |s|))
  {
    hide Covariance;
    hide Times;
    hide Offset;
    if Constant(s) {
      ConstantSums(s, t0, |s|);
      SwapTimes(0.0, SumX(s, t0, |s|));
      SwapTimes(0.0, SumX2(s, t0, |s|));
    } else {
      VarXPositive(s, t0);
      SolveNormal(|s| as real, SumX(s, t0, |s|), SumY(s, |s|), SumXY(s, t0, |s|), SumX2(s, t0, |s|));
    }
  }

  function SumY2(s: seq<Sample>, n: nat): real
    requires n <= |s|
  {
    if n == 0 then 0.0 else SumY2(s, n - 1) + Square(s[n - 1].v)
  }

  /** The residual written in the accumulated sums. */
  function Expanded(n: real, a: real, b: real, sx: real, sx2: real, sy: real, sxy: real, sy2: real): real {
    sy2 - 2.0 * Times(a, sy) - 2.0 * Times(b, sxy) + Quadratic(n, a, b, sx, sx2)
  }

  lemma SquareOfResidual(a: real, b: real, x: real, y: real)
    ensures Square(y - At(a, b, x)) == Square(y) - 2.0 * Times(a, y) - 2.0 * Times(b, Times(x, y)) + Square(At(a, b, x))
  {
  }

  lemma ResidualStep(n: real, a: real, b: real, sx: real, sx2: real, sy: real, sxy: real, sy2: real, x: real, y: real)
    ensures Expanded(n, a, b, sx, sx2, sy, sxy, sy2) + Square(y - At(a, b, x))
         == Expanded(n + 1.0, a, b, sx + x, sx2 + Square(x), sy + y, sxy + Times(x, y), sy2 + Square(y))
  {
    hide Times;
    hide Square;
    hide Quadratic;
    hide At;
    QuadraticStep(n, a, b, sx, sx2, x);
    TimesAdd(a, sy, y);
    TimesAdd(b, sxy, Times(x, y));
    SquareOfResidual(a, b, x, y);
  }

  lemma {:induction false} ResidualExpand(s: seq<Sample>, t0: int, a: real, b: real, n: nat)
    requires n <= |s|
    ensures Residual(s, t0, a, b, n)
         == Expanded(n as real, a, b, SumX(s, t0, n), SumX2(s, t0, n), SumY(s, n), SumXY(s, t0, n), SumY2(s, n))
  {
    if n == 0 {
    } else {
      hide Expanded;
      hide Square;
      hide Times;
      hide At;
      ResidualExpand(s, t0, a, b, n - 1);
      ResidualStep((n - 1) as real, a, b, SumX(s, t0, n - 1), SumX2(s, t0, n - 1), SumY(s, n - 1),
                   SumXY(s, t0, n - 1), SumY2(s, n - 1), X(s, t0, n - 1), s[n - 1].v);
    }
  }

  lemma ExcessIsQuadratic(n: real, a: real, b: real, c: real, m: real, sx: real, sx2: real, sy: real, sxy: real, sy2: real)
    requires sy == Times(c, n) + Times(m, sx) && sxy == Times(c, sx) + Times(m, sx2)
    ensures Expanded(n, a, b, sx, sx2, sy, sxy, sy2)
         == Expanded(n, c, m, sx, sx2, sy, sxy, sy2) + Quadratic(n, a - c, b - m, sx, sx2)
  {
  }

  /** Least squares: no line has a smaller residual than the reported one. */
  lemma RegressionIsOptimal(s: seq<Sample>, t0: int, a: real, b: real)
    requires |s| >= 2 && Increasing(s)
    ensures Residual(s, t0, Intercept(s, t0), Slope(s, t0), |s|) <= Residual(s, t0, a, b, |s|)
  {
    hide Quadratic;
    hide Expanded;
    hide Square;
    hide Times;
    hide Slope;
    hide Intercept;
    var n, c, m := |s|, Intercept(s, t0), Slope(s, t0);
    NormalEquations(s, t0);
    ResidualExpand(s, t0, a, b, n);
    ResidualExpand(s, t0, c, m, n);
    ExcessIsQuadratic(n as real, a, b, c, m, SumX(s, t0, n), SumX2(s, t0, n), SumY(s, n), SumXY(s, t0, n),
                      SumY2(s, n));
    LineSquares(s, t0, a - c, b - m, n);
  }

  // ---- Independence of the intercept time ----

  function ShiftX(n: real, d: real, sx: real): real { sx + n * d }

  function ShiftXY(d: real, sy: real, sxy: real): real { sxy + d * sy }

  function ShiftX2(n: real, d: real, sx: real, sx2: real): real { sx2 + 2.0 * d * sx + n * (d * d) }

  lemma ShiftStep(n: real, d: real, sx: real, sy: real, sxy: real, sx2: real, x: real, y: real)
    ensures ShiftX(n, d, sx) + (x + d) == ShiftX(n + 1.0, d, sx + x)
    ensures ShiftXY(d, sy, sxy) + Times(x + d, y) == ShiftXY(d, sy + y, sxy + Times(x, y))
    ensures ShiftX2(n, d, sx, sx2) + Square(x + d) == ShiftX2(n + 1.0, d, sx + x, sx2 + Square(x))
  {
  }

  lemma {:induction false} ShiftSums(s: seq<Sample>, t0: int, t1: int, d: real, n: nat)
    requires n <= |s| && d == (t0 - t1) as real / 1000.0
    ensures SumX(s, t1, n) == ShiftX(n as real, d, SumX(s, t0, n))
    ensures SumXY(s, t1, n) == ShiftXY(d, SumY(s, n), SumXY(s, t0, n))
    ensures SumX2(s, t1, n) == ShiftX2(n as real, d, SumX(s, t0, n), SumX2(s, t0, n))
  {
    if n > 0 {
      hide Square;
      hide Times;
      hide ShiftX;
      hide ShiftXY;
      hide ShiftX2;
      ShiftSums(s, t0, t1, d, n - 1);
      ShiftStep((n - 1) as real, d, SumX(s, t0, n - 1), SumY(s, n - 1), SumXY(s, t0, n - 1), SumX2(s, t0, n - 1),
                X(s, t0, n - 1), s[n - 1].v);
    }
  }

  lemma CovarianceShift(n: real, d: real, sx: real, sy: real, sxy: real, sx2: real)
    requires n > 0.0
    ensures Covariance(n, ShiftX(n, d, sx), sy, ShiftXY(d, sy, sxy)) == Covariance(n, sx, sy, sxy)
    ensures Covariance(n, ShiftX(n, d, sx), ShiftX(n, d, sx), ShiftX2(n, d, sx, sx2)) == Covariance(n, sx, sx, sx2)
  {
    assert (sx + n * d) * sy / n == sx * sy / n + d * sy;
    assert (sx + n * d) * (sx + n * d) / n == sx * sx / n + 2.0 * d * sx + n * (d * d);
  }

  lemma OffsetShift(n: real, d: real, sx: real, sy: real, m: real)
    requires n > 0.0
    ensures Offset(n, ShiftX(n, d, sx), sy, m) == Offset(n, sx, sy, m) - Times(m, d)
  {
    assert m * (sx + n * d) / n == m * sx / n + m * d;
  }

  /** Moving the intercept time leaves the slope alone and slides the intercept along
      the same line. */
  lemma SameLine(s: seq<Sample>, t0: int, t1: int, d: real)
    requires |s| >= 2 && Increasing(s) && d == (t0 - t1) as real / 1000.0
    ensures Slope(s, t1) == Slope(s, t0)
    ensures Intercept(s, t1) == Intercept(s, t0) - Times(Slope(s, t0), d)
  {
    if Constant(s) {
      assert Times(0.0, d) == 0.0;
    } else {
      SameSlope(s, t0, t1, d);
      SameOffset(s, t0, t1, d, Slope(s, t0));
    }
  }

  lemma SameSlope(s: seq<Sample>, t0: int, t1: int, d: real)
    requires |s| >= 2 && Increasing(s) && d == (t0 - t1) as real / 1000.0
    ensures CovXY(s, t1) == CovXY(s, t0) && VarX(s, t1) == VarX(s, t0)
  {
    hide Covariance;
    hide ShiftX;
    hide ShiftXY;
    hide ShiftX2;
    var n := |s|;
    ShiftSums(s, t0, t1, d, n);
    CovarianceShift(n as real, d, SumX(s, t0, n), SumY(s, n), SumXY(s, t0, n), SumX2(s, t0, n));
  }

  lemma SameOffset(s: seq<Sample>, t0: int, t1: int, d: real, m: real)
    requires |s| >= 2 && d == (t0 - t1) as real / 1000.0
    ensures Offset(|s| as real, SumX(s, t1, |s|), SumY(s, |s|), m)
         == Offset(|s| as real, SumX(s, t0, |s|), SumY(s, |s|), m) - Times(m, d)
  {
    hide Offset;
    hide ShiftX;
    hide Times;
    var n := |s|;
    ShiftSums(s, t0, t1, d, n);
    OffsetShift(n as real, d, SumX(s, t0, n), SumY(s, n), m);
  }

  function Deriv(s: seq<Sample>): Option<real>
    requires Increasing(s)
  {
    if |s| < 2 then None else Some(Slope(s, s[0].ts))
  }

  function PredictLinear(s: seq<Sample>, evalTime: int, t: real): Option<real>
    requires Increasing(s)
  {
    if |s| < 2 then None else Some(Intercept(s, evalTime) + Times(Slope(s, evalTime), t))
  }

  lemma PointOnLine(m: real, d: real, t: real)
    ensures Times(m, t + d) == Times(m, t) + Times(m, d)
  {
  }

  /** The prediction depends only on the absolute time it is made for. */
  lemma PredictionDependsOnAbsoluteTime(s: seq<Sample>, e: int, t: real, e': int, t': real)
    requires Increasing(s) && e as real + 1000.0 * t == e' as real + 1000.0 * t'
    ensures PredictLinear(s, e, t) == PredictLinear(s, e', t')
  {
    hide Slope;
    hide Intercept;
    hide Times;
    if |s| >= 2 {
      var d := (e - e') as real / 1000.0;
      SameLine(s, e, e', d);
      assert t' == t + d;
      PointOnLine(Slope(s, e), d, t);
    }
  }

  // ---- Samples on a line ----

  lemma {:induction false} SumsOnLine(s: seq<Sample>, t0: int, c: real, m: real, n: nat)
    requires n <= |s| && forall i :: 0 <= i < |s| ==> s[i].v == At(c, m, X(s, t0, i))
    ensures SumY(s, n) == Times(c, n as real) + Times(m, SumX(s, t0, n))
    ensures SumXY(s, t0, n) == Times(c, SumX(s, t0, n)) + Times(m, SumX2(s, t0, n))
  {
    hide Times;
    hide Square;
    hide At;
    hide X;
    if n == 0 {
      NothingTimes(c);
      NothingTimes(m);
    } else {
      var x, sx, sx2 := X(s, t0, n - 1), SumX(s, t0, n - 1), SumX2(s, t0, n - 1);
      SumsOnLine(s, t0, c, m, n - 1);
      TimesAdd(c, (n - 1) as real, 1.0);
      TimesAdd(m, sx, x);
      TimesAdd(c, sx, x);
      TimesAdd(m, sx2, Square(x));
      LineTimes(c, m, x);
    }
  }

  lemma LineTimes(c: real, m: real, x: real)
    ensures Times(x, At(c, m, x)) == Times(c, x) + Times(m, Square(x))
    ensures At(c, m, x) == Times(c, 1.0) + Times(m, x)
  {
  }

  lemma NormalUnique(n: real, sx: real, sx2: real, c: real, m: real, c': real, m': real)
    requires n > 0.0 && Covariance(n, sx, sx, sx2) != 0.0
    requires Times(c, n) + Times(m, sx) == Times(c', n) + Times(m', sx)
    requires Times(c, sx) + Times(m, sx2) == Times(c', sx) + Times(m', sx2)
    ensures c == c' && m == m'
  {
    var dc, dm, x := c - c', m - m', sx / n;
    assert x * n == sx;
    assert dc * n + dm * sx == 0.0;
    assert dc * sx + dm * sx2 == 0.0;
    assert dc * sx == dc * n * x;
    assert dc * sx == -(dm * sx) * x;
    assert sx * sx / n == sx * x by {
      assert sx * x * n == sx * sx;
    }
    assert dm * (sx2 - sx * x) == 0.0;
    assert dm == 0.0;
    assert dc * n == 0.0;
  }

  /** The regression of samples on a line is that line. */
  lemma LineIsFitted(s: seq<Sample>, t0: int, c: real, m: real)
    requires |s| >= 2 && Increasing(s) && forall i :: 0 <= i < |s| ==> s[i].v == At(c, m, X(s, t0, i))
    ensures Intercept(s, t0) == c && Slope(s, t0) == m
  {
    VarXPositive(s, t0);
    VarXIs(s, t0);
    hide *;
    NormalEquations(s, t0);
    SumsOnLine(s, t0, c, m, |s|);
    NormalUnique(|s| as real, SumX(s, t0, |s|), SumX2(s, t0, |s|), Intercept(s, t0), Slope(s, t0), c, m);
  }

  lemma VarXIs(s: seq<Sample>, t0: int)
    requires |s| >= 2
    ensures VarX(s, t0) == Covariance(|s| as real, SumX(s, t0, |s|), SumX(s, t0, |s|), SumX2(s, t0, |s|))
  {
    hide Covariance;
  }
}

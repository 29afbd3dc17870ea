/** One-pass variance (eval/over_time.go:75-87, eval/aggregations.go:61-66). */
module Variance {
  import opened Types
  import opened Reals
  import opened Seqs

  function Sum(vs: seq<real>): real {
    if vs == [] then 0.0 else Sum(vs[..|vs| - 1]) + vs[|vs| - 1]
  }

  function Sum2(vs: seq<real>): real {
    if vs == [] then 0.0 else Sum2(vs[..|vs| - 1]) + Square(vs[|vs| - 1])
  }

  /** Sum of squared deviations from `m`. */
  function SumDev2(vs: seq<real>, m: real): real {
    if vs == [] then 0.0 else SumDev2(vs[..|vs| - 1], m) + Square(vs[|vs| - 1] - m)
  }

  function Mean(vs: seq<real>): real
    requires vs != []
  {
    Sum(vs) / |vs| as real
  }

  /** Population variance: the mean of the squared deviations from the mean. */
  function PopulationVariance(vs: seq<real>): real
    requires vs != []
  {
    SumDev2(vs, Mean(vs)) / |vs| as real
  }

  function Values(s: seq<Sample>): (vs: seq<real>)
    ensures |vs| == |s| && forall i :: 0 <= i < |s| ==> vs[i] == s[i].v
  {
    seq(|s|, i requires 0 <= i < |s| => s[i].v)
  }

  /** One update of the running mean and of the running sum of squares. */
  function WelfordMean(mean: real, n: real, x: real): real
    requires n > 0.0
  {
    mean + (x - mean) / n
  }

  function WelfordM2(m2: real, mean: real, mean': real, x: real): real {
    m2 + Times(x - mean, x - mean')
  }

  /** The state after any prefix: mean * n is the sum and m2 is the sum of squares
      less mean times the sum. */
  lemma WelfordStep(mean: real, m2: real, n: real, sum: real, sum2: real, x: real)
    requires n >= 0.0 && Times(mean, n) == sum && m2 == sum2 - Times(mean, sum)
    ensures var mean' := WelfordMean(mean, n + 1.0, x);
            && Times(mean', n + 1.0) == sum + x
            && WelfordM2(m2, mean, mean', x) == sum2 + Square(x) - Times(mean', sum + x)
  {
    var mean' := WelfordMean(mean, n + 1.0, x);
    assert (x - mean) / (n + 1.0) * (n + 1.0) == x - mean;
    assert mean' * (n + 1.0) == sum + x;
    assert mean' * (sum + mean) == mean' * (mean * (n + 1.0));
    assert mean' * (mean * (n + 1.0)) == mean * (mean' * (n + 1.0));
    assert (x - mean) * (x - mean') == x * x - x * mean' - mean * x + mean * mean';
  }

  lemma DeviationStep(n: real, m: real, sum: real, x: real)
    ensures Square(x - m) == Square(x) - 2.0 * Times(m, x) + Square(m)
    ensures Times(n + 1.0, Square(m)) == Times(n, Square(m)) + Square(m)
  {
  }

  lemma {:induction false} DeviationsExpand(vs: seq<real>, m: real)
    ensures SumDev2(vs, m) == Sum2(vs) - 2.0 * Times(m, Sum(vs)) + Times(|vs| as real, Square(m))
  {
    if vs != [] {
      hide Square;
      hide Times;
      var k := |vs| - 1;
      DeviationsExpand(vs[..k], m);
      DeviationStep(k as real, m, Sum(vs[..k]), vs[k]);
      TimesAdd(m, Sum(vs[..k]), vs[k]);
    }
  }

  lemma MeanSquare(m: real, n: real, sum: real)
    requires Times(m, n) == sum
    ensures Times(n, Square(m)) == Times(m, sum)
  {
    assert n * (m * m) == m * (m * n);
  }

  /** The shortcut for the deviation sum at the mean. */
  lemma DeviationsAtMean(vs: seq<real>, m: real)
    requires Times(m, |vs| as real) == Sum(vs)
    ensures SumDev2(vs, m) == Sum2(vs) - Times(m, Sum(vs))
  {
    hide Square;
    hide Times;
    DeviationsExpand(vs, m);
    MeanSquare(m, |vs| as real, Sum(vs));
  }

  lemma MeanTimesCount(vs: seq<real>)
    requires vs != []
    ensures Times(Mean(vs), |vs| as real) == Sum(vs)
  {
  }

  lemma UniqueMean(m: real, m': real, n: real)
    requires n > 0.0 && Times(m, n) == Times(m', n)
    ensures m == m'
  {
  }

  /** The one-pass loop computes the population variance. */
  method StdvarOverTime(s: seq<Sample>) returns (r: Option<real>)
    ensures r == if |s| == 0 then None else Some(PopulationVariance(Values(s)))
  {
    hide Square;
    hide Times;
    if |s| == 0 {
      return None;
    }
    ghost var vs := Values(s);
    var count, mean, cMean, aux, cAux := 0.0, 0.0, 0.0, 0.0, 0.0;
    ZeroState();
    for i := 0 to |s|
      invariant count == i as real && cMean == cAux == 0.0
      invariant Times(mean, count) == Sum(vs[..i])
      invariant aux == Sum2(vs[..i]) - Times(mean, Sum(vs[..i]))
    {
      WelfordStep(mean, aux, count, Sum(vs[..i]), Sum2(vs[..i]), s[i].v);
      assert vs[..i + 1][..i] == vs[..i];
      count := count + 1.0;
      var delta := s[i].v - (mean + cMean);
      var (mean', cMean') := KahanSumInc(delta / count, mean, cMean);
      mean, cMean := mean', cMean';
      var (aux', cAux') := KahanSumInc(Times(delta, s[i].v - (mean + cMean)), aux, cAux);
      aux, cAux := aux', cAux';
    }
    assert vs[..|s|] == vs;
    MeanTimesCount(vs);
    UniqueMean(mean, Mean(vs), count);
    DeviationsAtMean(vs, mean);
    return Some((aux + cAux) / count);
  }

  lemma ZeroState()
    ensures Times(0.0, 0.0) == 0.0
  {
  }

  lemma {:induction false} SumDev2NonNegative(vs: seq<real>, m: real)
    ensures SumDev2(vs, m) >= 0.0
  {
    if vs != [] {
      hide Square;
      SumDev2NonNegative(vs[..|vs| - 1], m);
      SquareSign(vs[|vs| - 1] - m);
    }
  }

  // ---- Order independence ----

  lemma {:induction false} SumsRemove(vs: seq<real>, i: nat)
    requires i < |vs|
    ensures Sum(vs) == vs[i] + Sum(Without(vs, i))
    ensures Sum2(vs) == Square(vs[i]) + Sum2(Without(vs, i))
  {
    hide Square;
    var k := |vs| - 1;
    if i == k {
      assert Without(vs, i) == vs[..k];
    } else {
      SumsRemove(vs[..k], i);
      assert Without(vs, i)[..k - 1] == Without(vs[..k], i);
    }
  }

  lemma {:induction false} SumsPermute(vs: seq<real>, ws: seq<real>)
    requires multiset(vs) == multiset(ws)
    ensures Sum(vs) == Sum(ws) && Sum2(vs) == Sum2(ws)
  {
    hide Square;
    SameLength(vs, ws);
    if vs != [] {
      assert vs[0] in multiset(vs) && vs[0] in multiset(ws);
      var i :| 0 <= i < |ws| && ws[i] == vs[0];
      SumsRemove(vs, 0);
      SumsRemove(ws, i);
      WithoutMultiset(vs, 0);
      WithoutMultiset(ws, i);
      SumsPermute(Without(vs, 0), Without(ws, i));
    }
  }

  /** The variance is never negative and does not depend on the order of the samples. */
  lemma VarianceIsOrderFree(vs: seq<real>, ws: seq<real>)
    requires vs != [] && multiset(vs) == multiset(ws)
    ensures ws != [] && PopulationVariance(vs) == PopulationVariance(ws) >= 0.0
  {
    hide Square;
    hide Times;
    SameLength(vs, ws);
    SumsPermute(vs, ws);
    MeanTimesCount(vs);
    MeanTimesCount(ws);
    DeviationsAtMean(vs, Mean(vs));
    DeviationsAtMean(ws, Mean(ws));
    SumDev2NonNegative(vs, Mean(vs));
  }
}

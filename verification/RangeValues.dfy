/** What each range function reports, stated on the samples of the series that lie in
    (t - range, t], the offset taken off: no statement here mentions how the evaluator finds
    the function by its name (eval/evaluator.go:544-632). */
module RangeValues {
  import opened Types
  import opened Reals
  import opened Plans
  import opened RangeFunctions
  import opened Extrapolate
  import opened ExtrapolateExact
  import Quantile
  import Regression
  import Staleness
  import Variance

  /** The value at time `t` of the range function of that name, with the range, the offset and
      the parameters of the plan. */
  function ValueOf(lib: Lib, p: EvalPlan, fn: string, s: seq<Sample>, t: int): Option<real>
    requires Increasing(s)
  {
    ComputeValue(lib, p.(funcName := fn), s, t, 0)
  }

  /** The staleness window does not matter to range functions. */
  lemma AnyStaleness(lib: Lib, p: EvalPlan, s: seq<Sample>, t: int, staleness: int)
    requires Increasing(s) && p.funcName in RANGE_FUNCTIONS
    ensures ComputeValue(lib, p, s, t, staleness) == ValueOf(lib, p, p.funcName, s, t)
  {
    assert p.(funcName := p.funcName) == p;
    hide WindowValue;
  }

  /** The range that ends at `t`, the offset taken off. */
  function To(p: EvalPlan, t: int): int { t - p.offsetMs }

  function From(p: EvalPlan, t: int): int { To(p, t) - p.rangeMs }

  /** The sample is one that the function is to see. */
  predicate InRange(p: EvalPlan, s: seq<Sample>, t: int, x: Sample) {
    x in s && From(p, t) < x.ts <= To(p, t)
  }

  /** They are seen in order. */
  function Seen(p: EvalPlan, s: seq<Sample>, t: int): (w: seq<Sample>)
    requires Increasing(s)
    ensures InWindow(w, From(p, t), To(p, t))
  {
    RangeWindow(s, From(p, t), To(p, t))
  }

  lemma SeenIsInRange(p: EvalPlan, s: seq<Sample>, t: int)
    requires Increasing(s)
    ensures forall x :: x in Seen(p, s, t) <==> InRange(p, s, t, x)
  {
    var a, b := From(p, t), To(p, t);
    BetweenMembers(s, a, b);
    SeenIsBetween(p, s, t);
    hide *;
    forall x ensures x in Seen(p, s, t) <==> InRange(p, s, t, x) {
      InRangeMeans(p, s, t, x);
    }
  }

  lemma InRangeMeans(p: EvalPlan, s: seq<Sample>, t: int, x: Sample)
    ensures InRange(p, s, t, x) <==> x in s && From(p, t) < x.ts <= To(p, t)
  {
  }

  lemma SeenIsBetween(p: EvalPlan, s: seq<Sample>, t: int)
    requires Increasing(s)
    ensures Seen(p, s, t) == Staleness.Between(s, From(p, t), To(p, t))
  {
    hide RangeWindow;
    hide Staleness.Between;
  }

  lemma SeenValue(lib: Lib, p: EvalPlan, fn: string, s: seq<Sample>, t: int)
    requires Increasing(s) && fn in RANGE_FUNCTIONS
    ensures ValueOf(lib, p, fn, s, t)
         == WindowValue(lib, fn, p.aggParam, p.smoothing, Seen(p, s, t), From(p, t), To(p, t))
  {
    hide WindowValue;
    hide RangeWindow;
  }

  /** The functions that look at the growth of a series. */
  lemma Counters(lib: Lib, p: EvalPlan, s: seq<Sample>, t: int)
    requires Increasing(s)
    ensures var w := Seen(p, s, t);
            && ValueOf(lib, p, "rate", s, t) == ExtrapolatedRate(w, From(p, t), To(p, t), true, true)
            && ValueOf(lib, p, "increase", s, t) == ExtrapolatedRate(w, From(p, t), To(p, t), true, false)
            && ValueOf(lib, p, "delta", s, t) == ExtrapolatedRate(w, From(p, t), To(p, t), false, false)
            && ValueOf(lib, p, "irate", s, t) == IRate(w)
            && ValueOf(lib, p, "idelta", s, t) == IDelta(w)
            && ValueOf(lib, p, "deriv", s, t) == Regression.Deriv(w)
            && ValueOf(lib, p, "predict_linear", s, t) == Regression.PredictLinear(w, To(p, t), p.aggParam)
  {
    hide *;
    AllKnown();
    var w := Seen(p, s, t);
    SeenValue(lib, p, "rate", s, t);
    SeenValue(lib, p, "increase", s, t);
    SeenValue(lib, p, "delta", s, t);
    SeenValue(lib, p, "irate", s, t);
    SeenValue(lib, p, "idelta", s, t);
    SeenValue(lib, p, "deriv", s, t);
    SeenValue(lib, p, "predict_linear", s, t);
    CounterNames(lib, p.aggParam, p.smoothing, w, From(p, t), To(p, t));
  }

  lemma AllKnown()
    ensures "rate" in RANGE_FUNCTIONS
    ensures "increase" in RANGE_FUNCTIONS
    ensures "delta" in RANGE_FUNCTIONS
    ensures "irate" in RANGE_FUNCTIONS
    ensures "idelta" in RANGE_FUNCTIONS
    ensures "deriv" in RANGE_FUNCTIONS
    ensures "predict_linear" in RANGE_FUNCTIONS
    ensures "resets" in RANGE_FUNCTIONS
    ensures "changes" in RANGE_FUNCTIONS
    ensures "sum_over_time" in RANGE_FUNCTIONS
    ensures "avg_over_time" in RANGE_FUNCTIONS
    ensures "min_over_time" in RANGE_FUNCTIONS
    ensures "max_over_time" in RANGE_FUNCTIONS
    ensures "count_over_time" in RANGE_FUNCTIONS
    ensures "last_over_time" in RANGE_FUNCTIONS
    ensures "present_over_time" in RANGE_FUNCTIONS
    ensures "stdvar_over_time" in RANGE_FUNCTIONS
    ensures "stddev_over_time" in RANGE_FUNCTIONS
    ensures "quantile_over_time" in RANGE_FUNCTIONS
    ensures "mad_over_time" in RANGE_FUNCTIONS
    ensures "double_exponential_smoothing" in RANGE_FUNCTIONS
  {
  }

  lemma CounterNames(lib: Lib, param: real, smoothing: real, w: seq<Sample>, a: int, b: int)
    requires InWindow(w, a, b)
    ensures WindowValue(lib, "rate", param, smoothing, w, a, b) == ExtrapolatedRate(w, a, b, true, true)
    ensures WindowValue(lib, "increase", param, smoothing, w, a, b) == ExtrapolatedRate(w, a, b, true, false)
    ensures WindowValue(lib, "delta", param, smoothing, w, a, b) == ExtrapolatedRate(w, a, b, false, false)
    ensures WindowValue(lib, "irate", param, smoothing, w, a, b) == IRate(w)
    ensures WindowValue(lib, "idelta", param, smoothing, w, a, b) == IDelta(w)
    ensures WindowValue(lib, "deriv", param, smoothing, w, a, b) == Regression.Deriv(w)
    ensures WindowValue(lib, "predict_linear", param, smoothing, w, a, b) == Regression.PredictLinear(w, b, param)
  {
    hide ExtrapolatedRate;
    hide IRate;
    hide IDelta;
    hide Regression.Deriv;
    hide Regression.PredictLinear;
  }

  /** The others are silent for an empty window only, but for smoothing, which has
      conditions of its own. */
  lemma OverTime(lib: Lib, p: EvalPlan, s: seq<Sample>, t: int)
    requires Increasing(s) && Seen(p, s, t) != []
    ensures var w := Seen(p, s, t);
            var vs := Variance.Values(w);
            && ValueOf(lib, p, "resets", s, t) == Some(Resets(w) as real)
            && ValueOf(lib, p, "changes", s, t) == Some(Changes(w) as real)
            && ValueOf(lib, p, "sum_over_time", s, t) == Some(Variance.Sum(vs))
            && ValueOf(lib, p, "avg_over_time", s, t) == Some(Variance.Mean(vs))
            && ValueOf(lib, p, "min_over_time", s, t) == Some(Least(w))
            && ValueOf(lib, p, "max_over_time", s, t) == Some(Greatest(w))
            && ValueOf(lib, p, "count_over_time", s, t) == Some(|w| as real)
            && ValueOf(lib, p, "stdvar_over_time", s, t) == Some(Variance.PopulationVariance(vs))
            && ValueOf(lib, p, "stddev_over_time", s, t) == Some(lib.sqrt(Variance.PopulationVariance(vs)))
            && ValueOf(lib, p, "last_over_time", s, t) == Some(w[|w| - 1].v)
            && ValueOf(lib, p, "present_over_time", s, t) == Some(1.0)
            && ValueOf(lib, p, "quantile_over_time", s, t) == Some(RealOf(lib, Quantile.QuantileOverTime(p.aggParam, vs)))
            && ValueOf(lib, p, "mad_over_time", s, t) == Some(Quantile.MedianDeviation(vs))
  {
    hide *;
    AllKnown();
    var w := Seen(p, s, t);
    SeenValue(lib, p, "resets", s, t);
    SeenValue(lib, p, "changes", s, t);
    SeenValue(lib, p, "sum_over_time", s, t);
    SeenValue(lib, p, "avg_over_time", s, t);
    SeenValue(lib, p, "min_over_time", s, t);
    SeenValue(lib, p, "max_over_time", s, t);
    SeenValue(lib, p, "count_over_time", s, t);
    SeenValue(lib, p, "stdvar_over_time", s, t);
    SeenValue(lib, p, "stddev_over_time", s, t);
    SeenValue(lib, p, "last_over_time", s, t);
    SeenValue(lib, p, "present_over_time", s, t);
    SeenValue(lib, p, "quantile_over_time", s, t);
    SeenValue(lib, p, "mad_over_time", s, t);
    StatisticsNames(lib, p.aggParam, p.smoothing, w, From(p, t), To(p, t));
    ExtremeNames(lib, p.aggParam, p.smoothing, w, From(p, t), To(p, t));
    CountNames(lib, p.aggParam, p.smoothing, w, From(p, t), To(p, t));
    SpreadNames(lib, p.aggParam, p.smoothing, w, From(p, t), To(p, t));
  }

  lemma StatisticsNames(lib: Lib, param: real, smoothing: real, w: seq<Sample>, a: int, b: int)
    requires InWindow(w, a, b) && w != []
    ensures WindowValue(lib, "resets", param, smoothing, w, a, b) == Some(Resets(w) as real)
    ensures WindowValue(lib, "changes", param, smoothing, w, a, b) == Some(Changes(w) as real)
    ensures WindowValue(lib, "sum_over_time", param, smoothing, w, a, b) == Some(Variance.Sum(Variance.Values(w)))
    ensures WindowValue(lib, "avg_over_time", param, smoothing, w, a, b) == Some(Variance.Mean(Variance.Values(w)))
  {
    hide RealOf;
    hide Variance.Sum;
    hide Variance.Mean;
    hide Variance.Values;
    hide Variance.PopulationVariance;
    hide Quantile.QuantileOverTime;
    hide Quantile.MedianDeviation;
    hide Resets;
    hide Changes;
    hide Least;
    hide Greatest;
  }

  lemma ExtremeNames(lib: Lib, param: real, smoothing: real, w: seq<Sample>, a: int, b: int)
    requires InWindow(w, a, b) && w != []
    ensures WindowValue(lib, "min_over_time", param, smoothing, w, a, b) == Some(Least(w))
    ensures WindowValue(lib, "max_over_time", param, smoothing, w, a, b) == Some(Greatest(w))
  {
    hide RealOf;
    hide Variance.Sum;
    hide Variance.Mean;
    hide Variance.Values;
    hide Variance.PopulationVariance;
    hide Quantile.QuantileOverTime;
    hide Quantile.MedianDeviation;
    hide Resets;
    hide Changes;
    hide Least;
    hide Greatest;
  }

  lemma CountNames(lib: Lib, param: real, smoothing: real, w: seq<Sample>, a: int, b: int)
    requires InWindow(w, a, b) && w != []
    ensures WindowValue(lib, "count_over_time", param, smoothing, w, a, b) == Some(|w| as real)
    ensures WindowValue(lib, "last_over_time", param, smoothing, w, a, b) == Some(w[|w| - 1].v)
    ensures WindowValue(lib, "present_over_time", param, smoothing, w, a, b) == Some(1.0)
  {
    hide RealOf;
    hide Variance.Sum;
    hide Variance.Mean;
    hide Variance.Values;
    hide Variance.PopulationVariance;
    hide Quantile.QuantileOverTime;
    hide Quantile.MedianDeviation;
    hide Resets;
    hide Changes;
    hide Least;
    hide Greatest;
  }

  lemma SpreadNames(lib: Lib, param: real, smoothing: real, w: seq<Sample>, a: int, b: int)
    requires InWindow(w, a, b) && w != []
    ensures WindowValue(lib, "stdvar_over_time", param, smoothing, w, a, b) == Some(Variance.PopulationVariance(Variance.Values(w)))
    ensures WindowValue(lib, "stddev_over_time", param, smoothing, w, a, b) == Some(lib.sqrt(Variance.PopulationVariance(Variance.Values(w))))
    ensures WindowValue(lib, "quantile_over_time", param, smoothing, w, a, b) == Some(RealOf(lib, Quantile.QuantileOverTime(param, Variance.Values(w))))
    ensures WindowValue(lib, "mad_over_time", param, smoothing, w, a, b) == Some(Quantile.MedianDeviation(Variance.Values(w)))
  {
    hide RealOf;
    hide Variance.Sum;
    hide Variance.Mean;
    hide Variance.Values;
    hide Variance.PopulationVariance;
    hide Quantile.QuantileOverTime;
    hide Quantile.MedianDeviation;
    hide Resets;
    hide Changes;
    hide Least;
    hide Greatest;
  }

  // ---- rate, increase, delta, irate, idelta ----

  /** Two samples of the range at different times. */
  ghost predicate Two(p: EvalPlan, s: seq<Sample>, t: int) {
    exists x, y :: InRange(p, s, t, x) && InRange(p, s, t, y) && x.ts < y.ts
  }

  lemma TwoOfSeen(p: EvalPlan, s: seq<Sample>, t: int)
    requires Increasing(s)
    ensures |Seen(p, s, t)| >= 2 <==> Two(p, s, t)
  {
    SeenIsInRange(p, s, t);
    var w := Seen(p, s, t);
    if |w| >= 2 {
      FirstTwo(p, s, t, w);
    }
    hide Seen;
    hide InRange;
    if Two(p, s, t) {
      var x, y :| InRange(p, s, t, x) && InRange(p, s, t, y) && x.ts < y.ts;
      DifferentMembers(w, x, y);
    }
  }

  lemma FirstTwo(p: EvalPlan, s: seq<Sample>, t: int, w: seq<Sample>)
    requires |w| >= 2 && InWindow(w, From(p, t), To(p, t)) && forall x :: x in w ==> InRange(p, s, t, x)
    ensures Two(p, s, t)
  {
    hide InRange;
    assert w[0] in w && w[1] in w && w[0].ts < w[1].ts;
  }

  lemma DifferentMembers(w: seq<Sample>, x: Sample, y: Sample)
    requires x in w && y in w && x != y
    ensures |w| >= 2
  {
  }

  /** Two samples are enough, and needed. */
  lemma TwoSamples(lib: Lib, p: EvalPlan, fn: string, s: seq<Sample>, t: int)
    requires Increasing(s)
    requires fn in {"rate", "increase", "delta", "irate", "idelta", "deriv", "predict_linear"}
    ensures ValueOf(lib, p, fn, s, t).Some? <==> Two(p, s, t)
  {
    Counters(lib, p, s, t);
    TwoOfSeen(p, s, t);
    var w := Seen(p, s, t);
    hide InRange;
    hide ValueOf;
    hide Seen;
    forall isCounter, isRate
      ensures ExtrapolatedRate(w, From(p, t), To(p, t), isCounter, isRate).Some? <==> |w| >= 2
    {
    }
    hide ExtrapolatedRate;
    hide Regression.Slope;
    hide Regression.Intercept;
  }

  /** A rate times the seconds of the range is the increase. */
  lemma RateAndIncrease(lib: Lib, p: EvalPlan, s: seq<Sample>, t: int)
    requires Increasing(s)
    ensures ValueOf(lib, p, "rate", s, t).Some? <==> ValueOf(lib, p, "increase", s, t).Some?
    ensures ValueOf(lib, p, "rate", s, t).Some? ==>
              Times(ValueOf(lib, p, "rate", s, t).value, Seconds(p.rangeMs)) == ValueOf(lib, p, "increase", s, t).value
  {
    hide *;
    Counters(lib, p, s, t);
    RangeIs(p, t);
    RateOfWindow(Seen(p, s, t), From(p, t), To(p, t), p.rangeMs);
  }

  lemma RateOfWindow(w: seq<Sample>, a: int, b: int, rangeMs: int)
    requires InWindow(w, a, b) && rangeMs == b - a
    ensures ExtrapolatedRate(w, a, b, true, true).Some? <==> ExtrapolatedRate(w, a, b, true, false).Some?
    ensures ExtrapolatedRate(w, a, b, true, true).Some? ==>
              Times(ExtrapolatedRate(w, a, b, true, true).value, Seconds(rangeMs)) == ExtrapolatedRate(w, a, b, true, false).value
  {
    hide *;
    RateExists(w, a, b, true, true);
    RateExists(w, a, b, true, false);
    if |w| >= 2 {
      RateTimesWindow(w, a, b);
      TimesIs(ExtrapolatedRate(w, a, b, true, true).value, Seconds(rangeMs));
    }
  }

  lemma TimesIs(x: real, y: real)
    ensures Times(x, y) == x * y
  {
  }

  lemma RateExists(w: seq<Sample>, a: int, b: int, isCounter: bool, isRate: bool)
    requires InWindow(w, a, b)
    ensures ExtrapolatedRate(w, a, b, isCounter, isRate).Some? <==> |w| >= 2
  {
  }

  /** The increase of counters that are not negative lies between what they were seen to
      grow and that growth scaled from their span to the whole range. */
  lemma IncreaseBetween(lib: Lib, p: EvalPlan, s: seq<Sample>, t: int)
    requires Increasing(s) && ValueOf(lib, p, "increase", s, t).Some?
    requires forall x :: InRange(p, s, t, x) ==> x.v >= 0.0
    ensures |Seen(p, s, t)| >= 2 && Span(Seen(p, s, t)) > 0
    ensures var w := Seen(p, s, t);
            Counted(w) <= ValueOf(lib, p, "increase", s, t).value <= Portion(Counted(w), p.rangeMs, Span(w))
  {
    hide *;
    Counters(lib, p, s, t);
    RangeIs(p, t);
    RateExists(Seen(p, s, t), From(p, t), To(p, t), true, false);
    SeenNonNegative(p, s, t);
    IncreaseOfWindow(Seen(p, s, t), From(p, t), To(p, t), p.rangeMs);
  }

  lemma RangeIs(p: EvalPlan, t: int)
    ensures From(p, t) == To(p, t) - p.rangeMs
  {
  }

  lemma SeenNonNegative(p: EvalPlan, s: seq<Sample>, t: int)
    requires Increasing(s) && forall x :: InRange(p, s, t, x) ==> x.v >= 0.0
    ensures NonNegative(Seen(p, s, t))
  {
    SeenIsInRange(p, s, t);
    hide InRange;
    hide Seen;
    forall i | 0 <= i < |Seen(p, s, t)| ensures Seen(p, s, t)[i].v >= 0.0 {
      assert Seen(p, s, t)[i] in Seen(p, s, t);
    }
  }

  lemma IncreaseOfWindow(w: seq<Sample>, a: int, b: int, rangeMs: int)
    requires |w| >= 2 && InWindow(w, a, b) && NonNegative(w) && rangeMs == b - a
    ensures Span(w) > 0 && ExtrapolatedRate(w, a, b, true, false).Some?
    ensures Counted(w) <= ExtrapolatedRate(w, a, b, true, false).value <= Portion(Counted(w), rangeMs, Span(w))
  {
    hide *;
    IncreaseBounds(w, a, b);
    RawIsCounted(w);
    RateExists(w, a, b, true, false);
    PositiveIntervals(w, a, b);
    SpanIs(w);
    ScaledPortion(Counted(w), rangeMs, Span(w));
  }

  lemma SpanIs(w: seq<Sample>)
    requires |w| >= 2
    ensures SampledInterval(w) == Seconds(Span(w)) && Span(w) == w[|w| - 1].ts - w[0].ts
  {
  }

  lemma RawIsCounted(w: seq<Sample>)
    requires |w| >= 2
    ensures RawIncrease(w, true) == Counted(w)
  {
    CountedIsRaw(w);
  }

  lemma ScaledPortion(x: real, part: int, whole: int)
    requires whole > 0
    ensures Seconds(whole) > 0.0 && x * (Seconds(part) / Seconds(whole)) == Portion(x, part, whole)
  {
    var y := part as real / whole as real;
    assert y * whole as real == part as real;
    Quotient(y, Seconds(whole));
    assert y * Seconds(whole) == Seconds(part);
    Quotient(x * y, whole as real);
    assert x * y * whole as real == x * part as real;
  }
}

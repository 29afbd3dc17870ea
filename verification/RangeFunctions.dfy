/** The value of one series at one evaluation time (eval/evaluator.go:544-632 and
    998-1105). */
module RangeFunctions {
  import opened Types
  import opened Plans
  import opened Extrapolate
  import Quantile
  import Regression
  import Smoothing
  import Staleness
  import Variance

  const RANGE_FUNCTIONS: set<string> := {
    "rate", "irate", "increase", "delta", "idelta", "deriv", "predict_linear", "resets", "changes",
    "avg_over_time", "min_over_time", "max_over_time", "sum_over_time", "count_over_time",
    "stddev_over_time", "stdvar_over_time", "last_over_time", "present_over_time",
    "quantile_over_time", "mad_over_time", "double_exponential_smoothing"
  }

  function IRate(s: seq<Sample>): Option<real>
    requires Increasing(s)
  {
    if |s| < 2 then None
    else
      var last, prev := s[|s| - 1], s[|s| - 2];
      assert prev.ts < last.ts;
      var dt := (last.ts - prev.ts) as real / 1000.0;
      Some(if last.v < prev.v then last.v / dt else (last.v - prev.v) / dt)
  }

  function IDelta(s: seq<Sample>): Option<real> {
    if |s| < 2 then None else Some(s[|s| - 1].v - s[|s| - 2].v)
  }

  function Resets(s: seq<Sample>): nat {
    if |s| < 2 then 0
    else Resets(s[..|s| - 1]) + if s[|s| - 1].v < s[|s| - 2].v then 1 else 0
  }

  function Changes(s: seq<Sample>): nat {
    if |s| < 2 then 0
    else Changes(s[..|s| - 1]) + if s[|s| - 1].v != s[|s| - 2].v then 1 else 0
  }

  function Least(s: seq<Sample>): real
    requires |s| > 0
  {
    if |s| == 1 then s[0].v
    else MathMin(s[|s| - 1].v, Least(s[..|s| - 1]))
  }

  function Greatest(s: seq<Sample>): real
    requires |s| > 0
  {
    if |s| == 1 then s[0].v
    else MathMax(s[|s| - 1].v, Greatest(s[..|s| - 1]))
  }

  /** The dispatch on the function name, for the functions that read a window. */
  function WindowValue(lib: Lib, fn: string, param: real, smoothing: real, w: seq<Sample>, rangeStart: int, rangeEnd: int)
    : Option<real>
    requires InWindow(w, rangeStart, rangeEnd)
  {
    match fn
    case "rate" => ExtrapolatedRate(w, rangeStart, rangeEnd, true, true)
    case "increase" => ExtrapolatedRate(w, rangeStart, rangeEnd, true, false)
    case "delta" => ExtrapolatedRate(w, rangeStart, rangeEnd, false, false)
    case "irate" => IRate(w)
    case "idelta" => IDelta(w)
    case "deriv" => Regression.Deriv(w)
    case "predict_linear" => Regression.PredictLinear(w, rangeEnd, param)
    case "double_exponential_smoothing" => Smoothing.DoubleExponentialSmoothing(w, param, smoothing)
    case _ => if |w| == 0 then None else NonEmptyValue(lib, fn, param, w)
  }

  /** The functions that report something for every non-empty window. */
  function NonEmptyValue(lib: Lib, fn: string, param: real, w: seq<Sample>): Option<real>
    requires |w| > 0
  {
    var vs := Variance.Values(w);
    match fn
    case "resets" => Some(Resets(w) as real)
    case "changes" => Some(Changes(w) as real)
    case "sum_over_time" => Some(Variance.Sum(vs))
    case "avg_over_time" => Some(Variance.Mean(vs))
    case "min_over_time" => Some(Least(w))
    case "max_over_time" => Some(Greatest(w))
    case "count_over_time" => Some(|w| as real)
    case "stdvar_over_time" => Some(Variance.PopulationVariance(vs))
    case "stddev_over_time" => Some(lib.sqrt(Variance.PopulationVariance(vs)))
    case "last_over_time" => Some(w[|w| - 1].v)
    case "present_over_time" => Some(1.0)
    case "quantile_over_time" => Some(RealOf(lib, Quantile.QuantileOverTime(param, vs)))
    case "mad_over_time" => Some(Quantile.MedianDeviation(vs))
    case _ => None
  }

  /** No range function reports anything for an empty window. */
  lemma EmptyWindowIsSilent(lib: Lib, fn: string, param: real, smoothing: real, rangeStart: int, rangeEnd: int)
    ensures WindowValue(lib, fn, param, smoothing, [], rangeStart, rangeEnd) == None
  {
  }

  lemma {:induction false} BetweenElements(s: seq<Sample>, a: int, b: int)
    ensures forall x :: x in Staleness.Between(s, a, b) <==> x in s && a < x.ts <= b
  {
    if s != [] {
      BetweenElements(s[1..], a, b);
      assert s == [s[0]] + s[1..];
    }
  }

  lemma FirstInWindow(x: Sample, w: seq<Sample>, a: int, b: int)
    requires InWindow(w, a, b) && a < x.ts <= b && forall y :: y in w ==> x.ts < y.ts
    ensures InWindow([x] + w, a, b)
  {
  }

  lemma {:induction false} BetweenMembers(s: seq<Sample>, a: int, b: int)
    requires Increasing(s)
    ensures InWindow(Staleness.Between(s, a, b), a, b)
    ensures forall x :: x in Staleness.Between(s, a, b) <==> x in s && a < x.ts <= b
  {
    BetweenElements(s, a, b);
    if s != [] {
      var later := s[1..];
      BetweenMembers(later, a, b);
      if a < s[0].ts <= b {
        forall y | y in later ensures s[0].ts < y.ts {
        }
        FirstInWindow(s[0], Staleness.Between(later, a, b), a, b);
      }
    }
    hide InWindow;
  }

  /** The window that a range function sees is a window of increasing samples. */
  function RangeWindow(s: seq<Sample>, a: int, b: int): (w: seq<Sample>)
    requires Increasing(s)
    ensures InWindow(w, a, b)
    ensures w == Staleness.Between(s, a, b)
  {
    Staleness.WindowIsBetween(s, a, b);
    BetweenMembers(s, a, b);
    Staleness.WindowSamples(s, a, b)
  }

  /** computeValueNoOffset: the offset is already applied to `t`. */
  function ComputeValueNoOffset(lib: Lib, plan: EvalPlan, s: seq<Sample>, t: int, staleness: int): Option<real>
    requires Increasing(s)
  {
    if plan.funcName in RANGE_FUNCTIONS then
      WindowValue(lib, plan.funcName, plan.aggParam, plan.smoothing,
                  RangeWindow(s, t - plan.rangeMs, t), t - plan.rangeMs, t)
    else Staleness.InstantValue(s, t, staleness)
  }

  function ComputeValue(lib: Lib, plan: EvalPlan, s: seq<Sample>, t: int, staleness: int): Option<real>
    requires Increasing(s)
  {
    ComputeValueNoOffset(lib, plan, s, if plan.offsetMs != 0 then t - plan.offsetMs else t, staleness)
  }
}

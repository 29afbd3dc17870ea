/** Counter extrapolation for rate, increase and delta (eval/extrapolate.go:16-75). */
module Extrapolate {
  import opened Types

  /** What the evaluator hands to a range function: increasing timestamps inside
      the left-open, right-closed window. */
  ghost predicate InWindow(s: seq<Sample>, rangeStart: int, rangeEnd: int) {
    Increasing(s) && forall i :: 0 <= i < |s| ==> rangeStart < s[i].ts <= rangeEnd
  }

  ghost predicate NonNegative(s: seq<Sample>) {
    forall i :: 0 <= i < |s| ==> 0.0 <= s[i].v
  }

  /** What counter resets took away: the value just before every drop. */
  function Correction(s: seq<Sample>): real {
    if |s| < 2 then 0.0
    else
      var prev, last := s[|s| - 2].v, s[|s| - 1].v;
      Correction(s[..|s| - 1]) + if last < prev then prev else 0.0
  }

  function RawIncrease(s: seq<Sample>, isCounter: bool): real
    requires |s| >= 2
  {
    s[|s| - 1].v - s[0].v + if isCounter then Correction(s) else 0.0
  }

  function Seconds(ms: int): real { ms as real / 1000.0 }

  function SampledInterval(s: seq<Sample>): real
    requires |s| >= 2
  {
    Seconds(s[|s| - 1].ts - s[0].ts)
  }

  function AvgInterval(s: seq<Sample>): real
    requires |s| >= 2
  {
    SampledInterval(s) / (|s| - 1) as real
  }

  /** A gap before the first sample, cut at the point where the fitted line of a
      counter reaches zero. */
  function CapAtZero(gap: real, sampled: real, first: real, raw: real, isCounter: bool): real {
    if isCounter && raw > 0.0 && first >= 0.0 then
      var toZero := sampled * (first / raw);
      if toZero < gap then toZero else gap
    else gap
  }

  lemma CapAtZeroBounds(gap: real, sampled: real, first: real, raw: real, isCounter: bool)
    requires 0.0 <= gap && 0.0 < sampled
    ensures 0.0 <= CapAtZero(gap, sampled, first, raw, isCounter) <= gap
    ensures isCounter && raw > 0.0 && first >= 0.0 ==>
              raw / sampled * CapAtZero(gap, sampled, first, raw, isCounter) <= first
  {
    if isCounter && raw > 0.0 && first >= 0.0 {
      var share, slope, cap := first / raw, raw / sampled, CapAtZero(gap, sampled, first, raw, isCounter);
      assert share >= 0.0;
      assert sampled * share >= 0.0;
      assert slope > 0.0;
      assert slope * cap <= slope * (sampled * share);
      assert slope * (sampled * share) == (slope * sampled) * share;
      assert slope * sampled == raw;
      assert raw * share == first;
    }
  }

  /** Time from the window start to the first sample. */
  function DurationToStart(s: seq<Sample>, rangeStart: int, isCounter: bool): real
    requires |s| >= 2
  {
    CapAtZero(Seconds(s[0].ts - rangeStart), SampledInterval(s), s[0].v, RawIncrease(s, isCounter), isCounter)
  }

  /** Extension past one edge: the whole gap when it is short, half an average
      interval otherwise. */
  function Extension(gap: real, avg: real): real {
    if gap < avg * 1.1 then gap else avg / 2.0
  }

  function StartExtension(s: seq<Sample>, rangeStart: int, isCounter: bool): real
    requires |s| >= 2
  {
    Extension(DurationToStart(s, rangeStart, isCounter), AvgInterval(s))
  }

  function EndExtension(s: seq<Sample>, rangeEnd: int): real
    requires |s| >= 2
  {
    Extension(Seconds(rangeEnd - s[|s| - 1].ts), AvgInterval(s))
  }

  function ExtrapolatedInterval(s: seq<Sample>, rangeStart: int, rangeEnd: int, isCounter: bool): real
    requires |s| >= 2
  {
    SampledInterval(s) + StartExtension(s, rangeStart, isCounter) + EndExtension(s, rangeEnd)
  }

  /** First and last timestamps of two or more increasing samples differ, and so do
      the ends of a window holding them: no division below is by zero. */
  lemma PositiveIntervals(s: seq<Sample>, rangeStart: int, rangeEnd: int)
    requires |s| >= 2 && InWindow(s, rangeStart, rangeEnd)
    ensures SampledInterval(s) > 0.0 && AvgInterval(s) > 0.0
    ensures rangeStart < s[0].ts < s[|s| - 1].ts <= rangeEnd
  {
  }

  /** Scales the observed increase from the sampled to the extrapolated interval. */
  function Scale(raw: real, interval: real, sampled: real, window: real, isCounter: bool, isRate: bool): real
    requires sampled > 0.0 && window > 0.0
  {
    var scaled := raw * (interval / sampled);
    var result := if isRate then scaled / window else scaled;
    if isCounter && result < 0.0 then 0.0 else result
  }

  function ExtrapolatedRate(s: seq<Sample>, rangeStart: int, rangeEnd: int, isCounter: bool, isRate: bool): Option<real>
    requires InWindow(s, rangeStart, rangeEnd)
  {
    if |s| < 2 then None
    else
      PositiveIntervals(s, rangeStart, rangeEnd);
      Some(Scale(RawIncrease(s, isCounter), ExtrapolatedInterval(s, rangeStart, rangeEnd, isCounter),
                 SampledInterval(s), Seconds(rangeEnd - rangeStart), isCounter, isRate))
  }

  /** The program's single pass for the reset correction, then the window
      arithmetic on local variables. */
  method ComputeExtrapolatedRate(s: seq<Sample>, rangeStart: int, rangeEnd: int, isCounter: bool, isRate: bool)
    returns (r: Option<real>)
    requires InWindow(s, rangeStart, rangeEnd)
    ensures r == ExtrapolatedRate(s, rangeStart, rangeEnd, isCounter, isRate)
  {
    var n := |s|;
    if n < 2 {
      return None;
    }
    var first, last := s[0], s[n - 1];
    var correction, lastVal := 0.0, 0.0;
    for i := 0 to n
      invariant lastVal == if i == 0 then 0.0 else s[i - 1].v
      invariant correction == if isCounter then Correction(s[..i]) else 0.0
    {
      assert s[..i + 1][..i] == s[..i];
      if isCounter && s[i].v < lastVal {
        correction := correction + lastVal;
      }
      lastVal := s[i].v;
    }
    assert s[..n] == s;
    PositiveIntervals(s, rangeStart, rangeEnd);
    var raw := last.v - first.v + correction;
    var sampled := Seconds(last.ts - first.ts);
    var avg := sampled / (n - 1) as real;
    var toStart := CapAtZero(Seconds(first.ts - rangeStart), sampled, first.v, raw, isCounter);
    var interval := sampled;
    interval := interval + Extension(toStart, avg);
    interval := interval + Extension(Seconds(rangeEnd - last.ts), avg);
    return Some(Scale(raw, interval, sampled, Seconds(rangeEnd - rangeStart), isCounter, isRate));
  }

  lemma ExtensionWithinGap(gap: real, avg: real)
    requires 0.0 <= gap && 0.0 < avg
    ensures 0.0 <= Extension(gap, avg) <= gap
  {
  }

  lemma DurationToStartBounds(s: seq<Sample>, rangeStart: int, rangeEnd: int, isCounter: bool)
    requires |s| >= 2 && InWindow(s, rangeStart, rangeEnd)
    ensures 0.0 <= DurationToStart(s, rangeStart, isCounter) <= Seconds(s[0].ts - rangeStart)
  {
    PositiveIntervals(s, rangeStart, rangeEnd);
    CapAtZeroBounds(Seconds(s[0].ts - rangeStart), SampledInterval(s), s[0].v, RawIncrease(s, isCounter), isCounter);
  }

  /** The extrapolated interval covers the sampled one and never leaves the window. */
  lemma IntervalWithinWindow(s: seq<Sample>, rangeStart: int, rangeEnd: int, isCounter: bool)
    requires |s| >= 2 && InWindow(s, rangeStart, rangeEnd)
    ensures SampledInterval(s) <= ExtrapolatedInterval(s, rangeStart, rangeEnd, isCounter)
                               <= Seconds(rangeEnd - rangeStart)
  {
    PositiveIntervals(s, rangeStart, rangeEnd);
    DurationToStartBounds(s, rangeStart, rangeEnd, isCounter);
    ExtensionWithinGap(DurationToStart(s, rangeStart, isCounter), AvgInterval(s));
    ExtensionWithinGap(Seconds(rangeEnd - s[|s| - 1].ts), AvgInterval(s));
  }

  /** Extending a growing counter to the left never takes the line through its
      first sample, with the observed slope, below zero. */
  lemma FittedLineStaysNonNegative(s: seq<Sample>, rangeStart: int, rangeEnd: int)
    requires |s| >= 2 && InWindow(s, rangeStart, rangeEnd)
    requires s[0].v >= 0.0 && RawIncrease(s, true) > 0.0
    ensures s[0].v - RawIncrease(s, true) / SampledInterval(s) * StartExtension(s, rangeStart, true) >= 0.0
  {
    PositiveIntervals(s, rangeStart, rangeEnd);
    var gap, slope := DurationToStart(s, rangeStart, true), RawIncrease(s, true) / SampledInterval(s);
    CapAtZeroBounds(Seconds(s[0].ts - rangeStart), SampledInterval(s), s[0].v, RawIncrease(s, true), true);
    ExtensionWithinGap(gap, AvgInterval(s));
    hide CapAtZero;
    hide RawIncrease;
    assert slope > 0.0;
    assert slope * StartExtension(s, rangeStart, true) <= slope * gap;
  }

  /** The sample sequence with every reset undone. */
  function Unwrap(s: seq<Sample>): (r: seq<Sample>)
    ensures |r| == |s|
    ensures forall i :: 0 <= i < |s| ==> r[i].ts == s[i].ts && r[i].v == s[i].v + Correction(s[..i + 1])
  {
    if s == [] then []
    else
      var front := s[..|s| - 1];
      assert s[..|s|] == s;
      assert forall i {:trigger s[..i + 1]} :: 0 <= i < |front| ==> front[..i + 1] == s[..i + 1];
      Unwrap(front) + [s[|s| - 1].(v := s[|s| - 1].v + Correction(s))]
  }

  lemma CorrectionStep(s: seq<Sample>, i: nat)
    requires 0 < i < |s|
    ensures Correction(s[..i + 1]) == Correction(s[..i]) + if s[i].v < s[i - 1].v then s[i - 1].v else 0.0
  {
    assert s[..i + 1][..i] == s[..i];
  }

  lemma UnwrapNonDecreasing(s: seq<Sample>, i: nat)
    requires NonNegative(s) && 0 < i < |s|
    ensures Unwrap(s)[i - 1].v <= Unwrap(s)[i].v
  {
    CorrectionStep(s, i);
  }

  lemma {:induction false} NoCorrection(s: seq<Sample>, n: nat)
    requires n <= |s|
    requires forall i :: 0 < i < |s| ==> s[i - 1].v <= s[i].v
    ensures Correction(s[..n]) == 0.0
  {
    if n >= 2 {
      NoCorrection(s, n - 1);
      CorrectionStep(s, n - 1);
    }
  }

  lemma UnwrapNeedsNoCorrection(s: seq<Sample>)
    requires NonNegative(s)
    ensures Correction(Unwrap(s)) == 0.0
  {
    forall i | 0 < i < |s| ensures Unwrap(s)[i - 1].v <= Unwrap(s)[i].v {
      UnwrapNonDecreasing(s, i);
    }
    NoCorrection(Unwrap(s), |s|);
    assert Unwrap(s)[..|s|] == Unwrap(s);
  }

  lemma UnwrapIncrease(s: seq<Sample>)
    requires |s| >= 2 && NonNegative(s)
    ensures RawIncrease(Unwrap(s), true) == RawIncrease(s, true)
    ensures Unwrap(s)[0].v == s[0].v
  {
    UnwrapNeedsNoCorrection(s);
    assert s[..|s|] == s;
  }

  lemma UnwrapInterval(s: seq<Sample>, rangeStart: int, rangeEnd: int)
    requires |s| >= 2 && NonNegative(s)
    ensures ExtrapolatedInterval(Unwrap(s), rangeStart, rangeEnd, true) == ExtrapolatedInterval(s, rangeStart, rangeEnd, true)
  {
    var u := Unwrap(s);
    UnwrapIncrease(s);
    assert SampledInterval(u) == SampledInterval(s) && AvgInterval(u) == AvgInterval(s);
    assert DurationToStart(u, rangeStart, true) == DurationToStart(s, rangeStart, true);
  }

  /** Undoing the resets first changes nothing: rate and increase see the same
      counter either way. */
  lemma ResetsAreTransparent(s: seq<Sample>, rangeStart: int, rangeEnd: int, isRate: bool)
    requires NonNegative(s) && InWindow(s, rangeStart, rangeEnd)
    ensures InWindow(Unwrap(s), rangeStart, rangeEnd)
    ensures ExtrapolatedRate(Unwrap(s), rangeStart, rangeEnd, true, isRate)
         == ExtrapolatedRate(s, rangeStart, rangeEnd, true, isRate)
  {
    if |s| >= 2 {
      UnwrapIncrease(s);
      UnwrapInterval(s, rangeStart, rangeEnd);
      assert SampledInterval(Unwrap(s)) == SampledInterval(s);
    }
  }

  lemma {:induction false} RawIncreaseNonNegative(s: seq<Sample>)
    requires |s| >= 2 && NonNegative(s)
    ensures RawIncrease(s, true) >= 0.0
  {
    assert Correction(s[..1]) == 0.0;
    if |s| > 2 {
      RawIncreaseNonNegative(s[..|s| - 1]);
    }
  }

  lemma ScaleBounds(raw: real, interval: real, sampled: real, window: real)
    requires 0.0 <= raw && 0.0 < sampled <= interval <= window
    ensures raw <= Scale(raw, interval, sampled, window, true, false) <= raw * (window / sampled)
  {
    var x, y := interval / sampled, window / sampled;
    assert 1.0 <= x <= y;
    assert raw * 1.0 <= raw * x <= raw * y;
  }

  lemma ScaleRate(raw: real, interval: real, sampled: real, window: real)
    requires 0.0 < sampled && 0.0 < window
    ensures Scale(raw, interval, sampled, window, true, true) * window
         == Scale(raw, interval, sampled, window, true, false)
  {
    var scaled := raw * (interval / sampled);
    assert scaled / window * window == scaled;
    assert scaled < 0.0 <==> scaled / window < 0.0;
  }

  /** The clamp at zero never fires for non-negative counters; the reported increase
      is at least the observed growth and at most that growth scaled to the window. */
  lemma IncreaseBounds(s: seq<Sample>, rangeStart: int, rangeEnd: int)
    requires |s| >= 2 && NonNegative(s) && InWindow(s, rangeStart, rangeEnd)
    ensures SampledInterval(s) > 0.0
    ensures 0.0 <= RawIncrease(s, true)
    ensures RawIncrease(s, true) <= ExtrapolatedRate(s, rangeStart, rangeEnd, true, false).value
         <= RawIncrease(s, true) * (Seconds(rangeEnd - rangeStart) / SampledInterval(s))
  {
    PositiveIntervals(s, rangeStart, rangeEnd);
    RawIncreaseNonNegative(s);
    IntervalWithinWindow(s, rangeStart, rangeEnd, true);
    ScaleBounds(RawIncrease(s, true), ExtrapolatedInterval(s, rangeStart, rangeEnd, true), SampledInterval(s),
                Seconds(rangeEnd - rangeStart));
  }

  /** rate times the window length in seconds is increase, clamped or not. */
  lemma RateTimesWindow(s: seq<Sample>, rangeStart: int, rangeEnd: int)
    requires |s| >= 2 && InWindow(s, rangeStart, rangeEnd)
    ensures ExtrapolatedRate(s, rangeStart, rangeEnd, true, true).value * Seconds(rangeEnd - rangeStart)
         == ExtrapolatedRate(s, rangeStart, rangeEnd, true, false).value
  {
    PositiveIntervals(s, rangeStart, rangeEnd);
    ScaleRate(RawIncrease(s, true), ExtrapolatedInterval(s, rangeStart, rangeEnd, true), SampledInterval(s),
              Seconds(rangeEnd - rangeStart));
  }
}

/** What rate, increase and delta report, stated on the samples: the growth inside the window
    plus what is added for the time before its first and after its last sample. */
module ExtrapolateExact {
  import opened Types
  import opened Extrapolate

  /** What a counter adds from one sample to the next: after a reset it has started again
      from zero. */
  function Step(prev: real, cur: real): real {
    if cur < prev then cur else cur - prev
  }

  /** The growth of a counter over its samples, step by step. */
  function Counted(s: seq<Sample>): real {
    if |s| < 2 then 0.0 else Counted(s[..|s| - 1]) + Step(s[|s| - 2].v, s[|s| - 1].v)
  }

  function Growth(s: seq<Sample>, isCounter: bool): real
    requires |s| >= 2
  {
    if isCounter then Counted(s) else s[|s| - 1].v - s[0].v
  }

  lemma {:induction false} CountedIsRaw(s: seq<Sample>)
    requires |s| >= 1
    ensures Counted(s) == s[|s| - 1].v - s[0].v + Correction(s)
  {
    if |s| >= 2 {
      CountedIsRaw(s[..|s| - 1]);
    }
  }

  lemma GrowthIsRaw(s: seq<Sample>, isCounter: bool)
    requires |s| >= 2
    ensures Growth(s, isCounter) == RawIncrease(s, isCounter)
  {
    CountedIsRaw(s);
  }

  // ---- Gaps ----

  function Span(s: seq<Sample>): int
    requires |s| >= 2
  {
    s[|s| - 1].ts - s[0].ts
  }

  function GapBefore(s: seq<Sample>, rangeStart: int): int
    requires |s| >= 2
  {
    s[0].ts - rangeStart
  }

  function GapAfter(s: seq<Sample>, rangeEnd: int): int
    requires |s| >= 2
  {
    rangeEnd - s[|s| - 1].ts
  }

  /** Shorter than 1.1 average intervals of the samples. */
  predicate IsShort(s: seq<Sample>, gap: int)
    requires |s| >= 2
  {
    10 * gap * (|s| - 1) < 11 * Span(s)
  }

  /** The line through the growth of a counter reaches zero inside the gap before the first
      sample. */
  predicate StartsInside(s: seq<Sample>, rangeStart: int, isCounter: bool)
    requires |s| >= 2
  {
    && isCounter && Growth(s, isCounter) > 0.0 && s[0].v >= 0.0
    && s[0].v * Span(s) as real < Growth(s, isCounter) * GapBefore(s, rangeStart) as real
  }

  /** The zero point is less than 1.1 average intervals away. */
  predicate StartIsNear(s: seq<Sample>, isCounter: bool)
    requires |s| >= 2
  {
    10.0 * s[0].v * (|s| - 1) as real < 11.0 * Growth(s, isCounter)
  }

  // ---- Arithmetic ----

  lemma ShortSeconds(gap: int, span: int, m: int)
    requires span > 0 && m > 0
    ensures Seconds(gap) < Seconds(span) / m as real * 1.1 <==> 10 * gap * m < 11 * span
  {
    var avg := Seconds(span) / m as real;
    assert avg * m as real == Seconds(span);
    assert (10 * gap * m) as real == Seconds(gap) * m as real * 10000.0;
    if Seconds(gap) < avg * 1.1 {
      assert Seconds(gap) * m as real < avg * 1.1 * m as real;
    } else {
      assert Seconds(gap) * m as real >= avg * 1.1 * m as real;
    }
  }

  lemma NearSeconds(first: real, growth: real, span: int, m: int)
    requires span > 0 && m > 0 && growth > 0.0
    ensures Seconds(span) * (first / growth) < Seconds(span) / m as real * 1.1 <==> 10.0 * first * m as real < 11.0 * growth
  {
    var share, avg, sec := first / growth, Seconds(span) / m as real, Seconds(span);
    assert share * growth == first && avg * m as real == sec;
    var x, y := share * m as real, 1.1;
    assert sec * share * m as real == sec * x && avg * 1.1 * m as real == sec * y;
    assert x * growth == first * m as real;
    if sec * share < avg * 1.1 {
      assert sec * share * m as real < avg * 1.1 * m as real;
      assert sec * x < sec * y;
      assert x < y;
      assert x * growth < y * growth;
    } else {
      assert sec * share * m as real >= avg * 1.1 * m as real;
      assert sec * x >= sec * y;
      assert x >= y;
      assert x * growth >= y * growth;
    }
  }

  lemma InsideSeconds(first: real, growth: real, span: int, gap: int)
    requires span > 0 && growth > 0.0
    ensures Seconds(span) * (first / growth) < Seconds(gap) <==> first * span as real < growth * gap as real
  {
    var share, sec := first / growth, Seconds(span);
    assert share * growth == first;
    assert sec * share * growth == sec * first;
    if sec * share < Seconds(gap) {
      assert sec * share * growth < Seconds(gap) * growth;
    } else {
      assert sec * share * growth >= Seconds(gap) * growth;
    }
  }

  /** The part of `x` that `part` is of `whole`. */
  function Portion(x: real, part: int, whole: int): real
    requires whole > 0
  {
    x * part as real / whole as real
  }

  /** What a line that rises by `slope` a second rises in some milliseconds. */
  function Rise(slope: real, ms: int): real {
    slope * (ms as real / 1000.0)
  }

  function PerSecond(x: real, ms: int): real
    requires ms > 0
  {
    x / (ms as real / 1000.0)
  }

  function Share(raw: real, part: real, sampled: real): real
    requires sampled > 0.0
  {
    raw * part / sampled
  }

  function Stretched(raw: real, interval: real, sampled: real): real
    requires sampled > 0.0
  {
    raw * (interval / sampled)
  }

  lemma Quotient(k: real, c: real)
    requires c > 0.0
    ensures (k * c) / c == k
  {
  }

  lemma ScaledSum(raw: real, sampled: real, before: real, after: real)
    requires sampled > 0.0
    ensures Stretched(raw, sampled + before + after, sampled) == raw + Share(raw, before, sampled) + Share(raw, after, sampled)
  {
    var x, y := before / sampled, after / sampled;
    assert x * sampled == before && y * sampled == after;
    Quotient(1.0 + x + y, sampled);
    assert (1.0 + x + y) * sampled == sampled + before + after;
    Quotient(raw * x, sampled);
    Quotient(raw * y, sampled);
    assert raw * before == raw * x * sampled && raw * after == raw * y * sampled;
    assert raw * (1.0 + x + y) == raw + raw * x + raw * y;
  }

  lemma WholeGap(raw: real, gap: int, span: int)
    requires span > 0
    ensures Share(raw, Seconds(gap), Seconds(span)) == Portion(raw, gap, span)
  {
    var x := raw * gap as real / span as real;
    assert x * span as real == raw * gap as real;
    assert x * Seconds(span) == raw * Seconds(gap);
  }

  lemma HalfInterval(raw: real, sampled: real, m: int)
    requires sampled > 0.0 && m > 0
    ensures Share(raw, sampled / m as real / 2.0, sampled) == Portion(raw, 1, 2 * m)
  {
    var avg, x := sampled / m as real, raw / (2 * m) as real;
    assert avg * m as real == sampled && x * (2 * m) as real == raw;
    assert x * sampled == x * m as real * avg;
    assert x * m as real == raw / 2.0;
    assert raw * (avg / 2.0) == x * sampled;
  }

  lemma BackToZero(raw: real, sampled: real, first: real)
    requires sampled > 0.0 && raw > 0.0
    ensures Share(raw, sampled * (first / raw), sampled) == first
  {
    var share := first / raw;
    assert raw * share == first;
    assert raw * (sampled * share) == first * sampled;
  }

  // ---- Main results ----

  /** What the time before the first sample adds: the growth goes on at its rate through a
      short gap, but not below zero, and for half an average interval into a long one. */
  function Before(s: seq<Sample>, rangeStart: int, isCounter: bool): real
    requires |s| >= 2 && Span(s) > 0
  {
    var growth := Growth(s, isCounter);
    var half := Portion(growth, 1, 2 * (|s| - 1));
    if StartsInside(s, rangeStart, isCounter) then if StartIsNear(s, isCounter) then s[0].v else half
    else if IsShort(s, GapBefore(s, rangeStart)) then Portion(growth, GapBefore(s, rangeStart), Span(s))
    else half
  }

  function After(s: seq<Sample>, rangeEnd: int, isCounter: bool): real
    requires |s| >= 2 && Span(s) > 0
  {
    var growth := Growth(s, isCounter);
    if IsShort(s, GapAfter(s, rangeEnd)) then Portion(growth, GapAfter(s, rangeEnd), Span(s))
    else Portion(growth, 1, 2 * (|s| - 1))
  }

  /** Where the line reaches zero, in seconds before the first sample. */
  function ToZero(s: seq<Sample>, isCounter: bool): real
    requires |s| >= 2 && Growth(s, isCounter) > 0.0
  {
    SampledInterval(s) * (s[0].v / Growth(s, isCounter))
  }

  lemma InsideMeans(s: seq<Sample>, rangeStart: int, rangeEnd: int, isCounter: bool)
    requires |s| >= 2 && InWindow(s, rangeStart, rangeEnd)
    ensures StartsInside(s, rangeStart, isCounter)
            <==> isCounter && Growth(s, isCounter) > 0.0 && s[0].v >= 0.0
                 && ToZero(s, isCounter) < Seconds(GapBefore(s, rangeStart))
    ensures Growth(s, isCounter) > 0.0 ==> (StartIsNear(s, isCounter) <==> ToZero(s, isCounter) < AvgInterval(s) * 1.1)
  {
    var growth := Growth(s, isCounter);
    PositiveIntervals(s, rangeStart, rangeEnd);
    if growth > 0.0 {
      NearSeconds(s[0].v, growth, Span(s), |s| - 1);
      InsideSeconds(s[0].v, growth, Span(s), GapBefore(s, rangeStart));
    }
    hide Growth;
  }

  lemma ShortMeans(s: seq<Sample>, gap: int)
    requires |s| >= 2 && Increasing(s)
    ensures IsShort(s, gap) <==> Seconds(gap) < AvgInterval(s) * 1.1
  {
    ShortSeconds(gap, Span(s), |s| - 1);
  }

  lemma CapMeans(s: seq<Sample>, rangeStart: int, rangeEnd: int, isCounter: bool)
    requires |s| >= 2 && InWindow(s, rangeStart, rangeEnd)
    ensures DurationToStart(s, rangeStart, isCounter)
         == if StartsInside(s, rangeStart, isCounter) then ToZero(s, isCounter) else Seconds(GapBefore(s, rangeStart))
  {
    InsideMeans(s, rangeStart, rangeEnd, isCounter);
    GrowthIsRaw(s, isCounter);
    hide StartsInside;
    hide Growth;
    hide RawIncrease;
    hide Seconds;
    hide SampledInterval;
  }

  lemma StartCases(s: seq<Sample>, rangeStart: int, rangeEnd: int, isCounter: bool)
    requires |s| >= 2 && InWindow(s, rangeStart, rangeEnd)
    ensures StartExtension(s, rangeStart, isCounter)
         == if StartsInside(s, rangeStart, isCounter)
            then if StartIsNear(s, isCounter) then ToZero(s, isCounter) else AvgInterval(s) / 2.0
            else if IsShort(s, GapBefore(s, rangeStart)) then Seconds(GapBefore(s, rangeStart))
            else AvgInterval(s) / 2.0
  {
    InsideMeans(s, rangeStart, rangeEnd, isCounter);
    CapMeans(s, rangeStart, rangeEnd, isCounter);
    ShortMeans(s, GapBefore(s, rangeStart));
    hide StartsInside;
    hide StartIsNear;
    hide IsShort;
    hide Growth;
    hide ToZero;
    hide Seconds;
    hide AvgInterval;
    hide DurationToStart;
  }

  lemma Shares(s: seq<Sample>, gap: int, isCounter: bool)
    requires |s| >= 2 && Increasing(s)
    ensures SampledInterval(s) > 0.0 && Span(s) > 0
    ensures var growth, sampled := Growth(s, isCounter), SampledInterval(s);
            && Share(growth, Seconds(gap), sampled) == Portion(growth, gap, Span(s))
            && Share(growth, AvgInterval(s) / 2.0, sampled) == Portion(growth, 1, 2 * (|s| - 1))
            && (growth > 0.0 ==> Share(growth, ToZero(s, isCounter), sampled) == s[0].v)
  {
    var growth, sampled := Growth(s, isCounter), SampledInterval(s);
    assert sampled == Seconds(Span(s)) > 0.0;
    WholeGap(growth, gap, Span(s));
    HalfInterval(growth, sampled, |s| - 1);
    if growth > 0.0 {
      BackToZero(growth, sampled, s[0].v);
    }
    hide Growth;
    hide Share;
    hide Portion;
  }

  lemma BeforeMeaning(s: seq<Sample>, rangeStart: int, rangeEnd: int, isCounter: bool)
    requires |s| >= 2 && InWindow(s, rangeStart, rangeEnd)
    ensures SampledInterval(s) > 0.0 && Span(s) > 0
    ensures Share(Growth(s, isCounter), StartExtension(s, rangeStart, isCounter), SampledInterval(s))
         == Before(s, rangeStart, isCounter)
  {
    StartCases(s, rangeStart, rangeEnd, isCounter);
    Shares(s, GapBefore(s, rangeStart), isCounter);
    assert StartsInside(s, rangeStart, isCounter) ==> Growth(s, isCounter) > 0.0;
    hide StartsInside;
    hide StartIsNear;
    hide IsShort;
    hide Growth;
    hide ToZero;
    hide Share;
    hide Portion;
    hide StartExtension;
    hide SampledInterval;
    hide AvgInterval;
    hide Seconds;
  }

  lemma AfterMeaning(s: seq<Sample>, rangeStart: int, rangeEnd: int, isCounter: bool)
    requires |s| >= 2 && InWindow(s, rangeStart, rangeEnd)
    ensures SampledInterval(s) > 0.0 && Span(s) > 0
    ensures Share(Growth(s, isCounter), EndExtension(s, rangeEnd), SampledInterval(s)) == After(s, rangeEnd, isCounter)
  {
    ShortMeans(s, GapAfter(s, rangeEnd));
    Shares(s, GapAfter(s, rangeEnd), isCounter);
    hide IsShort;
    hide Growth;
    hide Share;
    hide Portion;
    hide SampledInterval;
    hide AvgInterval;
    hide Seconds;
  }

  lemma Scaled(raw: real, interval: real, sampled: real, ms: int, isCounter: bool, all: real)
    requires sampled > 0.0 && ms > 0 && Stretched(raw, interval, sampled) == all
    ensures Seconds(ms) > 0.0
    ensures var r := Reported(isCounter, all);
            && Scale(raw, interval, sampled, Seconds(ms), isCounter, false) == r
            && Scale(raw, interval, sampled, Seconds(ms), isCounter, true) == PerSecond(r, ms)
  {
    var window := Seconds(ms);
    assert all < 0.0 <==> all / window < 0.0;
    assert 0.0 / window == 0.0;
  }

  /** A counter that would be seen to shrink reports nothing gained. */
  function Reported(isCounter: bool, x: real): real {
    if isCounter && x < 0.0 then 0.0 else x
  }

  function AllParts(s: seq<Sample>, rangeStart: int, rangeEnd: int, isCounter: bool): real
    requires |s| >= 2 && Span(s) > 0
  {
    Growth(s, isCounter) + Before(s, rangeStart, isCounter) + After(s, rangeEnd, isCounter)
  }

  lemma ScaledParts(s: seq<Sample>, rangeStart: int, rangeEnd: int, isCounter: bool)
    requires |s| >= 2 && InWindow(s, rangeStart, rangeEnd)
    ensures SampledInterval(s) > 0.0 && Span(s) > 0
    ensures Stretched(RawIncrease(s, isCounter), ExtrapolatedInterval(s, rangeStart, rangeEnd, isCounter), SampledInterval(s))
         == AllParts(s, rangeStart, rangeEnd, isCounter)
  {
    hide *;
    GrowthIsRaw(s, isCounter);
    PositiveIntervals(s, rangeStart, rangeEnd);
    BeforeMeaning(s, rangeStart, rangeEnd, isCounter);
    AfterMeaning(s, rangeStart, rangeEnd, isCounter);
    ScaledSum(Growth(s, isCounter), SampledInterval(s), StartExtension(s, rangeStart, isCounter), EndExtension(s, rangeEnd));
    PartsAre(s, rangeStart, rangeEnd, isCounter);
  }

  lemma PartsAre(s: seq<Sample>, rangeStart: int, rangeEnd: int, isCounter: bool)
    requires |s| >= 2 && Span(s) > 0
    ensures ExtrapolatedInterval(s, rangeStart, rangeEnd, isCounter)
         == SampledInterval(s) + StartExtension(s, rangeStart, isCounter) + EndExtension(s, rangeEnd)
    ensures AllParts(s, rangeStart, rangeEnd, isCounter)
         == Growth(s, isCounter) + Before(s, rangeStart, isCounter) + After(s, rangeEnd, isCounter)
  {
  }

  /** increase and delta report the growth plus both additions, rate divides that by the
      seconds of the window. */
  lemma ReportedParts(s: seq<Sample>, rangeStart: int, rangeEnd: int, isCounter: bool)
    requires |s| >= 2 && InWindow(s, rangeStart, rangeEnd)
    ensures rangeStart < rangeEnd && Span(s) > 0
    ensures var r := Reported(isCounter, AllParts(s, rangeStart, rangeEnd, isCounter));
            && ExtrapolatedRate(s, rangeStart, rangeEnd, isCounter, false) == Some(r)
            && ExtrapolatedRate(s, rangeStart, rangeEnd, isCounter, true) == Some(PerSecond(r, rangeEnd - rangeStart))
  {
    hide *;
    PositiveIntervals(s, rangeStart, rangeEnd);
    ScaledParts(s, rangeStart, rangeEnd, isCounter);
    Scaled(RawIncrease(s, isCounter), ExtrapolatedInterval(s, rangeStart, rangeEnd, isCounter), SampledInterval(s),
           rangeEnd - rangeStart, isCounter, AllParts(s, rangeStart, rangeEnd, isCounter));
    RateIsScaled(s, rangeStart, rangeEnd, isCounter, false);
    RateIsScaled(s, rangeStart, rangeEnd, isCounter, true);
  }

  lemma RateIsScaled(s: seq<Sample>, rangeStart: int, rangeEnd: int, isCounter: bool, isRate: bool)
    requires |s| >= 2 && InWindow(s, rangeStart, rangeEnd)
    ensures SampledInterval(s) > 0.0 && rangeStart < rangeEnd && Seconds(rangeEnd - rangeStart) > 0.0
    ensures ExtrapolatedRate(s, rangeStart, rangeEnd, isCounter, isRate)
         == Some(Scale(RawIncrease(s, isCounter), ExtrapolatedInterval(s, rangeStart, rangeEnd, isCounter),
                       SampledInterval(s), Seconds(rangeEnd - rangeStart), isCounter, isRate))
  {
    PositiveIntervals(s, rangeStart, rangeEnd);
    hide Scale;
    hide ExtrapolatedInterval;
    hide RawIncrease;
  }

  // ---- When the whole window counts, and what a line gives ----

  /** The extrapolated interval is the whole window exactly when both gaps are short and the
      counter has not started inside the first. */
  lemma WholeWindowExactly(s: seq<Sample>, rangeStart: int, rangeEnd: int, isCounter: bool)
    requires |s| >= 2 && InWindow(s, rangeStart, rangeEnd)
    ensures ExtrapolatedInterval(s, rangeStart, rangeEnd, isCounter) == Seconds(rangeEnd - rangeStart)
            <==> && IsShort(s, GapBefore(s, rangeStart)) && IsShort(s, GapAfter(s, rangeEnd))
                 && !StartsInside(s, rangeStart, isCounter)
  {
    PositiveIntervals(s, rangeStart, rangeEnd);
    InsideMeans(s, rangeStart, rangeEnd, isCounter);
    CapMeans(s, rangeStart, rangeEnd, isCounter);
    ShortMeans(s, GapBefore(s, rangeStart));
    ShortMeans(s, GapAfter(s, rangeEnd));
    hide StartsInside;
    hide StartIsNear;
    hide IsShort;
    hide Growth;
    hide ToZero;
    hide AvgInterval;
    hide DurationToStart;
  }

  /** The samples lie on a line that rises by `slope` a second. */
  ghost predicate OnLine(s: seq<Sample>, slope: real) {
    forall i :: 0 <= i < |s| ==> s[i].v == s[0].v + Rise(slope, s[i].ts - s[0].ts)
  }

  lemma RiseMonotone(slope: real, t: int, u: int)
    requires slope >= 0.0 && t <= u
    ensures Rise(slope, t) <= Rise(slope, u) && Rise(slope, 0) == 0.0
  {
  }

  lemma LineNeverFalls(s: seq<Sample>, slope: real)
    requires Increasing(s) && OnLine(s, slope) && slope >= 0.0
    ensures forall i :: 0 < i < |s| ==> s[i - 1].v <= s[i].v
  {
    forall i | 0 < i < |s| ensures s[i - 1].v <= s[i].v {
      RiseMonotone(slope, s[i - 1].ts - s[0].ts, s[i].ts - s[0].ts);
    }
    hide Rise;
  }

  /** Of samples on a line the growth is the slope times their span; a counter needs a line
      that does not fall. */
  lemma LineGrowth(s: seq<Sample>, slope: real, isCounter: bool)
    requires |s| >= 2 && Increasing(s) && OnLine(s, slope) && (isCounter ==> slope >= 0.0)
    ensures Growth(s, isCounter) == Rise(slope, Span(s))
  {
    hide Rise;
    if isCounter {
      LineNeverFalls(s, slope);
      NoCorrection(s, |s|);
      assert s[..|s|] == s;
      CountedIsRaw(s);
    }
  }

  lemma PartOfLine(slope: real, part: int, span: int)
    requires span > 0
    ensures Portion(Rise(slope, span), part, span) == Rise(slope, part)
  {
    var x := slope * (part as real / 1000.0);
    Quotient(x, span as real);
    assert slope * (span as real / 1000.0) * part as real == x * span as real;
  }

  lemma RisesAdd(slope: real, a: int, b: int, c: int)
    ensures Rise(slope, a) + Rise(slope, b) + Rise(slope, c) == Rise(slope, a + b + c)
  {
  }

  lemma RisePerSecond(slope: real, ms: int)
    requires ms > 0
    ensures PerSecond(Rise(slope, ms), ms) == slope
  {
    Quotient(slope, ms as real / 1000.0);
  }

  /** Samples on a line, with short gaps on both sides and no zero inside the window for a
      counter: increase and delta are the slope times the seconds of the window, and the
      rate is the slope. */
  lemma LineIsExact(s: seq<Sample>, rangeStart: int, rangeEnd: int, isCounter: bool, slope: real)
    requires |s| >= 2 && InWindow(s, rangeStart, rangeEnd) && OnLine(s, slope) && (isCounter ==> slope >= 0.0)
    requires IsShort(s, GapBefore(s, rangeStart)) && IsShort(s, GapAfter(s, rangeEnd))
    requires !StartsInside(s, rangeStart, isCounter)
    ensures ExtrapolatedRate(s, rangeStart, rangeEnd, isCounter, false) == Some(Rise(slope, rangeEnd - rangeStart))
    ensures ExtrapolatedRate(s, rangeStart, rangeEnd, isCounter, true) == Some(slope)
  {
    PositiveIntervals(s, rangeStart, rangeEnd);
    assert Increasing(s) && Span(s) > 0;
    hide ExtrapolatedRate;
    hide Growth;
    hide OnLine;
    hide StartsInside;
    hide IsShort;
    hide Portion;
    hide Rise;
    hide PerSecond;
    ReportedParts(s, rangeStart, rangeEnd, isCounter);
    LineGrowth(s, slope, isCounter);
    PartOfLine(slope, GapBefore(s, rangeStart), Span(s));
    PartOfLine(slope, GapAfter(s, rangeEnd), Span(s));
    RisesAdd(slope, Span(s), GapBefore(s, rangeStart), GapAfter(s, rangeEnd));
    RisePerSecond(slope, rangeEnd - rangeStart);
    if isCounter {
      RiseMonotone(slope, 0, rangeEnd - rangeStart);
    }
  }

  lemma HalvesOnBothSides(growth: real, m: int)
    requires m > 0
    ensures growth + Portion(growth, 1, 2 * m) + Portion(growth, 1, 2 * m) == Portion(growth, m + 1, m)
    ensures growth >= 0.0 ==> Portion(growth, m + 1, m) >= 0.0
  {
    var x := growth / (2 * m) as real;
    assert x * (2 * m) as real == growth;
    assert Portion(growth, 1, 2 * m) == x;
    Quotient(growth + x + x, m as real);
    assert (growth + x + x) * m as real == growth * (m + 1) as real;
  }

  /** With long gaps on both sides, before and after a cut at zero, n samples stand for n
      intervals. */
  lemma LongGaps(s: seq<Sample>, rangeStart: int, rangeEnd: int, isCounter: bool)
    requires |s| >= 2 && InWindow(s, rangeStart, rangeEnd)
    requires !IsShort(s, GapBefore(s, rangeStart)) && !IsShort(s, GapAfter(s, rangeEnd))
    requires StartsInside(s, rangeStart, isCounter) ==> !StartIsNear(s, isCounter)
    requires isCounter ==> Growth(s, isCounter) >= 0.0
    ensures ExtrapolatedRate(s, rangeStart, rangeEnd, isCounter, false) == Some(Portion(Growth(s, isCounter), |s|, |s| - 1))
  {
    assert Increasing(s);
    hide ExtrapolatedRate;
    hide Growth;
    hide StartsInside;
    hide StartIsNear;
    hide IsShort;
    hide Portion;
    ReportedParts(s, rangeStart, rangeEnd, isCounter);
    HalvesOnBothSides(Growth(s, isCounter), |s| - 1);
  }

  lemma NoPortion(x: real, whole: int)
    requires whole > 0
    ensures Portion(x, 0, whole) == 0.0
  {
  }

  /** A counter whose line reaches zero a little before its first sample has grown, at that
      sample, by its value. */
  lemma StartedInside(s: seq<Sample>, rangeStart: int, rangeEnd: int)
    requires |s| >= 2 && InWindow(s, rangeStart, rangeEnd)
    requires StartsInside(s, rangeStart, true) && StartIsNear(s, true) && GapAfter(s, rangeEnd) == 0
    ensures ExtrapolatedRate(s, rangeStart, rangeEnd, true, false) == Some(s[0].v + Counted(s))
  {
    PositiveIntervals(s, rangeStart, rangeEnd);
    assert IsShort(s, 0) && Growth(s, true) == Counted(s) && Counted(s) > 0.0 && s[0].v >= 0.0;
    hide ExtrapolatedRate;
    hide Counted;
    hide StartsInside;
    hide StartIsNear;
    hide IsShort;
    hide Portion;
    ReportedParts(s, rangeStart, rangeEnd, true);
    NoPortion(Counted(s), Span(s));
  }
}

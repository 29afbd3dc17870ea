/** Windowed evaluation of pre-aggregated buckets with two pointers
    (proxy/server/handlers/query.go:479-685). */
module SlidingWindow {
  import opened Types
  import opened Columns
  import opened Reals

  /** A bucket of either kind: the counter path reads the total and the two times, the gauge
      path the four statistics. */
  datatype Bucket = Bucket(ts: int, counterTotal: real, firstTime: int, lastTime: int,
                           valSum: real, valCount: nat, valMin: real, valMax: real)

  ghost predicate SortedBuckets(bs: seq<Bucket>) {
    forall i, j :: 0 <= i < j < |bs| ==> bs[i].ts <= bs[j].ts
  }

  ghost predicate SortedSteps(ts: seq<int>) {
    forall i, j :: 0 <= i < j < |ts| ==> ts[i] <= ts[j]
  }

  // ---- Meaning ----

  /** The buckets in (a, b]. */
  function Window(bs: seq<Bucket>, a: int, b: int): seq<Bucket> {
    if bs == [] then []
    else
      var x := bs[|bs| - 1];
      Window(bs[..|bs| - 1], a, b) + if a < x.ts <= b then [x] else []
  }

  function TotalSum(w: seq<Bucket>): real {
    if w == [] then 0.0 else TotalSum(w[..|w| - 1]) + w[|w| - 1].counterTotal
  }

  function FirstTime(w: seq<Bucket>): int
    requires w != []
  {
    if |w| == 1 then w[0].firstTime
    else
      var m := FirstTime(w[..|w| - 1]);
      if w[|w| - 1].firstTime < m then w[|w| - 1].firstTime else m
  }

  function LastTime(w: seq<Bucket>): int
    requires w != []
  {
    if |w| == 1 then w[0].lastTime
    else
      var m := LastTime(w[..|w| - 1]);
      if w[|w| - 1].lastTime > m then w[|w| - 1].lastTime else m
  }

  function ValSum(w: seq<Bucket>): real {
    if w == [] then 0.0 else ValSum(w[..|w| - 1]) + w[|w| - 1].valSum
  }

  function ValCount(w: seq<Bucket>): nat {
    if w == [] then 0 else ValCount(w[..|w| - 1]) + w[|w| - 1].valCount
  }

  function ValMin(w: seq<Bucket>): real
    requires w != []
  {
    if |w| == 1 then w[0].valMin
    else
      var m := ValMin(w[..|w| - 1]);
      if w[|w| - 1].valMin < m then w[|w| - 1].valMin else m
  }

  function ValMax(w: seq<Bucket>): real
    requires w != []
  {
    if |w| == 1 then w[0].valMax
    else
      var m := ValMax(w[..|w| - 1]);
      if w[|w| - 1].valMax > m then w[|w| - 1].valMax else m
  }

  /** Scales the sum to the window, but never by more than five per cent. */
  function Factor(rangeMs: int, span: int, count: nat): real {
    if span > 0 && count > 1 then
      var f := rangeMs as real / span as real;
      if f > 1.05 then 1.05 else f
    else 1.0
  }

  function CounterValue(fn: string, rangeMs: int, w: seq<Bucket>): real
    requires rangeMs > 0 && w != []
  {
    var sum := Times(TotalSum(w), Factor(rangeMs, LastTime(w) - FirstTime(w), |w|));
    match fn
    case "rate" => sum / (rangeMs as real / 1000.0)
    case "increase" => sum
    case _ => 0.0
  }

  function GaugeValue(fn: string, w: seq<Bucket>): real
    requires w != []
  {
    match fn
    case "avg_over_time" => if ValCount(w) > 0 then ValSum(w) / ValCount(w) as real else 0.0
    case "min_over_time" => ValMin(w)
    case "max_over_time" => ValMax(w)
    case "sum_over_time" => ValSum(w)
    case "count_over_time" => ValCount(w) as real
    case _ => 0.0
  }

  datatype Kind = Counter | Gauge

  function WindowedValue(kind: Kind, fn: string, rangeMs: int, w: seq<Bucket>): real
    requires rangeMs > 0 && w != []
  {
    if kind.Counter? then CounterValue(fn, rangeMs, w) else GaugeValue(fn, w)
  }

  /** One sample for every step whose window holds a bucket. */
  function WindowedPoints(kind: Kind, bs: seq<Bucket>, fn: string, rangeMs: int, steps: seq<int>): seq<Point>
    requires rangeMs > 0
  {
    if steps == [] then []
    else
      var t := steps[|steps| - 1];
      var w := Window(bs, t - rangeMs, t);
      WindowedPoints(kind, bs, fn, rangeMs, steps[..|steps| - 1])
      + if w == [] then [] else [Point(t, WindowedValue(kind, fn, rangeMs, w))]
  }

  // ---- A window of sorted buckets is a slice ----

  lemma {:induction false} WindowMembers(bs: seq<Bucket>, a: int, b: int)
    ensures forall x :: x in Window(bs, a, b) <==> x in bs && a < x.ts <= b
  {
    if bs != [] {
      WindowMembers(bs[..|bs| - 1], a, b);
      assert bs == bs[..|bs| - 1] + [bs[|bs| - 1]];
    }
  }

  function Smaller(i: nat, j: nat): nat { if i < j then i else j }

  lemma WindowSnoc(bs: seq<Bucket>, a: int, b: int, k: nat)
    requires k < |bs|
    ensures Window(bs[..k + 1], a, b) == Window(bs[..k], a, b) + if a < bs[k].ts <= b then [bs[k]] else []
  {
    assert bs[..k + 1][..k] == bs[..k];
  }

  lemma SliceSnoc(bs: seq<Bucket>, lo: nat, hi: nat, k: nat)
    requires lo <= hi <= |bs| && k < |bs|
    ensures Smaller(lo, k + 1) <= Smaller(hi, k + 1) && Smaller(lo, k) <= Smaller(hi, k)
    ensures bs[Smaller(lo, k + 1)..Smaller(hi, k + 1)]
         == bs[Smaller(lo, k)..Smaller(hi, k)] + if lo <= k < hi then [bs[k]] else []
  {
  }

  /** The window of a prefix is the part of the slice in the prefix. */
  lemma {:induction false} WindowOfPrefix(bs: seq<Bucket>, a: int, b: int, lo: nat, hi: nat, k: nat)
    requires lo <= hi <= |bs| && k <= |bs|
    requires forall i :: 0 <= i < |bs| ==> (lo <= i < hi <==> a < bs[i].ts <= b)
    ensures Smaller(lo, k) <= Smaller(hi, k)
    ensures Window(bs[..k], a, b) == bs[Smaller(lo, k)..Smaller(hi, k)]
  {
    if k > 0 {
      WindowOfPrefix(bs, a, b, lo, hi, k - 1);
      WindowSnoc(bs, a, b, k - 1);
      SliceSnoc(bs, lo, hi, k - 1);
      hide *;
    }
  }

  lemma WindowIsSlice(bs: seq<Bucket>, a: int, b: int, lo: nat, hi: nat)
    requires lo <= hi <= |bs|
    requires forall i :: 0 <= i < |bs| ==> (lo <= i < hi <==> a < bs[i].ts <= b)
    ensures Window(bs, a, b) == bs[lo..hi]
  {
    WindowOfPrefix(bs, a, b, lo, hi, |bs|);
    assert bs[..|bs|] == bs;
    hide Window;
  }

  // ---- The counter loop ----

  /** The inner loop of the counter path. */
  method ScanCounter(bs: seq<Bucket>, lo: nat, windowEnd: int)
    returns (sum: real, firstTime: int, lastTime: int, count: nat)
    requires lo <= |bs|
    ensures lo + count <= |bs|
    ensures forall i :: lo <= i < lo + count ==> bs[i].ts <= windowEnd
    ensures lo + count < |bs| ==> windowEnd < bs[lo + count].ts
    ensures sum == TotalSum(bs[lo..lo + count])
    ensures count > 0 ==> firstTime == FirstTime(bs[lo..lo + count]) && lastTime == LastTime(bs[lo..lo + count])
  {
    sum, firstTime, lastTime, count := 0.0, 0, 0, 0;
    var i := lo;
    while i < |bs| && bs[i].ts <= windowEnd
      invariant lo <= i <= |bs| && count == i - lo
      invariant forall j :: lo <= j < i ==> bs[j].ts <= windowEnd
      invariant sum == TotalSum(bs[lo..i])
      invariant count > 0 ==> firstTime == FirstTime(bs[lo..i]) && lastTime == LastTime(bs[lo..i])
    {
      assert bs[lo..i + 1][..i - lo] == bs[lo..i];
      var b := bs[i];
      sum := sum + b.counterTotal;
      if count == 0 {
        firstTime := b.firstTime;
        lastTime := b.lastTime;
      } else {
        if b.firstTime < firstTime {
          firstTime := b.firstTime;
        }
        if b.lastTime > lastTime {
          lastTime := b.lastTime;
        }
      }
      count := count + 1;
      i := i + 1;
    }
  }

  /** The inner loop of the gauge path. */
  method ScanGauge(bs: seq<Bucket>, lo: nat, windowEnd: int)
    returns (sum: real, minVal: real, maxVal: real, countVal: nat, ghost count: nat, first: bool)
    requires lo <= |bs|
    ensures lo + count <= |bs|
    ensures forall i :: lo <= i < lo + count ==> bs[i].ts <= windowEnd
    ensures lo + count < |bs| ==> windowEnd < bs[lo + count].ts
    ensures first <==> count == 0
    ensures sum == ValSum(bs[lo..lo + count]) && countVal == ValCount(bs[lo..lo + count])
    ensures count > 0 ==> minVal == ValMin(bs[lo..lo + count]) && maxVal == ValMax(bs[lo..lo + count])
  {
    sum, minVal, maxVal, countVal, first := 0.0, 0.0, 0.0, 0, true;
    count := 0;
    var i := lo;
    while i < |bs| && bs[i].ts <= windowEnd
      invariant lo <= i <= |bs| && count == i - lo && (first <==> count == 0)
      invariant forall j :: lo <= j < i ==> bs[j].ts <= windowEnd
      invariant sum == ValSum(bs[lo..i]) && countVal == ValCount(bs[lo..i])
      invariant count > 0 ==> minVal == ValMin(bs[lo..i]) && maxVal == ValMax(bs[lo..i])
    {
      assert bs[lo..i + 1][..i - lo] == bs[lo..i];
      var b := bs[i];
      sum := sum + b.valSum;
      countVal := countVal + b.valCount;
      if first {
        minVal, maxVal, first := b.valMin, b.valMax, false;
      } else {
        if b.valMin < minVal {
          minVal := b.valMin;
        }
        if b.valMax > maxVal {
          maxVal := b.valMax;
        }
      }
      count := count + 1;
      i := i + 1;
    }
  }

  /** Everything before `lo` is too old for the window that starts at `a`, and nothing else
      is. */
  ghost predicate LeftOf(bs: seq<Bucket>, lo: nat, a: int) {
    TooOld(bs, lo, a) && forall i :: lo <= i < |bs| ==> a < bs[i].ts
  }

  ghost predicate TooOld(bs: seq<Bucket>, lo: nat, a: int) {
    lo <= |bs| && forall i :: 0 <= i < lo ==> bs[i].ts <= a
  }

  /** The left pointer only moves forward. */
  method Advance(bs: seq<Bucket>, from: nat, a: int) returns (lo: nat)
    requires SortedBuckets(bs) && TooOld(bs, from, a)
    ensures from <= lo <= |bs| && LeftOf(bs, lo, a)
  {
    lo := from;
    while lo < |bs| && bs[lo].ts <= a
      invariant from <= lo <= |bs|
      invariant forall i :: 0 <= i < lo ==> bs[i].ts <= a
    {
      lo := lo + 1;
    }
  }

  lemma ScannedWindow(bs: seq<Bucket>, a: int, b: int, lo: nat, count: nat)
    requires a <= b && SortedBuckets(bs) && LeftOf(bs, lo, a) && lo + count <= |bs|
    requires forall i :: lo <= i < lo + count ==> bs[i].ts <= b
    requires lo + count < |bs| ==> b < bs[lo + count].ts
    ensures Window(bs, a, b) == bs[lo..lo + count]
  {
    WindowIsSlice(bs, a, b, lo, lo + count);
  }

  method CounterStep(bs: seq<Bucket>, lo: nat, fn: string, rangeMs: int, t: int) returns (r: Option<real>, ghost scanned: nat)
    requires rangeMs > 0 && SortedBuckets(bs) && LeftOf(bs, lo, t - rangeMs)
    ensures var w := Window(bs, t - rangeMs, t);
            scanned == |w| && r == if w == [] then None else Some(CounterValue(fn, rangeMs, w))
  {
    var sum, firstTime, lastTime, count := ScanCounter(bs, lo, t);
    ScannedWindow(bs, t - rangeMs, t, lo, count);
    scanned := count;
    if count == 0 {
      return None, scanned;
    }
    var span := lastTime - firstTime;
    var factor := 1.0;
    if span > 0 && count > 1 {
      factor := rangeMs as real / span as real;
      if factor > 1.05 {
        factor := 1.05;
      }
    }
    hide Times;
    var value := 0.0;
    if fn == "rate" {
      value := Times(sum, factor) / (rangeMs as real / 1000.0);
    } else if fn == "increase" {
      value := Times(sum, factor);
    }
    return Some(value), scanned;
  }

  method GaugeStep(bs: seq<Bucket>, lo: nat, fn: string, rangeMs: int, t: int) returns (r: Option<real>, ghost scanned: nat)
    requires rangeMs > 0 && SortedBuckets(bs) && LeftOf(bs, lo, t - rangeMs)
    ensures var w := Window(bs, t - rangeMs, t);
            scanned == |w| && r == if w == [] then None else Some(GaugeValue(fn, w))
  {
    var sum, minVal, maxVal, countVal, count, first := ScanGauge(bs, lo, t);
    ScannedWindow(bs, t - rangeMs, t, lo, count);
    hide ValSum;
    hide ValCount;
    hide ValMin;
    hide ValMax;
    hide Window;
    scanned := count;
    if first {
      return None, scanned;
    }
    var value := 0.0;
    match fn {
      case "avg_over_time" =>
        if countVal > 0 {
          value := sum / countVal as real;
        }
      case "min_over_time" => value := minVal;
      case "max_over_time" => value := maxVal;
      case "sum_over_time" => value := sum;
      case "count_over_time" => value := countVal as real;
      case _ =>
    }
    return Some(value), scanned;
  }

  method WindowedStep(kind: Kind, bs: seq<Bucket>, lo: nat, fn: string, rangeMs: int, t: int)
    returns (r: Option<real>, ghost scanned: nat)
    requires rangeMs > 0 && SortedBuckets(bs) && LeftOf(bs, lo, t - rangeMs)
    ensures scanned == |Window(bs, t - rangeMs, t)| && r == StepResult(kind, bs, fn, rangeMs, t)
  {
    hide CounterValue;
    hide GaugeValue;
    hide Window;
    if kind.Counter? {
      r, scanned := CounterStep(bs, lo, fn, rangeMs, t);
    } else {
      r, scanned := GaugeStep(bs, lo, fn, rangeMs, t);
    }
  }

  /** All window sizes together: what the inner loop scans. */
  function Scans(bs: seq<Bucket>, rangeMs: int, steps: seq<int>): nat {
    if steps == [] then 0
    else
      Scans(bs, rangeMs, steps[..|steps| - 1])
      + |Window(bs, steps[|steps| - 1] - rangeMs, steps[|steps| - 1])|
  }

  /** windowedCounterEval and windowedGaugeEval for one series. The left pointer advances at
      most once per bucket over all steps; the inner loop starts again from it at every
      step. */
  method WindowedEval(kind: Kind, bs: seq<Bucket>, fn: string, rangeMs: int, steps: seq<int>)
    returns (samples: seq<Point>, ghost advances: nat, ghost scanned: nat)
    requires rangeMs > 0 && SortedBuckets(bs) && SortedSteps(steps)
    ensures samples == WindowedPoints(kind, bs, fn, rangeMs, steps)
    ensures advances <= |bs| && scanned == Scans(bs, rangeMs, steps)
  {
    samples := [];
    var lo := 0;
    advances, scanned := 0, 0;
    NothingDone(kind, bs, fn, rangeMs, steps);
    hide *;
    for k := 0 to |steps|
      invariant Done(kind, bs, fn, rangeMs, steps, k, samples, scanned)
      invariant lo <= |bs| && advances == lo
      invariant k < |steps| ==> TooOld(bs, lo, steps[k] - rangeMs)
    {
      var t := steps[k];
      var lo' := Advance(bs, lo, t - rangeMs);
      advances := advances + (lo' - lo);
      lo := lo';
      var value, n := WindowedStep(kind, bs, lo, fn, rangeMs, t);
      DoneStep(kind, bs, fn, rangeMs, steps, k, samples, scanned, value, n);
      scanned := scanned + n;
      if value.Some? {
        samples := samples + [Point(t, value.value)];
      }
      if k + 1 < |steps| {
        StillTooOld(bs, lo, steps, k, rangeMs);
      }
    }
    AllDone(kind, bs, fn, rangeMs, steps, samples, scanned);
  }

  lemma NothingDone(kind: Kind, bs: seq<Bucket>, fn: string, rangeMs: int, steps: seq<int>)
    requires rangeMs > 0
    ensures Done(kind, bs, fn, rangeMs, steps, 0, [], 0)
    ensures steps != [] ==> TooOld(bs, 0, steps[0] - rangeMs)
  {
  }

  lemma AllDone(kind: Kind, bs: seq<Bucket>, fn: string, rangeMs: int, steps: seq<int>, samples: seq<Point>, scanned: nat)
    requires rangeMs > 0 && Done(kind, bs, fn, rangeMs, steps, |steps|, samples, scanned)
    ensures samples == WindowedPoints(kind, bs, fn, rangeMs, steps) && scanned == Scans(bs, rangeMs, steps)
  {
    assert steps[..|steps|] == steps;
  }

  /** The first `k` steps are done. */
  ghost predicate Done(kind: Kind, bs: seq<Bucket>, fn: string, rangeMs: int, steps: seq<int>, k: nat,
                       samples: seq<Point>, scanned: nat)
    requires rangeMs > 0 && k <= |steps|
  {
    samples == WindowedPoints(kind, bs, fn, rangeMs, steps[..k]) && scanned == Scans(bs, rangeMs, steps[..k])
  }

  function StepResult(kind: Kind, bs: seq<Bucket>, fn: string, rangeMs: int, t: int): Option<real>
    requires rangeMs > 0
  {
    var w := Window(bs, t - rangeMs, t);
    if w == [] then None else Some(WindowedValue(kind, fn, rangeMs, w))
  }

  lemma DoneStep(kind: Kind, bs: seq<Bucket>, fn: string, rangeMs: int, steps: seq<int>, k: nat, samples: seq<Point>,
                 scanned: nat, value: Option<real>, n: nat)
    requires rangeMs > 0 && k < |steps| && Done(kind, bs, fn, rangeMs, steps, k, samples, scanned)
    requires value == StepResult(kind, bs, fn, rangeMs, steps[k]) && n == |Window(bs, steps[k] - rangeMs, steps[k])|
    ensures Done(kind, bs, fn, rangeMs, steps, k + 1,
                 if value.Some? then samples + [Point(steps[k], value.value)] else samples, scanned + n)
  {
    hide Window;
    hide WindowedValue;
    PointsSnoc(kind, bs, fn, rangeMs, steps, k);
    assert samples + [] == samples;
    hide WindowedPoints;
    hide Scans;
  }

  lemma PointsSnoc(kind: Kind, bs: seq<Bucket>, fn: string, rangeMs: int, steps: seq<int>, k: nat)
    requires rangeMs > 0 && k < |steps|
    ensures WindowedPoints(kind, bs, fn, rangeMs, steps[..k + 1])
         == WindowedPoints(kind, bs, fn, rangeMs, steps[..k])
            + match StepResult(kind, bs, fn, rangeMs, steps[k]) { case Some(v) => [Point(steps[k], v)] case None => [] }
    ensures Scans(bs, rangeMs, steps[..k + 1]) == Scans(bs, rangeMs, steps[..k]) + |Window(bs, steps[k] - rangeMs, steps[k])|
  {
    hide Window;
    hide WindowedValue;
    assert steps[..k + 1][..k] == steps[..k];
  }

  lemma StillTooOld(bs: seq<Bucket>, lo: nat, steps: seq<int>, k: nat, rangeMs: int)
    requires SortedSteps(steps) && k + 1 < |steps| && LeftOf(bs, lo, steps[k] - rangeMs)
    ensures TooOld(bs, lo, steps[k + 1] - rangeMs)
  {
  }

  /** The loop over the series of a metric, in any order: series without samples are left
      out. */
  method WindowedMatrix(kind: Kind, data: map<Labels, seq<Bucket>>, fn: string, rangeMs: int, steps: seq<int>)
    returns (m: Matrix)
    requires rangeMs > 0 && SortedSteps(steps) && forall l :: l in data ==> SortedBuckets(data[l])
    ensures DistinctMatrix(m)
    ensures TableOf(m) == map l | l in data && WindowedPoints(kind, data[l], fn, rangeMs, steps) != [] ::
                            WindowedPoints(kind, data[l], fn, rangeMs, steps)
  {
    hide WindowedPoints;
    ghost var all := map l | l in data && WindowedPoints(kind, data[l], fn, rangeMs, steps) != [] ::
      WindowedPoints(kind, data[l], fn, rangeMs, steps);
    m := [];
    var todo := data.Keys;
    OutsideEnds(all, todo);
    hide Outside;
    while todo != {}
      invariant todo <= data.Keys
      invariant DistinctMatrix(m)
      invariant forall i :: 0 <= i < |m| ==> m[i].labels !in todo
      invariant TableOf(m) == Outside(all, todo)
      decreases todo
    {
      var l :| l in todo;
      OutsideStep(all, todo, l);
      todo := todo - {l};
      var samples, _, _ := WindowedEval(kind, data[l], fn, rangeMs, steps);
      if |samples| > 0 {
        TableOfSnoc(m, Series(l, samples));
        m := m + [Series(l, samples)];
      }
    }
  }

  // ---- What the values mean ----

  lemma {:induction false} FirstOfWindow(w: seq<Bucket>)
    requires w != []
    ensures forall b :: b in w ==> FirstTime(w) <= b.firstTime
    ensures exists b :: b in w && b.firstTime == FirstTime(w)
  {
    var front, last := w[..|w| - 1], w[|w| - 1];
    assert w == front + [last] && last in w;
    if |w| > 1 {
      FirstOfWindow(front);
      var b :| b in front && b.firstTime == FirstTime(front);
      assert b in w;
    }
  }

  lemma {:induction false} LastOfWindow(w: seq<Bucket>)
    requires w != []
    ensures forall b :: b in w ==> b.lastTime <= LastTime(w)
    ensures exists b :: b in w && b.lastTime == LastTime(w)
  {
    var front, last := w[..|w| - 1], w[|w| - 1];
    assert w == front + [last] && last in w;
    if |w| > 1 {
      LastOfWindow(front);
      var b :| b in front && b.lastTime == LastTime(front);
      assert b in w;
    }
  }

  /** A rate times the seconds of its range is the increase. */
  lemma RateTimesRange(rangeMs: int, w: seq<Bucket>)
    requires rangeMs > 0 && w != []
    ensures Times(CounterValue("rate", rangeMs, w), rangeMs as real / 1000.0) == CounterValue("increase", rangeMs, w)
  {
    DivideTimes(Times(TotalSum(w), Factor(rangeMs, LastTime(w) - FirstTime(w), |w|)), rangeMs as real / 1000.0);
  }

  lemma DivideTimes(a: real, b: real)
    requires b > 0.0
    ensures Times(a / b, b) == a
  {
  }

  /** Of counters that never decrease, the increase is at most five per cent above what the
      buckets have counted, and at least that when their samples lie within a range. */
  lemma IncreaseBounds(rangeMs: int, w: seq<Bucket>)
    requires rangeMs > 0 && w != [] && TotalSum(w) >= 0.0
    ensures CounterValue("increase", rangeMs, w) <= Times(TotalSum(w), 1.05)
    ensures LastTime(w) - FirstTime(w) <= rangeMs ==> TotalSum(w) <= CounterValue("increase", rangeMs, w)
  {
    var span, sum := LastTime(w) - FirstTime(w), TotalSum(w);
    var f := Factor(rangeMs, span, |w|);
    if span > 0 && span <= rangeMs {
      RatioAtLeastOne(rangeMs as real, span as real);
    }
    hide Factor;
    TimesMonotone(sum, f, 1.05);
    if span <= rangeMs {
      TimesMonotone(sum, 1.0, f);
    }
  }

  lemma RatioAtLeastOne(a: real, b: real)
    requires a >= b > 0.0
    ensures a / b >= 1.0
  {
  }

  /** The increase is what the buckets have counted, scaled from the span of their samples to
      the range, but never up by more than five per cent; of one bucket, or of samples at one
      time, it is what was counted. */
  lemma IncreaseScales(rangeMs: int, w: seq<Bucket>)
    requires rangeMs > 0 && w != []
    ensures var span, total, r := LastTime(w) - FirstTime(w), TotalSum(w), CounterValue("increase", rangeMs, w);
            && (|w| == 1 || span <= 0 ==> r == total)
            && (|w| > 1 && span > 0 && 100 * rangeMs <= 105 * span ==> Times(r, span as real) == Times(total, rangeMs as real))
            && (|w| > 1 && span > 0 && 100 * rangeMs > 105 * span ==> Times(r, 100.0) == Times(total, 105.0))
  {
    var span, total := LastTime(w) - FirstTime(w), TotalSum(w);
    hide LastTime;
    hide FirstTime;
    hide TotalSum;
    if |w| > 1 && span > 0 {
      ScaledTotal(total, rangeMs, span);
    }
    assert Times(total, 1.0) == total;
  }

  lemma ScaledTotal(total: real, rangeMs: int, span: int)
    requires span > 0 && rangeMs > 0
    ensures var f := rangeMs as real / span as real;
            && (f > 1.05 <==> 100 * rangeMs > 105 * span)
            && Times(Times(total, f), span as real) == Times(total, rangeMs as real)
            && Times(Times(total, 1.05), 100.0) == Times(total, 105.0)
  {
    RatioAbove(rangeMs as real, span as real);
    DivideTimes(rangeMs as real, span as real);
    TimesAssociate(total, rangeMs as real / span as real, span as real);
    hide Times;
    FiveMore(total);
  }

  lemma RatioAbove(a: real, b: real)
    requires b > 0.0
    ensures a / b > 1.05 <==> 100.0 * a > 105.0 * b
  {
    var f := a / b;
    assert f * b == a;
    if f > 1.05 {
      assert (f - 1.05) * b > 0.0;
    } else {
      assert (1.05 - f) * b >= 0.0;
    }
  }

  lemma TimesAssociate(a: real, b: real, c: real)
    ensures Times(Times(a, b), c) == Times(a, Times(b, c))
  {
  }

  lemma FiveMore(a: real)
    ensures Times(Times(a, 1.05), 100.0) == Times(a, 105.0)
  {
  }
}

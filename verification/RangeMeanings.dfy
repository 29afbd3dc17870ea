/** The range functions over the samples in their range: extremes, counts, sums, spreads, and
    what they make of negated samples and of samples on a line
    (eval/over_time.go, eval/extrapolate.go, dispatched in eval/evaluator.go:544-632). */
module RangeMeanings {
  import opened Types
  import opened Reals
  import opened Plans
  import opened RangeFunctions
  import opened Extrapolate
  import opened ExtrapolateExact
  import opened RangeValues
  import Quantile
  import Regression
  import Seqs
  import Smoothing
  import Staleness
  import Variance

  // ---- Extremes, last, count ----

  ghost predicate Nothing(p: EvalPlan, s: seq<Sample>, t: int) {
    forall x :: !InRange(p, s, t, x)
  }

  lemma NothingSeen(p: EvalPlan, s: seq<Sample>, t: int)
    requires Increasing(s)
    ensures Nothing(p, s, t) <==> Seen(p, s, t) == []
  {
    SeenIsInRange(p, s, t);
    hide InRange;
    hide Seen;
    if Seen(p, s, t) != [] {
      assert Seen(p, s, t)[0] in Seen(p, s, t);
    }
  }

  /** These report something whenever there is a sample in the range, and only then. */
  const OVER_TIME: set<string> := {
    "resets", "changes", "sum_over_time", "avg_over_time", "min_over_time", "max_over_time", "count_over_time",
    "stddev_over_time", "stdvar_over_time", "last_over_time", "present_over_time", "quantile_over_time", "mad_over_time"
  }

  lemma SilentWindow(lib: Lib, fn: string, param: real, smoothing: real, a: int, b: int)
    ensures InWindow([], a, b) && WindowValue(lib, fn, param, smoothing, [], a, b) == None
  {
    EmptyWindowIsSilent(lib, fn, param, smoothing, a, b);
  }

  lemma OverTimeReports(lib: Lib, p: EvalPlan, fn: string, s: seq<Sample>, t: int)
    requires Increasing(s) && fn in OVER_TIME
    ensures ValueOf(lib, p, fn, s, t) == None <==> Nothing(p, s, t)
  {
    hide *;
    var w := Seen(p, s, t);
    NothingSeen(p, s, t);
    OverTimeIsKnown(fn);
    SeenValue(lib, p, fn, s, t);
    if w == [] {
      SilentWindow(lib, fn, p.aggParam, p.smoothing, From(p, t), To(p, t));
    } else {
      LoudWindow(lib, fn, p.aggParam, p.smoothing, w, From(p, t), To(p, t));
    }
  }

  lemma LoudWindow(lib: Lib, fn: string, param: real, smoothing: real, w: seq<Sample>, a: int, b: int)
    requires InWindow(w, a, b) && w != [] && fn in OVER_TIME
    ensures WindowValue(lib, fn, param, smoothing, w, a, b).Some?
  {
    hide InWindow;
    hide RealOf;
    hide Variance.Sum;
    hide Variance.Mean;
    hide Variance.Values;
    hide Variance.PopulationVariance;
    hide Quantile.QuantileOverTime;
    hide Quantile.MedianDeviation;
    hide Resets;
    hide Changes;
    hide Least;
    hide Greatest;
  }

  lemma OverTimeIsKnown(fn: string)
    requires fn in OVER_TIME
    ensures fn in RANGE_FUNCTIONS
  {
  }

  /** `y` is the least of the values in the range. */
  ghost predicate IsLeast(p: EvalPlan, s: seq<Sample>, t: int, y: real) {
    (exists x :: InRange(p, s, t, x) && x.v == y) && forall x :: InRange(p, s, t, x) ==> y <= x.v
  }

  ghost predicate IsGreatest(p: EvalPlan, s: seq<Sample>, t: int, y: real) {
    (exists x :: InRange(p, s, t, x) && x.v == y) && forall x :: InRange(p, s, t, x) ==> x.v <= y
  }

  lemma {:induction false} LeastOf(w: seq<Sample>)
    requires w != []
    ensures (exists x :: x in w && x.v == Least(w)) && forall x :: x in w ==> Least(w) <= x.v
    ensures (exists x :: x in w && x.v == Greatest(w)) && forall x :: x in w ==> x.v <= Greatest(w)
  {
    var front, last := w[..|w| - 1], w[|w| - 1];
    assert w == front + [last] && last in w;
    if |w| > 1 {
      LeastOf(front);
      var x :| x in front && x.v == Least(front);
      var y :| y in front && y.v == Greatest(front);
      assert x in w && y in w;
    }
  }

  lemma Extremes(lib: Lib, p: EvalPlan, s: seq<Sample>, t: int, y: real)
    requires Increasing(s)
    ensures ValueOf(lib, p, "min_over_time", s, t) == Some(y) <==> IsLeast(p, s, t, y)
    ensures ValueOf(lib, p, "max_over_time", s, t) == Some(y) <==> IsGreatest(p, s, t, y)
  {
    var w := Seen(p, s, t);
    NothingSeen(p, s, t);
    SeenIsInRange(p, s, t);
    OverTimeReports(lib, p, "min_over_time", s, t);
    OverTimeReports(lib, p, "max_over_time", s, t);
    if w != [] {
      OverTime(lib, p, s, t);
      LeastOf(w);
      hide *;
      ExtremesOf(p, s, t, w, y);
    }
    hide ValueOf;
    hide Seen;
    hide InRange;
    hide OVER_TIME;
  }

  lemma ExtremesOf(p: EvalPlan, s: seq<Sample>, t: int, w: seq<Sample>, y: real)
    requires w != [] && forall x :: x in w <==> InRange(p, s, t, x)
    ensures y == Least(w) <==> IsLeast(p, s, t, y)
    ensures y == Greatest(w) <==> IsGreatest(p, s, t, y)
  {
    LeastOf(w);
    hide InRange;
    hide Least;
    hide Greatest;
  }

  /** `y` is the latest sample in the range. */
  ghost predicate IsLast(p: EvalPlan, s: seq<Sample>, t: int, y: Sample) {
    InRange(p, s, t, y) && forall x :: InRange(p, s, t, x) ==> x.ts <= y.ts
  }

  lemma LastOfSeen(p: EvalPlan, s: seq<Sample>, t: int, y: Sample)
    requires Increasing(s) && IsLast(p, s, t, y)
    ensures var w := Seen(p, s, t); w != [] && w[|w| - 1] == y
  {
    var w := Seen(p, s, t);
    SeenIsInRange(p, s, t);
    assert y in w;
    assert w[|w| - 1] in w;
    hide InRange;
    hide Seen;
  }

  lemma LastValue(lib: Lib, p: EvalPlan, s: seq<Sample>, t: int, y: Sample)
    requires Increasing(s) && IsLast(p, s, t, y)
    ensures ValueOf(lib, p, "last_over_time", s, t) == Some(y.v) && ValueOf(lib, p, "present_over_time", s, t) == Some(1.0)
  {
    hide *;
    LastOfSeen(p, s, t, y);
    OverTime(lib, p, s, t);
  }

  ghost function Samples(p: EvalPlan, s: seq<Sample>, t: int): set<Sample> {
    set x | x in s && InRange(p, s, t, x)
  }

  lemma {:induction false} DistinctCount(w: seq<Sample>)
    requires Increasing(w)
    ensures |set x | x in w| == |w|
  {
    if w != [] {
      var front, last := w[..|w| - 1], w[|w| - 1];
      DistinctCount(front);
      assert w == front + [last];
      assert (set x | x in w) == (set x | x in front) + {last};
      assert last !in front;
    }
  }

  /** The number of samples in the range. */
  lemma CountValue(lib: Lib, p: EvalPlan, s: seq<Sample>, t: int)
    requires Increasing(s) && !Nothing(p, s, t)
    ensures ValueOf(lib, p, "count_over_time", s, t) == Some(|Samples(p, s, t)| as real)
  {
    hide *;
    var w := Seen(p, s, t);
    NothingSeen(p, s, t);
    SeenIsInRange(p, s, t);
    OverTime(lib, p, s, t);
    WindowIncreases(w, From(p, t), To(p, t));
    DistinctCount(w);
    SamplesAre(p, s, t, w);
  }

  lemma WindowIncreases(w: seq<Sample>, a: int, b: int)
    requires InWindow(w, a, b)
    ensures Increasing(w)
  {
  }

  lemma SamplesAre(p: EvalPlan, s: seq<Sample>, t: int, w: seq<Sample>)
    requires forall x :: x in w <==> InRange(p, s, t, x)
    ensures (set x | x in w) == Samples(p, s, t)
  {
    assert forall x :: InRange(p, s, t, x) ==> x in s;
    hide InRange;
  }

  // ---- Pairs of neighbours ----

  predicate FallsAt(w: seq<Sample>, i: int) {
    0 < i < |w| && w[i].v < w[i - 1].v
  }

  predicate MovesAt(w: seq<Sample>, i: int) {
    0 < i < |w| && w[i].v != w[i - 1].v
  }

  ghost function Falls(w: seq<Sample>): set<int> {
    set i | 0 <= i < |w| && FallsAt(w, i)
  }

  ghost function Moves(w: seq<Sample>): set<int> {
    set i | 0 <= i < |w| && MovesAt(w, i)
  }

  lemma PairsSnoc(w: seq<Sample>, n: nat)
    requires n == |w| - 1
    ensures Falls(w) == Falls(w[..n]) + (if FallsAt(w, n) then {n} else {})
    ensures Moves(w) == Moves(w[..n]) + (if MovesAt(w, n) then {n} else {})
    ensures n !in Falls(w[..n]) && n !in Moves(w[..n])
  {
    forall i | 0 <= i < n ensures FallsAt(w, i) == FallsAt(w[..n], i) && MovesAt(w, i) == MovesAt(w[..n], i) {
    }
    hide FallsAt;
    hide MovesAt;
  }

  lemma {:induction false} PairsCounted(w: seq<Sample>)
    ensures Resets(w) == |Falls(w)| && Changes(w) == |Moves(w)|
  {
    if |w| < 2 {
      assert Falls(w) == {} && Moves(w) == {};
    } else {
      var n := |w| - 1;
      PairsCounted(w[..n]);
      PairsSnoc(w, n);
      hide Falls;
      hide Moves;
    }
  }

  /** resets and changes count the neighbours in the range that fall, and that differ. */
  lemma NeighbourCounts(lib: Lib, p: EvalPlan, s: seq<Sample>, t: int)
    requires Increasing(s) && !Nothing(p, s, t)
    ensures ValueOf(lib, p, "resets", s, t) == Some(|Falls(Seen(p, s, t))| as real)
    ensures ValueOf(lib, p, "changes", s, t) == Some(|Moves(Seen(p, s, t))| as real)
  {
    hide *;
    NothingSeen(p, s, t);
    OverTime(lib, p, s, t);
    PairsCounted(Seen(p, s, t));
  }

  /** `x` and `y` are the last two samples in the range. */
  ghost predicate LastTwo(p: EvalPlan, s: seq<Sample>, t: int, x: Sample, y: Sample) {
    && InRange(p, s, t, x) && IsLast(p, s, t, y) && x.ts < y.ts
    && forall z :: InRange(p, s, t, z) ==> z.ts <= x.ts || z == y
  }

  lemma LastTwoOfSeen(p: EvalPlan, s: seq<Sample>, t: int, x: Sample, y: Sample)
    requires Increasing(s) && LastTwo(p, s, t, x, y)
    ensures var w := Seen(p, s, t); |w| >= 2 && w[|w| - 1] == y && w[|w| - 2] == x
  {
    hide *;
    var w := Seen(p, s, t);
    SeenIsInRange(p, s, t);
    LastTwoMeans(p, s, t, x, y, w);
    LastOfSeen(p, s, t, y);
    WindowIncreases(w, From(p, t), To(p, t));
    SecondToLast(w, x, y);
  }

  lemma LastTwoMeans(p: EvalPlan, s: seq<Sample>, t: int, x: Sample, y: Sample, w: seq<Sample>)
    requires LastTwo(p, s, t, x, y) && forall z :: z in w <==> InRange(p, s, t, z)
    ensures IsLast(p, s, t, y) && x in w && x.ts < y.ts
    ensures forall z :: z in w ==> z.ts <= x.ts || z == y
  {
    hide InRange;
    hide IsLast;
  }

  lemma SecondToLast(w: seq<Sample>, x: Sample, y: Sample)
    requires Increasing(w) && w != [] && w[|w| - 1] == y && x in w && x.ts < y.ts
    requires forall z :: z in w ==> z.ts <= x.ts || z == y
    ensures |w| >= 2 && w[|w| - 2] == x
  {
    var i :| 0 <= i < |w| && w[i] == x;
    assert w[|w| - 2] in w;
  }

  lemma InstantRate(w: seq<Sample>)
    requires |w| >= 2 && Increasing(w)
    ensures var x, y := w[|w| - 2], w[|w| - 1];
            && IRate(w).Some? && Times(IRate(w).value, Seconds(y.ts - x.ts)) == Step(x.v, y.v)
            && IDelta(w) == Some(y.v - x.v)
  {
    var x, y := w[|w| - 2], w[|w| - 1];
    var dt := Seconds(y.ts - x.ts);
    assert dt > 0.0;
    assert Step(x.v, y.v) / dt * dt == Step(x.v, y.v);
  }

  /** irate times the seconds between the last two samples is what the counter gained
      between them, after a reset its value; idelta is their difference. */
  lemma LastTwoValues(lib: Lib, p: EvalPlan, s: seq<Sample>, t: int, x: Sample, y: Sample)
    requires Increasing(s) && LastTwo(p, s, t, x, y)
    ensures ValueOf(lib, p, "irate", s, t).Some?
    ensures Times(ValueOf(lib, p, "irate", s, t).value, Seconds(y.ts - x.ts)) == Step(x.v, y.v)
    ensures ValueOf(lib, p, "idelta", s, t) == Some(y.v - x.v)
  {
    hide *;
    LastTwoOfSeen(p, s, t, x, y);
    WindowIncreases(Seen(p, s, t), From(p, t), To(p, t));
    Counters(lib, p, s, t);
    InstantRate(Seen(p, s, t));
  }

  // ---- Sums, means, spreads ----

  /** The samples with other values. */
  function Mapped(s: seq<Sample>, f: real -> real): (r: seq<Sample>)
    ensures |r| == |s| && forall i :: 0 <= i < |s| ==> r[i] == s[i].(v := f(s[i].v))
  {
    seq(|s|, i requires 0 <= i < |s| => s[i].(v := f(s[i].v)))
  }

  lemma {:induction false} BetweenMapped(s: seq<Sample>, f: real -> real, a: int, b: int)
    ensures Staleness.Between(Mapped(s, f), a, b) == Mapped(Staleness.Between(s, a, b), f)
  {
    if s != [] {
      BetweenMapped(s[1..], f, a, b);
      assert Mapped(s, f)[1..] == Mapped(s[1..], f);
      var rest := Staleness.Between(s[1..], a, b);
      assert Mapped([s[0]] + rest, f) == [Mapped(s, f)[0]] + Mapped(rest, f);
    }
  }

  lemma MappedIncreases(s: seq<Sample>, f: real -> real)
    requires Increasing(s)
    ensures Increasing(Mapped(s, f))
  {
  }

  /** The same samples are seen, with other values. */
  lemma SeenMapped(p: EvalPlan, s: seq<Sample>, t: int, f: real -> real)
    requires Increasing(s)
    ensures Increasing(Mapped(s, f)) && Seen(p, Mapped(s, f), t) == Mapped(Seen(p, s, t), f)
  {
    hide *;
    MappedIncreases(s, f);
    SeenIsBetween(p, s, t);
    SeenIsBetween(p, Mapped(s, f), t);
    BetweenMapped(s, f, From(p, t), To(p, t));
  }

  lemma {:induction false} BetweenSplits(s: seq<Sample>, a: int, m: int, b: int)
    requires Increasing(s) && a <= m <= b
    ensures Staleness.Between(s, a, b) == Staleness.Between(s, a, m) + Staleness.Between(s, m, b)
  {
    if s != [] {
      var rest := s[1..];
      BetweenSplits(rest, a, m, b);
      if s[0].ts > m {
        NoneBefore(rest, a, m);
      }
      hide *;
      SplitHead(s, a, m, b);
    }
  }

  lemma SplitHead(s: seq<Sample>, a: int, m: int, b: int)
    requires s != [] && a <= m <= b
    requires var early, late := Staleness.Between(s[1..], a, m), Staleness.Between(s[1..], m, b);
             Staleness.Between(s[1..], a, b) == early + late && (s[0].ts > m ==> early == [])
    ensures Staleness.Between(s, a, b) == Staleness.Between(s, a, m) + Staleness.Between(s, m, b)
  {
    BetweenHead(s, a, b);
    BetweenHead(s, a, m);
    BetweenHead(s, m, b);
    var early, late := Staleness.Between(s[1..], a, m), Staleness.Between(s[1..], m, b);
    hide *;
    if s[0].ts > m {
      assert early == [];
      assert [] + late == late;
    } else {
      Seqs.Associate(if a < s[0].ts <= b then [s[0]] else [], early, late);
      assert [] + late == late;
    }
  }

  lemma BetweenHead(s: seq<Sample>, a: int, b: int)
    requires s != []
    ensures Staleness.Between(s, a, b)
         == (if a < s[0].ts <= b then [s[0]] else []) + Staleness.Between(s[1..], a, b)
  {
  }

  lemma {:induction false} NoneBefore(s: seq<Sample>, a: int, m: int)
    requires forall i :: 0 <= i < |s| ==> m < s[i].ts
    ensures Staleness.Between(s, a, m) == []
  {
    if s != [] {
      NoneBefore(s[1..], a, m);
    }
  }

  /** The plan with another range. */
  function Over(p: EvalPlan, rangeMs: int): EvalPlan { p.(rangeMs := rangeMs) }

  /** A range is made of its earlier and its later part. */
  lemma SeenSplits(p: EvalPlan, s: seq<Sample>, t: int, early: nat, late: nat)
    requires Increasing(s) && p.rangeMs == early + late
    ensures Seen(p, s, t) == Seen(Over(p, early), s, t - late) + Seen(Over(p, late), s, t)
  {
    hide *;
    SeenIsBetween(p, s, t);
    SeenIsBetween(Over(p, early), s, t - late);
    SeenIsBetween(Over(p, late), s, t);
    PartsOfRange(p, t, early, late);
    BetweenSplits(s, From(p, t), To(p, t) - late, To(p, t));
  }

  lemma PartsOfRange(p: EvalPlan, t: int, early: nat, late: nat)
    requires p.rangeMs == early + late
    ensures From(p, t) <= To(p, t) - late <= To(p, t)
    ensures From(Over(p, early), t - late) == From(p, t) && To(Over(p, early), t - late) == To(p, t) - late
    ensures From(Over(p, late), t) == To(p, t) - late && To(Over(p, late), t) == To(p, t)
  {
  }

  lemma {:induction false} SumConcat(u: seq<real>, v: seq<real>)
    ensures Variance.Sum(u + v) == Variance.Sum(u) + Variance.Sum(v)
  {
    if v == [] {
      assert u + v == u;
    } else {
      assert (u + v)[..|u + v| - 1] == u + v[..|v| - 1];
      SumConcat(u, v[..|v| - 1]);
    }
  }

  function OrZero(v: Option<real>): real { if v.Some? then v.value else 0.0 }

  lemma SumOfSeen(lib: Lib, p: EvalPlan, s: seq<Sample>, t: int)
    requires Increasing(s)
    ensures OrZero(ValueOf(lib, p, "sum_over_time", s, t)) == Variance.Sum(Variance.Values(Seen(p, s, t)))
    ensures OrZero(ValueOf(lib, p, "count_over_time", s, t)) == |Seen(p, s, t)| as real
  {
    NothingSeen(p, s, t);
    OverTimeReports(lib, p, "sum_over_time", s, t);
    OverTimeReports(lib, p, "count_over_time", s, t);
    if Seen(p, s, t) != [] {
      OverTime(lib, p, s, t);
    }
    assert Variance.Sum([]) == 0.0;
    assert Variance.Values([]) == [];
    assert "sum_over_time" in OVER_TIME && "count_over_time" in OVER_TIME;
    hide ValueOf;
    hide Seen;
    hide Variance.Sum;
    hide Variance.Values;
    hide OVER_TIME;
    hide Nothing;
  }

  /** The sum over a range is the sum over its earlier part plus the sum over its later part;
      of one sample it is the value. */
  lemma SumsAddUp(lib: Lib, p: EvalPlan, s: seq<Sample>, t: int, early: nat, late: nat)
    requires Increasing(s) && p.rangeMs == early + late
    ensures OrZero(ValueOf(lib, p, "sum_over_time", s, t))
         == OrZero(ValueOf(lib, Over(p, early), "sum_over_time", s, t - late)) + OrZero(ValueOf(lib, Over(p, late), "sum_over_time", s, t))
  {
    hide *;
    SumOfSeen(lib, p, s, t);
    SumOfSeen(lib, Over(p, early), s, t - late);
    SumOfSeen(lib, Over(p, late), s, t);
    SeenSplits(p, s, t, early, late);
    var u, v := Seen(Over(p, early), s, t - late), Seen(Over(p, late), s, t);
    ValuesConcat(u, v);
    SumConcat(Variance.Values(u), Variance.Values(v));
  }

  lemma ValuesConcat(u: seq<Sample>, v: seq<Sample>)
    ensures Variance.Values(u + v) == Variance.Values(u) + Variance.Values(v)
  {
  }

  lemma SumOfOne(lib: Lib, p: EvalPlan, s: seq<Sample>, t: int, y: Sample)
    requires Increasing(s) && forall x :: InRange(p, s, t, x) <==> x == y
    ensures ValueOf(lib, p, "sum_over_time", s, t) == Some(y.v)
  {
    hide *;
    OnlySeen(p, s, t, y);
    OverTime(lib, p, s, t);
    SumOfSingle(y);
  }

  lemma SumOfSingle(y: Sample)
    ensures Variance.Sum(Variance.Values([y])) == y.v
  {
    assert Variance.Values([y]) == [y.v];
    assert [y.v][..0] == [];
  }

  lemma OnlySeen(p: EvalPlan, s: seq<Sample>, t: int, y: Sample)
    requires Increasing(s) && forall x :: InRange(p, s, t, x) <==> x == y
    ensures Seen(p, s, t) == [y]
  {
    hide *;
    var w := Seen(p, s, t);
    SeenIsInRange(p, s, t);
    WindowIncreases(w, From(p, t), To(p, t));
    OnlyMember(w, y);
  }

  lemma OnlyMember(w: seq<Sample>, y: Sample)
    requires Increasing(w) && forall x :: x in w <==> x == y
    ensures w == [y]
  {
    assert y in w;
    assert |w| >= 2 ==> w[0].ts < w[1].ts;
    forall i | 0 <= i < |w| ensures w[i] == y {
      assert w[i] in w;
    }
  }

  /** The mean times the number of samples is the sum, and the variance is the mean of the
      squares less the square of the mean; the deviation is its root. */
  lemma Spreads(lib: Lib, p: EvalPlan, s: seq<Sample>, t: int)
    requires Increasing(s) && !Nothing(p, s, t)
    ensures Increasing(Mapped(s, x => Square(x)))
    ensures var mean := ValueOf(lib, p, "avg_over_time", s, t);
            var meanOfSquares := ValueOf(lib, p, "avg_over_time", Mapped(s, x => Square(x)), t);
            var variance := ValueOf(lib, p, "stdvar_over_time", s, t);
            && mean.Some? && meanOfSquares.Some? && variance.Some?
            && Some(Times(mean.value, OrZero(ValueOf(lib, p, "count_over_time", s, t)))) == ValueOf(lib, p, "sum_over_time", s, t)
            && variance.value == meanOfSquares.value - Square(mean.value)
            && ValueOf(lib, p, "stddev_over_time", s, t) == Some(lib.sqrt(variance.value))
  {
    hide *;
    var f: real -> real := x => Square(x);
    var w := Seen(p, s, t);
    NothingSeen(p, s, t);
    SeenMapped(p, s, t, f);
    MappedLength(w, f);
    OverTime(lib, p, s, t);
    OverTime(lib, p, Mapped(s, f), t);
    OrZeroOf(w);
    MeanOf(w);
    VarianceOf(w);
  }

  lemma MappedLength(w: seq<Sample>, f: real -> real)
    ensures w != [] ==> Mapped(w, f) != []
  {
  }

  lemma OrZeroOf(w: seq<Sample>)
    ensures OrZero(Some(|w| as real)) == |w| as real
  {
  }

  lemma MeanOf(w: seq<Sample>)
    requires w != []
    ensures Times(Variance.Mean(Variance.Values(w)), |w| as real) == Variance.Sum(Variance.Values(w))
  {
    Variance.MeanTimesCount(Variance.Values(w));
  }

  lemma {:induction false} SumOfSquares(vs: seq<real>, ws: seq<real>)
    requires |ws| == |vs| && forall i :: 0 <= i < |vs| ==> ws[i] == Square(vs[i])
    ensures Variance.Sum(ws) == Variance.Sum2(vs)
  {
    hide Square;
    if vs != [] {
      SumOfSquares(vs[..|vs| - 1], ws[..|ws| - 1]);
    }
  }

  lemma VarianceOf(w: seq<Sample>)
    requires w != []
    ensures var f: real -> real := x => Square(x);
            var vs := Variance.Values(w);
            Mapped(w, f) != []
            && Variance.PopulationVariance(vs) == Variance.Mean(Variance.Values(Mapped(w, f))) - Square(Variance.Mean(vs))
  {
    var f: real -> real := x => Square(x);
    var vs, ws := Variance.Values(w), Variance.Values(Mapped(w, f));
    var mean, n := Variance.Mean(vs), |vs| as real;
    forall i | 0 <= i < |vs| ensures ws[i] == Square(vs[i]) {
    }
    SumOfSquares(vs, ws);
    Variance.MeanTimesCount(vs);
    Variance.DeviationsAtMean(vs, mean);
    MeanOfDifference(Variance.Sum2(vs), mean, Variance.Sum(vs), n);
    hide Square;
    hide Times;
    hide Variance.Sum;
    hide Variance.Sum2;
    hide Variance.SumDev2;
  }

  lemma MeanOfDifference(sum2: real, mean: real, sum: real, n: real)
    requires n > 0.0 && Times(mean, n) == sum
    ensures (sum2 - Times(mean, sum)) / n == sum2 / n - Square(mean)
  {
    var x := sum2 / n;
    assert x * n == sum2;
    assert mean * sum == mean * mean * n;
    Quotient(x - mean * mean, n);
    assert (x - mean * mean) * n == sum2 - mean * sum;
  }

  // ---- Quantiles ----

  /** The ends of quantile_over_time are the extremes. */
  lemma QuantileEnds(lib: Lib, p: EvalPlan, s: seq<Sample>, t: int)
    requires Increasing(s) && !Nothing(p, s, t)
    ensures p.aggParam == 0.0 ==> ValueOf(lib, p, "quantile_over_time", s, t) == ValueOf(lib, p, "min_over_time", s, t)
    ensures p.aggParam == 1.0 ==> ValueOf(lib, p, "quantile_over_time", s, t) == ValueOf(lib, p, "max_over_time", s, t)
    ensures p.aggParam < 0.0 ==> ValueOf(lib, p, "quantile_over_time", s, t) == Some(lib.negInf)
    ensures p.aggParam > 1.0 ==> ValueOf(lib, p, "quantile_over_time", s, t) == Some(lib.posInf)
  {
    hide *;
    NothingSeen(p, s, t);
    OverTime(lib, p, s, t);
    EndsOf(lib, p.aggParam, Seen(p, s, t));
  }

  lemma EndsOf(lib: Lib, phi: real, w: seq<Sample>)
    requires w != []
    ensures var r := RealOf(lib, Quantile.QuantileOverTime(phi, Variance.Values(w)));
            && (phi == 0.0 ==> r == Least(w)) && (phi == 1.0 ==> r == Greatest(w))
            && (phi < 0.0 ==> r == lib.negInf) && (phi > 1.0 ==> r == lib.posInf)
  {
    var vs := Variance.Values(w);
    if phi == 0.0 || phi == 1.0 {
      LeastOf(w);
      Quantile.SortSorts(vs);
      var sorted := Quantile.Sort(vs);
      EndsOfSorted(sorted);
      SortedEnds(w, vs, sorted);
      hide Quantile.Sort;
      hide Quantile.QuantileFromSorted;
    }
  }

  lemma EndsOfSorted(s: seq<real>)
    requires s != []
    ensures Quantile.QuantileFromSorted(0.0, s) == s[0] && Quantile.QuantileFromSorted(1.0, s) == s[|s| - 1]
  {
    assert Quantile.Rank(0.0, |s|) == 0.0 && Quantile.Rank(1.0, |s|) == (|s| - 1) as real;
    Quantile.WholeWeight(s[0], s[if 1 < |s| then 1 else 0]);
    Quantile.WholeWeight(s[|s| - 1], s[|s| - 1]);
  }

  lemma SortedEnds(w: seq<Sample>, vs: seq<real>, sorted: seq<real>)
    requires w != [] && vs == Variance.Values(w) && Quantile.Sorted(sorted) && multiset(sorted) == multiset(vs) && |sorted| == |vs|
    ensures sorted[0] == Least(w) && sorted[|sorted| - 1] == Greatest(w)
  {
    LeastOf(w);
    hide Least;
    hide Greatest;
    var x :| x in w && x.v == Least(w);
    var y :| y in w && y.v == Greatest(w);
    ValueIn(w, vs, x);
    ValueIn(w, vs, y);
    assert x.v in multiset(sorted) && y.v in multiset(sorted);
    var i :| 0 <= i < |sorted| && sorted[i] == x.v;
    var j :| 0 <= j < |sorted| && sorted[j] == y.v;
    assert sorted[0] in multiset(vs) && sorted[|sorted| - 1] in multiset(vs);
    var k :| 0 <= k < |vs| && vs[k] == sorted[0];
    var l :| 0 <= l < |vs| && vs[l] == sorted[|sorted| - 1];
    assert w[k] in w && w[l] in w;
  }

  lemma ValueIn(w: seq<Sample>, vs: seq<real>, x: Sample)
    requires vs == Variance.Values(w) && x in w
    ensures x.v in multiset(vs)
  {
    var i :| 0 <= i < |w| && w[i] == x;
    assert vs[i] == x.v;
  }

  /** mad_over_time is the middle quantile of the distances from the middle quantile. */
  lemma MedianDistance(lib: Lib, p: EvalPlan, s: seq<Sample>, t: int, c: real)
    requires Increasing(s) && !Nothing(p, s, t) && p.aggParam == 0.5
    requires ValueOf(lib, p, "quantile_over_time", s, t) == Some(c)
    ensures Increasing(Mapped(s, x => Abs(x - c)))
    ensures ValueOf(lib, p, "mad_over_time", s, t) == ValueOf(lib, p, "quantile_over_time", Mapped(s, x => Abs(x - c)), t)
  {
    hide *;
    var f: real -> real := x => Abs(x - c);
    var w := Seen(p, s, t);
    NothingSeen(p, s, t);
    SeenMapped(p, s, t, f);
    MappedLength(w, f);
    OverTime(lib, p, s, t);
    OverTime(lib, p, Mapped(s, f), t);
    DistancesOf(lib, w, c);
  }

  lemma {:induction false} DistancesAt(vs: seq<real>, c: real, i: nat)
    requires i < |vs|
    ensures Quantile.Distances(vs, c)[i] == Abs(vs[i] - c)
  {
    if i < |vs| - 1 {
      DistancesAt(vs[..|vs| - 1], c, i);
    }
  }

  lemma DistancesShorter(vs: seq<real>, c: real, i: nat)
    requires i < |vs|
    ensures Quantile.Distances(Seqs.Without(vs, i), c) == Seqs.Without(Quantile.Distances(vs, c), i)
    ensures Quantile.Distances(vs, c)[i] == Abs(vs[i] - c)
  {
    var ds, rest := Quantile.Distances(vs, c), Seqs.Without(vs, i);
    var ds' := Quantile.Distances(rest, c);
    hide Quantile.Distances;
    hide Abs;
    forall j | 0 <= j < |rest| ensures ds'[j] == Seqs.Without(ds, i)[j] {
      var k := if j < i then j else j + 1;
      DistancesAt(rest, c, j);
      DistancesAt(vs, c, k);
      assert rest[j] == vs[k] && Seqs.Without(ds, i)[j] == ds[k];
    }
    DistancesAt(vs, c, i);
  }

  lemma DistancesWithout(vs: seq<real>, c: real, i: nat)
    requires i < |vs|
    ensures multiset(Quantile.Distances(vs, c)) == multiset(Quantile.Distances(Seqs.Without(vs, i), c)) + multiset{Abs(vs[i] - c)}
  {
    hide *;
    DistancesShorter(vs, c, i);
    var ds := Quantile.Distances(vs, c);
    Seqs.WithoutMultiset(ds, i);
    assert ds[i] in multiset(ds);
  }

  lemma SameRest<T>(a: multiset<T>, b: multiset<T>, x: T, a': multiset<T>, b': multiset<T>)
    requires a == b && a' == a - multiset{x} && b' == b - multiset{x}
    ensures a' == b'
  {
  }

  lemma {:induction false} DistancesPermute(us: seq<real>, vs: seq<real>, c: real)
    requires multiset(us) == multiset(vs)
    ensures multiset(Quantile.Distances(us, c)) == multiset(Quantile.Distances(vs, c))
    decreases |us|
  {
    hide *;
    Seqs.SameLength(us, vs);
    if us == [] {
      assert vs == [];
    } else {
      assert us[0] in multiset(us) && us[0] in multiset(vs);
      var i :| 0 <= i < |vs| && vs[i] == us[0];
      var us', vs' := Seqs.Without(us, 0), Seqs.Without(vs, i);
      Seqs.WithoutMultiset(us, 0);
      Seqs.WithoutMultiset(vs, i);
      SameRest(multiset(us), multiset(vs), us[0], multiset(us'), multiset(vs'));
      ShorterWithout(us, 0);
      DistancesPermute(us', vs', c);
      DistancesWithout(us, c, 0);
      DistancesWithout(vs, c, i);
    }
  }

  lemma ShorterWithout(us: seq<real>, i: nat)
    requires i < |us|
    ensures |Seqs.Without(us, i)| == |us| - 1
  {
  }

  lemma DistancesOf(lib: Lib, w: seq<Sample>, c: real)
    requires w != [] && RealOf(lib, Quantile.QuantileOverTime(0.5, Variance.Values(w))) == c
    ensures var f: real -> real := x => Abs(x - c);
            Mapped(w, f) != []
            && Quantile.MedianDeviation(Variance.Values(w))
               == RealOf(lib, Quantile.QuantileOverTime(0.5, Variance.Values(Mapped(w, f))))
  {
    var f: real -> real := x => Abs(x - c);
    var vs, ws := Variance.Values(w), Variance.Values(Mapped(w, f));
    forall i | 0 <= i < |vs| ensures Quantile.Distances(vs, c)[i] == ws[i] {
      DistancesAt(vs, c, i);
    }
    assert Quantile.Distances(vs, c) == ws;
    Quantile.SortSorts(vs);
    var sorted := Quantile.Sort(vs);
    assert Quantile.Median(vs) == c;
    DistancesPermute(sorted, vs, c);
    var ds := Quantile.Distances(sorted, c);
    Quantile.SortSorts(ds);
    Quantile.SortSorts(ws);
    Quantile.SortedUnique(Quantile.Sort(ds), Quantile.Sort(ws));
    hide Quantile.Sort;
    hide Quantile.Distances;
    hide Quantile.QuantileFromSorted;
    hide Quantile.Sorted;
    hide Mapped;
  }

  // ---- delta of negated samples ----

  lemma PortionNegated(x: real, part: int, whole: int)
    requires whole > 0
    ensures Portion(-x, part, whole) == -Portion(x, part, whole)
  {
    var y := x * part as real / whole as real;
    assert y * whole as real == x * part as real;
    Quotient(-y, whole as real);
    assert -y * whole as real == -x * part as real;
  }

  lemma PartsNegated(w: seq<Sample>, a: int, b: int)
    requires |w| >= 2 && Span(w) > 0
    ensures |Mapped(w, v => -v)| >= 2 && Span(Mapped(w, v => -v)) > 0
    ensures AllParts(Mapped(w, v => -v), a, b, false) == -AllParts(w, a, b, false)
  {
    var growth := Growth(w, false);
    assert Growth(Mapped(w, v => -v), false) == -growth;
    PortionNegated(growth, GapBefore(w, a), Span(w));
    PortionNegated(growth, GapAfter(w, b), Span(w));
    PortionNegated(growth, 1, 2 * (|w| - 1));
    hide Portion;
    hide Growth;
  }

  /** The delta of negated samples is the negated delta: nothing is clamped, reset or cut at
      zero. */
  lemma DeltaNegates(lib: Lib, p: EvalPlan, s: seq<Sample>, t: int)
    requires Increasing(s)
    ensures Increasing(Mapped(s, v => -v))
    ensures ValueOf(lib, p, "delta", Mapped(s, v => -v), t)
         == match ValueOf(lib, p, "delta", s, t) { case Some(d) => Some(-d) case None => None }
  {
    hide *;
    var f: real -> real := v => -v;
    var w := Seen(p, s, t);
    SeenMapped(p, s, t, f);
    Counters(lib, p, s, t);
    Counters(lib, p, Mapped(s, f), t);
    DeltaOfNegated(w, From(p, t), To(p, t));
  }

  lemma DeltaOfNegated(w: seq<Sample>, a: int, b: int)
    requires InWindow(w, a, b) && InWindow(Mapped(w, v => -v), a, b)
    ensures ExtrapolatedRate(Mapped(w, v => -v), a, b, false, false)
         == match ExtrapolatedRate(w, a, b, false, false) { case Some(d) => Some(-d) case None => None }
  {
    if |w| >= 2 {
      ReportedParts(w, a, b, false);
      ReportedParts(Mapped(w, v => -v), a, b, false);
      PartsNegated(w, a, b);
      hide ExtrapolatedRate;
      hide AllParts;
    }
  }

  // ---- Samples on a line ----

  lemma TwoOnLine(w: seq<Sample>, slope: real, i: nat, j: nat)
    requires OnLine(w, slope) && i < |w| && j < |w|
    ensures w[j].v - w[i].v == Rise(slope, w[j].ts - w[i].ts)
  {
  }

  /** Of samples on a line all these functions report its slope, or its rise over a part of
      the range; predict_linear follows it. */
  lemma LineValues(lib: Lib, p: EvalPlan, s: seq<Sample>, t: int, slope: real)
    requires Increasing(s) && |Seen(p, s, t)| >= 2 && OnLine(Seen(p, s, t), slope)
    ensures var w := Seen(p, s, t);
            var last := w[|w| - 1];
            && (slope >= 0.0 ==> ValueOf(lib, p, "irate", s, t) == Some(slope))
            && ValueOf(lib, p, "idelta", s, t) == Some(Rise(slope, last.ts - w[|w| - 2].ts))
            && ValueOf(lib, p, "deriv", s, t) == Some(slope)
            && ValueOf(lib, p, "predict_linear", s, t)
               == Some(last.v + Rise(slope, To(p, t) - last.ts) + Times(slope, p.aggParam))
  {
    hide *;
    var w := Seen(p, s, t);
    Counters(lib, p, s, t);
    WindowIncreases(w, From(p, t), To(p, t));
    LineOfSamples(w, slope, To(p, t), p.aggParam);
  }

  /** With short gaps on both sides, and for counters no zero inside the range, so do rate,
      increase and delta. */
  lemma LineRates(lib: Lib, p: EvalPlan, s: seq<Sample>, t: int, slope: real)
    requires Increasing(s) && |Seen(p, s, t)| >= 2 && OnLine(Seen(p, s, t), slope)
    requires IsShort(Seen(p, s, t), GapBefore(Seen(p, s, t), From(p, t)))
    requires IsShort(Seen(p, s, t), GapAfter(Seen(p, s, t), To(p, t)))
    ensures ValueOf(lib, p, "delta", s, t) == Some(Rise(slope, p.rangeMs))
    ensures slope >= 0.0 && !StartsInside(Seen(p, s, t), From(p, t), true) ==>
              && ValueOf(lib, p, "rate", s, t) == Some(slope)
              && ValueOf(lib, p, "increase", s, t) == Some(Rise(slope, p.rangeMs))
  {
    hide *;
    var w := Seen(p, s, t);
    Counters(lib, p, s, t);
    RangeIs(p, t);
    GaugeStartsNowhere(w, From(p, t));
    LineIsExact(w, From(p, t), To(p, t), false, slope);
    if slope >= 0.0 && !StartsInside(w, From(p, t), true) {
      LineIsExact(w, From(p, t), To(p, t), true, slope);
    }
  }

  lemma GaugeStartsNowhere(w: seq<Sample>, a: int)
    requires |w| >= 2
    ensures !StartsInside(w, a, false)
  {
  }

  lemma LineOfSamples(w: seq<Sample>, slope: real, u: int, ahead: real)
    requires |w| >= 2 && Increasing(w) && OnLine(w, slope)
    ensures var last := w[|w| - 1];
            && (slope >= 0.0 ==> IRate(w) == Some(slope))
            && IDelta(w) == Some(Rise(slope, last.ts - w[|w| - 2].ts))
            && Regression.Deriv(w) == Some(slope)
            && Regression.PredictLinear(w, u, ahead) == Some(last.v + Rise(slope, u - last.ts) + Times(slope, ahead))
  {
    var n := |w|;
    TwoOnLine(w, slope, n - 2, n - 1);
    InstantOfLine(w, slope);
    FittedLine(w, slope, w[0].ts);
    FittedLine(w, slope, u);
    hide *;
    LineFunctions(w, u, ahead);
  }

  lemma InstantOfLine(w: seq<Sample>, slope: real)
    requires |w| >= 2 && Increasing(w) && OnLine(w, slope)
    ensures slope >= 0.0 ==> IRate(w) == Some(slope)
  {
    if slope >= 0.0 {
      var ms := w[|w| - 1].ts - w[|w| - 2].ts;
      TwoOnLine(w, slope, |w| - 2, |w| - 1);
      RiseMonotone(slope, 0, ms);
      RisePerSecond(slope, ms);
      hide Rise;
    }
  }

  lemma FittedLine(w: seq<Sample>, slope: real, t0: int)
    requires |w| >= 2 && Increasing(w) && OnLine(w, slope)
    ensures Regression.Slope(w, t0) == slope
    ensures Regression.Intercept(w, t0) == w[|w| - 1].v + Rise(slope, t0 - w[|w| - 1].ts)
  {
    var c := w[|w| - 1].v + Rise(slope, t0 - w[|w| - 1].ts);
    forall i | 0 <= i < |w| ensures w[i].v == Regression.At(c, slope, Regression.X(w, t0, i)) {
      TwoOnLine(w, slope, i, |w| - 1);
      PointAt(w[i], w[|w| - 1], slope, t0);
      assert Regression.X(w, t0, i) == Seconds(w[i].ts - t0);
    }
    Regression.LineIsFitted(w, t0, c, slope);
  }

  lemma PointAt(x: Sample, last: Sample, slope: real, t0: int)
    requires last.v - x.v == Rise(slope, last.ts - x.ts)
    ensures x.v == Regression.At(last.v + Rise(slope, t0 - last.ts), slope, Seconds(x.ts - t0))
  {
  }

  lemma LineFunctions(w: seq<Sample>, u: int, ahead: real)
    requires |w| >= 2 && Increasing(w)
    ensures IDelta(w) == Some(w[|w| - 1].v - w[|w| - 2].v)
    ensures Regression.Deriv(w) == Some(Regression.Slope(w, w[0].ts))
    ensures Regression.PredictLinear(w, u, ahead) == Some(Regression.Intercept(w, u) + Times(Regression.Slope(w, u), ahead))
  {
    hide Regression.Slope;
    hide Regression.Intercept;
  }

  // ---- Parameters ----

  /** Extremes take no parameter. */
  lemma ParameterIgnored(lib: Lib, p: EvalPlan, q: EvalPlan, fn: string, s: seq<Sample>, t: int)
    requires Increasing(s) && (fn == "min_over_time" || fn == "max_over_time")
    requires q == p.(aggParam := q.aggParam, funcName := q.funcName)
    ensures ValueOf(lib, p, fn, s, t) == ValueOf(lib, q, fn, s, t)
  {
    SameRange(p, q, s, t);
    SeenValue(lib, p, fn, s, t);
    SeenValue(lib, q, fn, s, t);
    if fn == "min_over_time" {
      MinIgnores(lib, p.aggParam, q.aggParam, p.smoothing, Seen(p, s, t), From(p, t), To(p, t));
    } else {
      MaxIgnores(lib, p.aggParam, q.aggParam, p.smoothing, Seen(p, s, t), From(p, t), To(p, t));
    }
    hide *;
  }

  lemma SameRange(p: EvalPlan, q: EvalPlan, s: seq<Sample>, t: int)
    requires Increasing(s) && p.rangeMs == q.rangeMs && p.offsetMs == q.offsetMs
    ensures From(p, t) == From(q, t) && To(p, t) == To(q, t) && Seen(p, s, t) == Seen(q, s, t)
  {
  }

  lemma MinIgnores(lib: Lib, a: real, b: real, smoothing: real, w: seq<Sample>, from: int, to: int)
    requires InWindow(w, from, to)
    ensures WindowValue(lib, "min_over_time", a, smoothing, w, from, to) == WindowValue(lib, "min_over_time", b, smoothing, w, from, to)
  {
    hide Least;
  }

  lemma MaxIgnores(lib: Lib, a: real, b: real, smoothing: real, w: seq<Sample>, from: int, to: int)
    requires InWindow(w, from, to)
    ensures WindowValue(lib, "max_over_time", a, smoothing, w, from, to) == WindowValue(lib, "max_over_time", b, smoothing, w, from, to)
  {
    hide Greatest;
  }

  /** A prediction goes on from the one for now with the derivative. */
  lemma PredictionOfSeries(lib: Lib, p: EvalPlan, q: EvalPlan, s: seq<Sample>, t: int)
    requires Increasing(s) && q == p.(aggParam := 0.0)
    ensures var ahead, now, deriv := ValueOf(lib, p, "predict_linear", s, t), ValueOf(lib, q, "predict_linear", s, t),
                                     ValueOf(lib, q, "deriv", s, t);
            && (ahead.Some? <==> now.Some?) && (ahead.Some? <==> deriv.Some?)
            && (ahead.Some? ==> ahead.value == now.value + Times(deriv.value, p.aggParam))
  {
    SameRange(p, q, s, t);
    hide *;
    Counters(lib, p, s, t);
    Counters(lib, q, s, t);
    var w := Seen(p, s, t);
    WindowIncreases(w, From(p, t), To(p, t));
    PredictionOfWindow(w, To(p, t), p.aggParam);
  }

  lemma PredictionOfWindow(w: seq<Sample>, u: int, d: real)
    requires Increasing(w)
    ensures var ahead, now, deriv := Regression.PredictLinear(w, u, d), Regression.PredictLinear(w, u, 0.0), Regression.Deriv(w);
            && (ahead.Some? <==> now.Some?) && (ahead.Some? <==> deriv.Some?)
            && (ahead.Some? ==> ahead.value == now.value + Times(deriv.value, d))
  {
    if |w| >= 2 {
      Regression.SameLine(w, w[0].ts, u, Seconds(w[0].ts - u));
      assert Times(Regression.Slope(w, u), 0.0) == 0.0;
    }
    hide Regression.Slope;
    hide Regression.Intercept;
    hide Times;
  }

  /** Smoothing takes its factors in this order. */
  lemma SmoothingOfSeries(lib: Lib, p: EvalPlan, s: seq<Sample>, t: int)
    requires Increasing(s)
    ensures ValueOf(lib, p, "double_exponential_smoothing", s, t)
         == Smoothing.DoubleExponentialSmoothing(Seen(p, s, t), p.aggParam, p.smoothing)
  {
    hide *;
    AllKnown();
    SeenValue(lib, p, "double_exponential_smoothing", s, t);
    SmoothingName(lib, p.aggParam, p.smoothing, Seen(p, s, t), From(p, t), To(p, t));
  }

  lemma SmoothingName(lib: Lib, a: real, b: real, w: seq<Sample>, from: int, to: int)
    requires InWindow(w, from, to)
    ensures WindowValue(lib, "double_exponential_smoothing", a, b, w, from, to) == Smoothing.DoubleExponentialSmoothing(w, a, b)
  {
    hide Smoothing.DoubleExponentialSmoothing;
  }
}

/** histogram_quantile inverts the distribution that the buckets describe
    (eval/histogram.go:52-74): between two bounds the observations are spread evenly. */
module HistogramInverse {
  import opened Types
  import opened Reals
  import opened Histogram
  import opened HistogramQuantile

  /** What `part` of `whole` is worth when `whole` is worth `y`. */
  function Even(y: real, part: real, whole: real): real
    requires whole != 0.0
  {
    y * part / whole
  }

  /** The observations up to `x`, if `count` of them are at most `bound` and the buckets
      follow. */
  ghost function Cumulative(bound: real, count: real, p: seq<Bucket>, x: real): real
    decreases p
  {
    if p == [] || p[0].bound.Infinite? then count
    else if x <= p[0].bound.r then
      if p[0].bound.r == bound then count else count + Even(p[0].count - count, x - bound, p[0].bound.r - bound)
    else Cumulative(p[0].bound.r, p[0].count, p[1..], x)
  }

  /** The distribution starts with no observation at zero, or with those of the first bucket
      if its bound is not positive. */
  ghost function Distribution(p: seq<Bucket>, x: real): real
    requires Ready(p)
  {
    if High(p, 0) <= 0.0 then Cumulative(High(p, 0), p[0].count, p[1..], x) else Cumulative(0.0, 0.0, p, x)
  }

  /** The observations below a bucket. */
  function CountBelow(p: seq<Bucket>, b: nat): real
    requires b < |p|
  {
    if b == 0 then 0.0 else p[b - 1].count
  }

  /** The rank falls into a bucket of finite width. */
  ghost predicate Interpolates(p: seq<Bucket>, rank: real)
    requires Ready(p)
  {
    Locate(p, rank) < |p| - 1 && (Locate(p, rank) > 0 || High(p, 0) > 0.0)
  }

  lemma EvenPlace(low: real, high: real, r: real, c: real)
    requires low < high && 0.0 < r <= c
    ensures Within(low, high, r, c).Fin?
    ensures var x := Within(low, high, r, c).r;
            low < x <= high && Times(x - low, c) == Times(high - low, r) && Even(c, x - low, high - low) == r
  {
    var share, width := r / c, high - low;
    assert share * c == r && 0.0 < share <= 1.0;
    var x := low + width * share;
    assert Within(low, high, r, c) == Fin(x);
    assert width * share * c == width * r;
    assert 0.0 < width * share <= width;
    assert c * (width * share) == r * width;
    assert r * width / width == r;
  }

  lemma BoundsRise(p: seq<Bucket>, b: nat)
    requires Ready(p) && b < |p| - 1
    ensures b > 0 || High(p, 0) > 0.0 ==> Low(p, b) < High(p, b)
    ensures forall i :: 0 <= i < |p| - 1 ==> p[i].bound.Finite?
    ensures High(p, b) == p[b].bound.r && (b > 0 ==> Low(p, b) == p[b - 1].bound.r)
    ensures b == 0 && High(p, 0) > 0.0 ==> Low(p, 0) == 0.0
  {
    forall i | 0 <= i < |p| - 1 ensures p[i].bound.Finite? {
      OthersFinite(p, i);
    }
    if b > 0 {
      assert Less(p[b - 1].bound, p[b].bound);
    }
  }

  /** The value divides its bucket as its rank divides the observations in it. */
  lemma ValueDividesBucket(p: seq<Bucket>, rank: real)
    requires Ready(p) && 0.0 < rank && Interpolates(p, rank)
    ensures var b := Locate(p, rank);
            var low, high, below := Low(p, b), High(p, b), CountBelow(p, b);
            && ValueAtRank(p, rank).Fin?
            && low < ValueAtRank(p, rank).r <= high && below < rank <= p[b].count
            && Times(ValueAtRank(p, rank).r - low, p[b].count - below) == Times(high - low, rank - below)
            && Even(p[b].count - below, ValueAtRank(p, rank).r - low, high - low) == rank - below
  {
    var b := Locate(p, rank);
    LocateFirst(p, rank);
    BoundsRise(p, b);
    EvenPlace(Low(p, b), High(p, b), rank - CountBelow(p, b), p[b].count - CountBelow(p, b));
    hide Within;
    hide Even;
    hide Times;
    hide Locate;
  }

  lemma {:induction false} CumulativeAt(bound: real, count: real, p: seq<Bucket>, x: real, b: nat)
    requires b < |p| && (forall i :: 0 <= i <= b ==> p[i].bound.Finite?)
    requires forall i :: 0 <= i < b ==> p[i].bound.r < x
    requires x <= p[b].bound.r
    ensures var low, below := if b == 0 then bound else p[b - 1].bound.r, if b == 0 then count else p[b - 1].count;
            low < p[b].bound.r ==>
              Cumulative(bound, count, p, x) == below + Even(p[b].count - below, x - low, p[b].bound.r - low)
    decreases b
  {
    hide Even;
    if b > 0 {
      CumulativeAt(p[0].bound.r, p[0].count, p[1..], x, b - 1);
    }
  }

  lemma BoundsBelow(p: seq<Bucket>, b: nat, x: real)
    requires Ready(p) && b < |p| - 1 && (b > 0 ==> High(p, b - 1) < x)
    ensures forall i :: 0 <= i < b ==> p[i].bound.Finite? && p[i].bound.r < x
  {
    forall i | 0 <= i < b ensures p[i].bound.Finite? && p[i].bound.r < x {
      OthersFinite(p, i);
      OthersFinite(p, b - 1);
      assert i < b - 1 ==> Less(p[i].bound, p[b - 1].bound);
    }
  }

  /** The distribution takes the rank as its value at the quantile. */
  lemma DistributionAtRank(p: seq<Bucket>, rank: real)
    requires Ready(p) && 0.0 < rank && Interpolates(p, rank)
    ensures ValueAtRank(p, rank).Fin? && Distribution(p, ValueAtRank(p, rank).r) == rank
  {
    var b := Locate(p, rank);
    ValueDividesBucket(p, rank);
    BoundsRise(p, b);
    var x := ValueAtRank(p, rank).r;
    BoundsBelow(p, b, x);
    hide ValueAtRank;
    hide Even;
    hide Locate;
    hide Times;
    if High(p, 0) <= 0.0 {
      CumulativeAt(High(p, 0), p[0].count, p[1..], x, b - 1);
    } else {
      CumulativeAt(0.0, 0.0, p, x, b);
    }
  }

  /** Of a usable histogram, for q in (0, 1] whose rank falls into a bucket of finite width:
      as many observations as q asks for lie at or below the quantile. */
  lemma QuantileInvertsDistribution(q: real, bs: seq<Bucket>)
    requires Usable(bs) && 0.0 < q <= 1.0 && Interpolates(Prepared(bs), Times(q, Observations(bs)))
    ensures QuantileOf(q, bs).Some? && QuantileOf(q, bs).value.0.Fin?
    ensures Distribution(Prepared(bs), QuantileOf(q, bs).value.0.r) == Times(q, Observations(bs))
  {
    hide ValueAtRank;
    hide Distribution;
    hide Interpolates;
    hide Times;
    TwoBuckets(bs);
    RankPositive(q, q, Observations(bs));
    DistributionAtRank(Prepared(bs), Times(q, Observations(bs)));
  }

  /** Elsewhere the quantile is a bound: the last finite one, or the first. */
  lemma QuantileAtBound(q: real, bs: seq<Bucket>)
    requires Usable(bs) && 0.0 < q <= 1.0 && !Interpolates(Prepared(bs), Times(q, Observations(bs)))
    ensures var p := Prepared(bs);
            && Locate(p, Times(q, Observations(bs))) in {0, |p| - 1}
            && QuantileOf(q, bs).Some?
            && QuantileOf(q, bs).value.0 == Fin(if Locate(p, Times(q, Observations(bs))) == 0 then High(p, 0) else High(p, |p| - 1))
  {
    var p := Prepared(bs);
    TwoBuckets(bs);
    OthersFinite(p, 0);
    OthersFinite(p, |p| - 2);
    hide Times;
    hide Locate;
    hide Prepared;
  }

  // ---- What the preparation does to the counts ----

  const TRILLION: real := 1000000000000.0

  /** Two counts, neither negative, that differ by more than rounding, or not at all. */
  predicate Apart(prev: real, count: real) {
    prev == count || (prev < count && (if prev == 0.0 then 1.0 else count) <= (count - prev) * TRILLION)
  }

  ghost predicate Counts(bs: seq<Bucket>) {
    forall i :: 0 <= i < |bs| ==> 0.0 <= bs[i].count
  }

  lemma ClampedExactly(prev: real, count: real)
    requires 0.0 <= prev && 0.0 <= count
    ensures ClampCount(prev, count) == count <==> Apart(prev, count)
    ensures ClampCount(prev, count) != prev ==> ClampCount(prev, count) == count
    ensures prev <= ClampCount(prev, count)
    ensures (count - ClampCount(prev, count)) * TRILLION <= count + 1.0
  {
    if prev < count && prev != 0.0 {
      var share := (count - prev) / count;
      assert share * count == count - prev;
      assert AlmostEqual(prev, count, TOLERANCE) <==> share < TOLERANCE;
      if share < TOLERANCE {
        TimesPositive(TOLERANCE - share, count);
        assert (TOLERANCE - share) * count == TOLERANCE * count - (count - prev);
      } else {
        TimesNonNegative(share - TOLERANCE, count);
        assert (share - TOLERANCE) * count == (count - prev) - TOLERANCE * count;
      }
    }
  }

  lemma {:induction false} ClampKeeps(prev: real, bs: seq<Bucket>)
    requires 0.0 <= prev && Counts(bs)
    ensures Clamp(prev, bs) == bs
            <==> (bs != [] ==> Apart(prev, bs[0].count)) && forall i :: 0 < i < |bs| ==> Apart(bs[i - 1].count, bs[i].count)
    decreases bs
  {
    if bs != [] {
      var c := bs[0].count;
      ClampedExactly(prev, c);
      var rest := bs[1..];
      assert forall i :: 0 <= i < |rest| ==> rest[i] == bs[i + 1];
      ClampKeeps(c, rest);
      hide Apart;
      hide ClampCount;
      if Clamp(prev, bs) == bs {
        assert Clamp(prev, bs)[0].count == c && Clamp(prev, bs)[1..] == rest;
        forall i | 0 < i < |bs| ensures Apart(bs[i - 1].count, bs[i].count) {
          if i > 1 {
            assert Apart(rest[i - 2].count, rest[i - 1].count);
          }
        }
      }
      if forall i :: 0 < i < |bs| ==> Apart(bs[i - 1].count, bs[i].count) {
        forall i | 0 < i < |rest| ensures Apart(rest[i - 1].count, rest[i].count) {
          assert Apart(bs[i].count, bs[i + 1].count);
        }
        if rest != [] {
          assert Apart(bs[0].count, bs[1].count);
        }
      }
    }
  }

  /** Counts stay as they are exactly when each is the one before it or exceeds it by at
      least a part in a million million. */
  lemma MonotoneKeeps(bs: seq<Bucket>)
    requires bs != [] && Counts(bs)
    ensures Monotone(bs) == bs <==> forall i :: 0 < i < |bs| ==> Apart(bs[i - 1].count, bs[i].count)
  {
    var rest := bs[1..];
    assert bs == [bs[0]] + rest;
    ClampKeeps(bs[0].count, rest);
    hide Apart;
    hide Clamp;
    assert forall i :: 0 <= i < |rest| ==> rest[i] == bs[i + 1];
    if Monotone(bs) == bs {
      assert Monotone(bs)[1..] == rest;
      forall i | 0 < i < |bs| ensures Apart(bs[i - 1].count, bs[i].count) {
        if i > 1 {
          assert Apart(rest[i - 2].count, rest[i - 1].count);
        }
      }
    }
    if forall i :: 0 < i < |bs| ==> Apart(bs[i - 1].count, bs[i].count) {
      forall i | 0 < i < |rest| ensures Apart(rest[i - 1].count, rest[i].count) {
        assert Apart(bs[i].count, bs[i + 1].count);
      }
      if rest != [] {
        assert Apart(bs[0].count, bs[1].count);
      }
    }
  }

  lemma {:induction false} ClampedCounts(prev: real, bs: seq<Bucket>, i: nat)
    requires 0.0 <= prev && Counts(bs) && i < |bs|
    ensures |Clamp(prev, bs)| == |bs|
    ensures var c := Clamp(prev, bs)[i].count;
            && prev <= c
            && (c == prev || exists j :: 0 <= j <= i && c == bs[j].count)
            && forall j :: 0 <= j <= i ==> (bs[j].count - c) * TRILLION <= bs[j].count + 1.0
    decreases bs
  {
    var first := ClampCount(prev, bs[0].count);
    ClampedExactly(prev, bs[0].count);
    ClampShape(first, bs[1..]);
    hide ClampCount;
    var rest := bs[1..];
    if i > 0 {
      ClampedCounts(first, rest, i - 1);
      var c := Clamp(prev, bs)[i].count;
      assert c == Clamp(first, rest)[i - 1].count;
      forall j | 0 <= j <= i ensures (bs[j].count - c) * TRILLION <= bs[j].count + 1.0 {
        if j > 0 {
          assert rest[j - 1] == bs[j];
        }
      }
      if c != first {
        var j :| 0 <= j <= i - 1 && c == rest[j].count;
        assert c == bs[j + 1].count;
      } else if c != prev {
        assert c == bs[0].count;
      }
    }
  }

  /** Each prepared count is one of the counts up to its bucket, and falls short of none of
      them by more than rounding. */
  lemma MonotoneIsRunningMaximum(bs: seq<Bucket>, i: nat)
    requires Counts(bs) && i < |bs|
    ensures |Monotone(bs)| == |bs|
    ensures exists j :: 0 <= j <= i && Monotone(bs)[i].count == bs[j].count
    ensures forall j :: 0 <= j <= i ==> (bs[j].count - Monotone(bs)[i].count) * TRILLION <= bs[j].count + 1.0
  {
    ClampShape(bs[0].count, bs[1..]);
    var rest := bs[1..];
    if i == 0 {
      assert Monotone(bs)[0].count == bs[0].count;
    } else {
      ClampedCounts(bs[0].count, rest, i - 1);
      var c := Monotone(bs)[i].count;
      assert c == Clamp(bs[0].count, rest)[i - 1].count;
      hide Clamp;
      forall j | 0 <= j <= i ensures (bs[j].count - c) * TRILLION <= bs[j].count + 1.0 {
        if j > 0 {
          assert rest[j - 1] == bs[j];
        }
      }
      if c != bs[0].count {
        var j :| 0 <= j <= i - 1 && c == rest[j].count;
        assert c == bs[j + 1].count;
      }
    }
  }
}

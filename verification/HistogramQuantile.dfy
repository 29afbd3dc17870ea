/** The quantile of a prepared histogram, and the in-place preparation of the buckets
    (eval/histogram.go:20-126). */
module HistogramQuantile {
  import opened Types
  import opened Reals
  import opened Histogram
  import Plans
  import Staleness
  import Seqs

  const TOLERANCE: real := 0.000000000001

  predicate AlmostEqual(a: real, b: real, tol: real) {
    if a == b then true
    else if a == 0.0 || b == 0.0 then Abs(a - b) < tol
    else Abs(a - b) / Plans.MathMax(Abs(a), Abs(b)) < tol
  }

  /** The count a bucket keeps after a bucket with count `prev`. */
  function ClampCount(prev: real, count: real): real {
    if AlmostEqual(prev, count, TOLERANCE) || count < prev then prev else count
  }

  /** Whether a drop too large to be rounding was removed. */
  predicate Drops(prev: real, count: real) {
    !AlmostEqual(prev, count, TOLERANCE) && count < prev
  }

  function Clamp(prev: real, bs: seq<Bucket>): seq<Bucket>
    decreases bs
  {
    if bs == [] then []
    else
      var c := ClampCount(prev, bs[0].count);
      [Bucket(bs[0].bound, c)] + Clamp(c, bs[1..])
  }

  predicate Forced(prev: real, bs: seq<Bucket>)
    decreases bs
  {
    bs != [] && (Drops(prev, bs[0].count) || Forced(ClampCount(prev, bs[0].count), bs[1..]))
  }

  function Monotone(bs: seq<Bucket>): seq<Bucket>
    requires bs != []
  {
    [bs[0]] + Clamp(bs[0].count, bs[1..])
  }

  lemma {:induction false} ClampShape(prev: real, bs: seq<Bucket>)
    ensures |Clamp(prev, bs)| == |bs|
    ensures forall i :: 0 <= i < |bs| ==> Clamp(prev, bs)[i].bound == bs[i].bound
    ensures forall i :: 0 <= i < |bs| ==> prev <= Clamp(prev, bs)[i].count
    ensures NonDecreasing(Clamp(prev, bs))
    decreases bs
  {
    if bs != [] {
      ClampShape(ClampCount(prev, bs[0].count), bs[1..]);
    }
  }

  /** ensureMonotonic keeps the bounds and the first count and leaves counts that never
      go down. */
  lemma MonotoneShape(bs: seq<Bucket>)
    requires bs != []
    ensures |Monotone(bs)| == |bs| && Monotone(bs)[0] == bs[0]
    ensures forall i :: 0 <= i < |bs| ==> Monotone(bs)[i].bound == bs[i].bound
    ensures NonDecreasing(Monotone(bs))
  {
    ClampShape(bs[0].count, bs[1..]);
  }

  /** Rank `r` of `c` observations inside the bucket from `start` to `end`; a zero count
      divides by zero and gives what IEEE division gives for an ascending bucket. */
  function Within(start: real, end: real, r: real, c: real): Float {
    if c == 0.0 then (if r == 0.0 then NaN else if r > 0.0 then PosInf else NegInf)
    else Fin(start + Times(end - start, r / c))
  }

  /** A prepared histogram: one bucket per bound, ascending, the last one infinite,
      cumulative counts that never go down. */
  ghost predicate Ready(p: seq<Bucket>) {
    && |p| >= 2
    && StrictlyAscending(p)
    && p[|p| - 1].bound == Infinite
    && NonDecreasing(p)
  }

  lemma OthersFinite(p: seq<Bucket>, i: nat)
    requires Ready(p) && i < |p| - 1
    ensures p[i].bound.Finite?
  {
    assert Less(p[i].bound, p[|p| - 1].bound);
  }

  /** The bucket that holds `rank`. */
  function Locate(p: seq<Bucket>, rank: real): (b: nat)
    requires |p| >= 1
    ensures b <= |p| - 1
  {
    Staleness.Search(0, |p| - 1, (i: nat) requires i < |p| => p[i].count >= rank)
  }

  /** Only because the counts never go down does the binary search find the first
      bucket whose count reaches the rank. */
  lemma LocateFirst(p: seq<Bucket>, rank: real)
    requires Ready(p)
    ensures forall i :: 0 <= i < Locate(p, rank) ==> p[i].count < rank
    ensures forall i :: Locate(p, rank) <= i < |p| - 1 ==> rank <= p[i].count
  {
    var b := Locate(p, rank);
    if b > 0 {
      assert p[b - 1].count < rank;
    }
  }

  function ValueAtRank(p: seq<Bucket>, rank: real): Float
    requires Ready(p)
  {
    var b := Locate(p, rank);
    OthersFinite(p, |p| - 2);
    OthersFinite(p, 0);
    if b == |p| - 1 then Fin(p[|p| - 2].bound.r)
    else if b == 0 && p[0].bound.r <= 0.0 then Fin(p[0].bound.r)
    else
      OthersFinite(p, b);
      if b > 0 then
        OthersFinite(p, b - 1);
        Within(p[b - 1].bound.r, p[b].bound.r, rank - p[b - 1].count, p[b].count - p[b - 1].count)
      else Within(0.0, p[0].bound.r, rank, p[0].count)
  }

  /** histogram_quantile(q, bs): the value and whether monotonicity was forced; None
      when the program reports no sample. */
  function QuantileOf(q: real, bs: seq<Bucket>): Option<(Float, bool)> {
    if q < 0.0 then Some((NegInf, false))
    else if q > 1.0 then Some((PosInf, false))
    else if bs == [] then None
    else if !exists i :: 0 <= i < |bs| && bs[i].bound == Infinite then Some((NaN, false))
    else
      var merged := MergeAll(bs);
      MergedShape(bs);
      var p := Monotone(merged);
      MonotoneShape(merged);
      if |p| < 2 then Some((NaN, false))
      else if p[|p| - 1].count == 0.0 then Some((NaN, false))
      else
        ReadyAfterMerge(bs);
        Some((ValueAtRank(p, Times(q, p[|p| - 1].count)), Forced(merged[0].count, merged[1..])))
  }

  lemma {:induction false} MergeKeepsInfinite(b: Bucket, bs: seq<Bucket>)
    requires StrictlyAscending(bs)
    ensures var m := Merge(b, bs);
            m != [] && (m[|m| - 1].bound == Infinite <==>
                          b.bound == Infinite || (bs != [] && bs[|bs| - 1].bound == Infinite))
  {
    if bs == [] || Less(b.bound, bs[0].bound) {
    } else if b.bound == bs[0].bound {
      if |bs| > 1 {
        assert Less(bs[0].bound, bs[|bs| - 1].bound);
      }
    } else {
      MergeKeepsInfinite(b, bs[1..]);
      if |bs| > 1 {
        assert Less(bs[0].bound, bs[|bs| - 1].bound);
      }
    }
  }

  lemma {:induction false} MergedShape(bs: seq<Bucket>)
    ensures StrictlyAscending(MergeAll(bs))
    ensures bs != [] ==> MergeAll(bs) != []
    ensures var m := MergeAll(bs);
            m != [] && m[|m| - 1].bound == Infinite <==> exists i :: 0 <= i < |bs| && bs[i].bound == Infinite
  {
    MergeAllAscending(bs);
    if bs != [] {
      var rest := bs[1..];
      MergedShape(rest);
      MergeAllAscending(rest);
      MergeKeepsInfinite(bs[0], MergeAll(rest));
      if exists i :: 0 <= i < |bs| && bs[i].bound == Infinite {
        var i :| 0 <= i < |bs| && bs[i].bound == Infinite;
        if i > 0 {
          assert rest[i - 1].bound == Infinite;
        }
      }
      if exists i :: 0 <= i < |rest| && rest[i].bound == Infinite {
        var i :| 0 <= i < |rest| && rest[i].bound == Infinite;
        assert bs[i + 1].bound == Infinite;
      }
    }
  }

  lemma ReadyAfterMerge(bs: seq<Bucket>)
    requires exists i :: 0 <= i < |bs| && bs[i].bound == Infinite
    requires |MergeAll(bs)| >= 2
    ensures MergeAll(bs) != [] && Ready(Monotone(MergeAll(bs)))
  {
    MergedShape(bs);
    MonotoneShape(MergeAll(bs));
  }

  /** The order in which the buckets arrive does not matter. */
  lemma QuantilePermutes(q: real, bs: seq<Bucket>, cs: seq<Bucket>)
    requires multiset(bs) == multiset(cs)
    ensures QuantileOf(q, bs) == QuantileOf(q, cs)
  {
    MergeAllPermute(bs, cs);
    MergedShape(bs);
    MergedShape(cs);
    hide MergeAll;
    hide Monotone;
    hide Forced;
    hide ValueAtRank;
    hide StrictlyAscending;
    assert bs == [] <==> cs == [] by {
      assert |multiset(bs)| == |bs| && |multiset(cs)| == |cs|;
    }
  }

  // ---- The value lies in its bucket and is monotone in the rank ----

  /** Upper end of the bucket at `b`; the last finite bound for the infinite bucket. */
  function High(p: seq<Bucket>, b: nat): real
    requires Ready(p) && b < |p|
  {
    var i := if b == |p| - 1 then b - 1 else b;
    OthersFinite(p, i);
    p[i].bound.r
  }

  function Low(p: seq<Bucket>, b: nat): real
    requires Ready(p) && b < |p|
  {
    if b == |p| - 1 then High(p, b)
    else if b > 0 then High(p, b - 1)
    else if High(p, 0) <= 0.0 then High(p, 0)
    else 0.0
  }

  lemma WithinBounds(start: real, end: real, r: real, r': real, c: real)
    requires start <= end && 0.0 < r <= r' <= c
    ensures Within(start, end, r, c).Fin? && Within(start, end, r', c).Fin?
    ensures start <= Within(start, end, r, c).r <= Within(start, end, r', c).r <= end
  {
    assert 0.0 <= r / c <= r' / c <= 1.0;
    TimesMonotone(end - start, 0.0, r / c);
    TimesMonotone(end - start, r / c, r' / c);
    TimesMonotone(end - start, r' / c, 1.0);
    assert Times(end - start, 1.0) == end - start && Times(end - start, 0.0) == 0.0;
  }

  /** A positive rank never divides by zero, and its value stays inside the bucket that
      holds it. Two ranks in one bucket keep their order. */
  lemma ValueInBucket(p: seq<Bucket>, rank: real, rank': real)
    requires Ready(p) && 0.0 < rank <= rank' && Locate(p, rank) == Locate(p, rank')
    ensures ValueAtRank(p, rank).Fin? && ValueAtRank(p, rank').Fin?
    ensures var b := Locate(p, rank);
            Low(p, b) <= ValueAtRank(p, rank).r <= ValueAtRank(p, rank').r <= High(p, b)
  {
    hide Within;
    LocateFirst(p, rank);
    LocateFirst(p, rank');
    var b := Locate(p, rank);
    OthersFinite(p, |p| - 2);
    OthersFinite(p, 0);
    if b < |p| - 1 {
      if b > 0 {
        OthersFinite(p, b);
        OthersFinite(p, b - 1);
        WithinBounds(p[b - 1].bound.r, p[b].bound.r, rank - p[b - 1].count, rank' - p[b - 1].count,
                     p[b].count - p[b - 1].count);
      } else if p[0].bound.r > 0.0 {
        WithinBounds(0.0, p[0].bound.r, rank, rank', p[0].count);
      }
    }
  }

  lemma HighBelowLow(p: seq<Bucket>, b: nat, b': nat)
    requires Ready(p) && b < b' < |p|
    ensures High(p, b) <= Low(p, b')
  {
    OthersFinite(p, b);
    var i := b' - 1;
    OthersFinite(p, i);
    assert b < i ==> Less(p[b].bound, p[i].bound);
  }

  lemma ValueMonotone(p: seq<Bucket>, rank: real, rank': real)
    requires Ready(p) && 0.0 < rank <= rank'
    ensures ValueAtRank(p, rank).Fin? && ValueAtRank(p, rank').Fin?
    ensures ValueAtRank(p, rank).r <= ValueAtRank(p, rank').r
  {
    hide ValueAtRank;
    hide Low;
    hide High;
    var b, b' := Locate(p, rank), Locate(p, rank');
    LocateFirst(p, rank);
    LocateFirst(p, rank');
    assert b <= b';
    if b == b' {
      ValueInBucket(p, rank, rank');
    } else {
      ValueInBucket(p, rank, rank);
      ValueInBucket(p, rank', rank');
      HighBelowLow(p, b, b');
    }
  }

  // ---- Main results ----

  /** What a usable classic histogram is: a +Inf bucket, two distinct bounds, counts that
      are not negative and do not all vanish. */
  ghost predicate Usable(bs: seq<Bucket>) {
    && (exists i :: 0 <= i < |bs| && bs[i].bound == Infinite)
    && (exists i :: 0 <= i < |bs| && bs[i].bound.Finite?)
    && (forall i :: 0 <= i < |bs| ==> 0.0 <= bs[i].count)
    && Observations(bs) != 0.0
  }

  /** The final cumulative count after merging and monotonising. */
  function Observations(bs: seq<Bucket>): real {
    if bs == [] then 0.0
    else
      MergedShape(bs);
      MonotoneShape(MergeAll(bs));
      var p := Monotone(MergeAll(bs));
      p[|p| - 1].count
  }

  ghost function Prepared(bs: seq<Bucket>): (p: seq<Bucket>)
    requires Usable(bs)
    ensures Ready(p) && 0.0 <= p[0].count && 0.0 < Observations(bs) == p[|p| - 1].count
  {
    TwoBuckets(bs);
    ReadyAfterMerge(bs);
    MergedShape(bs);
    MergeNonNegative(bs);
    MonotoneShape(MergeAll(bs));
    Monotone(MergeAll(bs))
  }

  lemma {:induction false} MergeNonNegative(bs: seq<Bucket>)
    requires forall i :: 0 <= i < |bs| ==> 0.0 <= bs[i].count
    ensures forall i :: 0 <= i < |MergeAll(bs)| ==> 0.0 <= MergeAll(bs)[i].count
  {
    if bs != [] {
      MergeNonNegative(bs[1..]);
      MergeOneNonNegative(bs[0], MergeAll(bs[1..]));
    }
  }

  lemma {:induction false} MergeOneNonNegative(b: Bucket, bs: seq<Bucket>)
    requires 0.0 <= b.count && forall i :: 0 <= i < |bs| ==> 0.0 <= bs[i].count
    ensures forall i :: 0 <= i < |Merge(b, bs)| ==> 0.0 <= Merge(b, bs)[i].count
  {
    if bs != [] && Less(bs[0].bound, b.bound) {
      MergeOneNonNegative(b, bs[1..]);
    }
  }

  lemma {:induction false} MergeKeepsFinite(b: Bucket, bs: seq<Bucket>)
    ensures Merge(b, bs) != []
    ensures b.bound.Finite? ==> Merge(b, bs)[0].bound.Finite?
    ensures bs != [] && bs[0].bound.Finite? ==> Merge(b, bs)[0].bound.Finite?
  {
  }

  lemma {:induction false} FirstIsFinite(bs: seq<Bucket>)
    requires exists i :: 0 <= i < |bs| && bs[i].bound.Finite?
    ensures MergeAll(bs) != [] && MergeAll(bs)[0].bound.Finite?
  {
    var i :| 0 <= i < |bs| && bs[i].bound.Finite?;
    if i > 0 {
      assert bs[1..][i - 1].bound.Finite?;
      FirstIsFinite(bs[1..]);
    }
    MergeKeepsFinite(bs[0], MergeAll(bs[1..]));
  }

  lemma TwoBuckets(bs: seq<Bucket>)
    requires exists i :: 0 <= i < |bs| && bs[i].bound == Infinite
    requires exists i :: 0 <= i < |bs| && bs[i].bound.Finite?
    ensures |MergeAll(bs)| >= 2
  {
    FirstIsFinite(bs);
    MergedShape(bs);
  }

  lemma RankPositive(q: real, q': real, n: real)
    requires 0.0 < q <= q' && 0.0 < n
    ensures 0.0 < Times(q, n) <= Times(q', n)
  {
    TimesPositive(q, n);
    TimesMonotone(n, q, q');
    assert Times(n, q) == Times(q, n) && Times(n, q') == Times(q', n);
  }

  /** For q in (0, 1] a usable histogram yields a finite value that lies in the bucket its
      rank selects, hence never above the last finite bound. */
  lemma QuantileInBucket(q: real, bs: seq<Bucket>)
    requires Usable(bs) && 0.0 < q <= 1.0
    ensures QuantileOf(q, bs).Some? && QuantileOf(q, bs).value.0.Fin?
    ensures var p := Prepared(bs);
            var b := Locate(p, Times(q, Observations(bs)));
            && Low(p, b) <= QuantileOf(q, bs).value.0.r <= High(p, b) <= High(p, |p| - 1)
            && (forall i :: 0 <= i < b ==> p[i].count < Times(q, Observations(bs)))
            && (b < |p| - 1 ==> Times(q, Observations(bs)) <= p[b].count)
  {
    hide ValueAtRank;
    hide Low;
    hide Times;
    var p := Prepared(bs);
    var rank := Times(q, Observations(bs));
    TwoBuckets(bs);
    RankPositive(q, q, Observations(bs));
    ValueInBucket(p, rank, rank);
    LocateFirst(p, rank);
    var b := Locate(p, rank);
    if b < |p| - 2 {
      OthersFinite(p, b);
      OthersFinite(p, |p| - 2);
      assert Less(p[b].bound, p[|p| - 2].bound);
    }
  }

  /** Quantiles of a usable histogram are monotone in q. */
  lemma QuantileMonotone(q: real, q': real, bs: seq<Bucket>)
    requires Usable(bs) && 0.0 < q <= q' <= 1.0
    ensures QuantileOf(q, bs).Some? && QuantileOf(q', bs).Some?
    ensures QuantileOf(q, bs).value.0.Fin? && QuantileOf(q', bs).value.0.Fin?
    ensures QuantileOf(q, bs).value.0.r <= QuantileOf(q', bs).value.0.r
  {
    hide ValueAtRank;
    hide Times;
    var p := Prepared(bs);
    TwoBuckets(bs);
    RankPositive(q, q', Observations(bs));
    ValueMonotone(p, Times(q, Observations(bs)), Times(q', Observations(bs)));
  }

  /** At q = 0 the same code divides zero by zero exactly when the first bucket is empty
      and its bound is positive. */
  lemma QuantileAtZero(bs: seq<Bucket>)
    requires Usable(bs)
    ensures QuantileOf(0.0, bs).Some?
    ensures QuantileOf(0.0, bs).value.0 == NaN <==>
            Prepared(bs)[0].count == 0.0 && High(Prepared(bs), 0) > 0.0
  {
    var p := Prepared(bs);
    TwoBuckets(bs);
    assert Times(0.0, Observations(bs)) == 0.0;
    LocateFirst(p, 0.0);
    assert Locate(p, 0.0) == 0;
  }

  // ---- The in-place loops ----

  /** The first bucket of a merged run, and the rest of the run. */
  lemma CoalesceFirst(x: Bucket, bs: seq<Bucket>)
    ensures bs == [] ==> Coalesce([x] + bs) == [x]
    ensures bs != [] ==>
              && Coalesce(bs) != []
              && Coalesce([x] + bs)
              == if x.bound == Coalesce(bs)[0].bound
                 then [Bucket(x.bound, x.count + Coalesce(bs)[0].count)] + Coalesce(bs)[1..]
                 else [x] + Coalesce(bs)
  {
    assert ([x] + bs)[1..] == bs;
    if bs == [] {
      assert [x] + bs == [x];
    } else {
      CoalesceHead(bs);
    }
  }

  lemma CoalesceTwo(x: Bucket, y: Bucket, rest: seq<Bucket>)
    ensures Coalesce([x, y] + rest)
         == if x.bound == y.bound then Coalesce([Bucket(x.bound, x.count + y.count)] + rest)
            else [x] + Coalesce([y] + rest)
  {
    assert [x, y] + rest == [x] + ([y] + rest);
    CoalesceHead([y] + rest);
    CoalesceFirst(x, [y] + rest);
    if x.bound == y.bound {
      CoalesceFirst(y, rest);
      CoalesceFirst(Bucket(x.bound, x.count + y.count), rest);
    }
    hide Coalesce;
  }

  method CoalesceBuckets(a: array<Bucket>) returns (n: nat)
    requires a.Length > 0
    modifies a
    ensures 0 < n <= a.Length && a[..n] == Coalesce(old(a[..]))
  {
    hide Coalesce;
    ghost var orig := a[..];
    var last, i := a[0], 0;
    assert [last] + orig[1..] == orig;
    assert a[..0] == [];
    for k := 1 to a.Length
      invariant 0 <= i < k
      invariant a[k..] == orig[k..]
      invariant a[..i] + Coalesce([last] + orig[k..]) == Coalesce(orig)
    {
      ghost var done, rest := a[..i], orig[k + 1..];
      var b := a[k];
      assert a[k..][0] == orig[k..][0];
      assert [last] + orig[k..] == [last, b] + rest;
      CoalesceTwo(last, b, rest);
      if b.bound == last.bound {
        last := last.(count := last.count + b.count);
      } else {
        assert done + ([last] + Coalesce([b] + rest)) == (done + [last]) + Coalesce([b] + rest);
        a[i] := last;
        assert a[..i + 1] == done + [last];
        last := b;
        i := i + 1;
      }
      assert a[k + 1..] == rest;
    }
    CoalesceSingle(last);
    assert [last] + orig[a.Length..] == [last];
    ghost var done := a[..i];
    a[i] := last;
    assert a[..i + 1] == done + [last];
    return i + 1;
  }

  lemma CoalesceSingle(b: Bucket)
    ensures Coalesce([b]) == [b]
  {
  }

  method EnsureMonotonic(a: array<Bucket>, n: nat) returns (forced: bool)
    requires 0 < n <= a.Length
    modifies a
    ensures a[..n] == Monotone(old(a[..n]))
    ensures forced == Forced(old(a[..n])[0].count, old(a[..n])[1..])
  {
    ghost var orig := a[..n];
    var prev := a[0].count;
    forced := false;
    for i := 1 to n
      invariant a[i..n] == orig[i..]
      invariant a[..i] + Clamp(prev, orig[i..]) == Monotone(orig)
      invariant Forced(orig[0].count, orig[1..]) == (forced || Forced(prev, orig[i..]))
    {
      var curr := a[i].count;
      assert a[i] == orig[i] && orig[i..] == [orig[i]] + orig[i + 1..];
      ghost var before := a[..i];
      if curr == prev {
      } else if AlmostEqual(prev, curr, TOLERANCE) {
        a[i] := a[i].(count := prev);
      } else if curr < prev {
        a[i] := a[i].(count := prev);
        forced := true;
      } else {
        prev := curr;
      }
      assert a[..i + 1] == before + [Bucket(orig[i].bound, ClampCount(prev, curr))];
    }
  }

  lemma {:induction false} InsertMultiset(b: Bucket, bs: seq<Bucket>)
    ensures multiset(Insert(b, bs)) == multiset(bs) + multiset{b}
  {
    if bs == [] || !Less(bs[0].bound, b.bound) {
    } else {
      InsertMultiset(b, bs[1..]);
      assert bs == [bs[0]] + bs[1..];
    }
  }

  lemma {:induction false} SortMultiset(bs: seq<Bucket>)
    ensures multiset(Sort(bs)) == multiset(bs)
  {
    if bs != [] {
      SortMultiset(bs[1..]);
      InsertMultiset(bs[0], Sort(bs[1..]));
      assert bs == [bs[0]] + bs[1..];
    }
  }

  /** The library sort: promises an ascending permutation and nothing about ties. */
  method SortBuckets(a: array<Bucket>)
    modifies a
    ensures multiset(a[..]) == multiset(old(a[..])) && Ascending(a[..])
  {
    var sorted := Sort(a[..]);
    SortMultiset(a[..]);
    SortAscending(a[..]);
    Seqs.SameLength(sorted, a[..]);
    CopyInto(a, sorted);
  }

  method CopyInto(a: array<Bucket>, bs: seq<Bucket>)
    requires |bs| == a.Length
    modifies a
    ensures a[..] == bs
  {
    for i := 0 to a.Length
      invariant a[..i] == bs[..i]
    {
      a[i] := bs[i];
    }
  }

  /** The whole computation on the caller's slice of buckets. */
  method ComputeHistogramQuantile(q: real, a: array<Bucket>) returns (r: Option<(Float, bool)>)
    modifies a
    ensures r == QuantileOf(q, old(a[..]))
  {
    ghost var bs := a[..];
    EarlyAnswers(q, bs);
    hide *;
    if q < 0.0 {
      return Some((NegInf, false));
    }
    if q > 1.0 {
      return Some((PosInf, false));
    }
    if a.Length == 0 {
      return None;
    }
    SortBuckets(a);
    SortedAnswer(q, bs, a[..]);
    if a[a.Length - 1].bound != Infinite {
      return Some((NaN, false));
    }
    r := QuantileOfSorted(q, a);
  }

  /** Any sort of the buckets leads to the same answer. */
  lemma SortedAnswer(q: real, bs: seq<Bucket>, sorted: seq<Bucket>)
    requires 0.0 <= q <= 1.0 && bs != [] && multiset(bs) == multiset(sorted) && Ascending(sorted)
    ensures sorted != []
    ensures sorted[|sorted| - 1].bound != Infinite ==> QuantileOf(q, bs) == Some((NaN, false))
    ensures sorted[|sorted| - 1].bound == Infinite ==>
              && Coalesce(sorted) != []
              && (|Monotone(Coalesce(sorted))| >= 2 ==> Ready(Monotone(Coalesce(sorted))))
              && QuantileOf(q, bs) == QuantileOfMerged(q, Coalesce(sorted))
  {
    hide *;
    InfiniteLast(bs, sorted);
    EarlyAnswers(q, bs);
    if sorted[|sorted| - 1].bound == Infinite {
      AnySortMergesAlike(bs, sorted);
      MergedQuantile(q, bs);
    }
  }

  lemma EarlyAnswers(q: real, bs: seq<Bucket>)
    ensures q < 0.0 ==> QuantileOf(q, bs) == Some((NegInf, false))
    ensures q > 1.0 ==> QuantileOf(q, bs) == Some((PosInf, false))
    ensures 0.0 <= q <= 1.0 && bs == [] ==> QuantileOf(q, bs) == None
    ensures 0.0 <= q <= 1.0 && bs != [] && !(exists i :: 0 <= i < |bs| && bs[i].bound == Infinite) ==>
              QuantileOf(q, bs) == Some((NaN, false))
  {
  }

  /** The answer from monotone buckets. */
  function Answer(q: real, p: seq<Bucket>, forced: bool): Option<(Float, bool)>
    requires |p| >= 2 ==> Ready(p)
  {
    if |p| < 2 || p[|p| - 1].count == 0.0 then Some((NaN, false))
    else Some((ValueAtRank(p, Times(q, p[|p| - 1].count)), forced))
  }

  /** The answer from merged buckets. */
  function QuantileOfMerged(q: real, merged: seq<Bucket>): Option<(Float, bool)>
    requires merged != [] && (|Monotone(merged)| >= 2 ==> Ready(Monotone(merged)))
  {
    Answer(q, Monotone(merged), Forced(merged[0].count, merged[1..]))
  }

  lemma MergedQuantile(q: real, bs: seq<Bucket>)
    requires 0.0 <= q <= 1.0 && exists i :: 0 <= i < |bs| && bs[i].bound == Infinite
    ensures var merged := MergeAll(bs);
            && merged != [] && (|Monotone(merged)| >= 2 ==> Ready(Monotone(merged)))
            && QuantileOf(q, bs) == QuantileOfMerged(q, merged)
  {
    MergedShape(bs);
    MonotoneShape(MergeAll(bs));
    hide Ready;
    if |MergeAll(bs)| >= 2 {
      ReadyAfterMerge(bs);
    }
  }

  method QuantileOfSorted(q: real, a: array<Bucket>) returns (r: Option<(Float, bool)>)
    requires a.Length > 0
    requires Coalesce(a[..]) != []
    requires |Monotone(Coalesce(a[..]))| >= 2 ==> Ready(Monotone(Coalesce(a[..])))
    modifies a
    ensures r == QuantileOfMerged(q, old(Coalesce(a[..])))
  {
    hide Coalesce;
    hide Monotone;
    hide Forced;
    hide Answer;
    var n := CoalesceBuckets(a);
    var forced := EnsureMonotonic(a, n);
    r := AnswerFrom(q, a[..n], forced);
  }

  method AnswerFrom(q: real, p: seq<Bucket>, forced: bool) returns (r: Option<(Float, bool)>)
    requires |p| >= 2 ==> Ready(p)
    ensures r == Answer(q, p, forced)
  {
    if |p| < 2 {
      return Some((NaN, false));
    }
    var observations := p[|p| - 1].count;
    if observations == 0.0 {
      return Some((NaN, false));
    }
    r := Some((ValueAtRank(p, Times(q, observations)), forced));
  }

  lemma InfiniteLast(bs: seq<Bucket>, sorted: seq<Bucket>)
    requires bs != [] && multiset(bs) == multiset(sorted) && Ascending(sorted)
    ensures sorted != []
    ensures sorted[|sorted| - 1].bound == Infinite <==> exists i :: 0 <= i < |bs| && bs[i].bound == Infinite
  {
    Seqs.SameLength(bs, sorted);
    var last := sorted[|sorted| - 1];
    assert last in multiset(bs);
    if exists i :: 0 <= i < |bs| && bs[i].bound == Infinite {
      var i :| 0 <= i < |bs| && bs[i].bound == Infinite;
      assert bs[i] in multiset(sorted);
      var j :| 0 <= j < |sorted| && sorted[j] == bs[i];
      assert j == |sorted| - 1 || !Less(last.bound, sorted[j].bound);
    }
  }
}

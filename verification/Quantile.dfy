/** The three quantile interpolations of the repository (eval/aggregations.go:220-241,
    eval/over_time.go:95-121 and proxy/server/handlers/query.go:739-793). */
module Quantile {
  import opened Types
  import opened Reals
  import Seqs

  ghost predicate Sorted(s: seq<real>) {
    forall i, j :: 0 <= i <= j < |s| ==> s[i] <= s[j]
  }

  function Interpolate(a: real, b: real, w: real): real {
    a * (1.0 - w) + b * w
  }

  function Rank(phi: real, n: nat): real
    requires n > 0
  {
    phi * (n - 1) as real
  }

  /** quantile aggregation over an instant vector. */
  function QuantileValue(phi: real, s: seq<real>): Float {
    if |s| == 0 then NaN
    else if phi < 0.0 then NegInf
    else if phi > 1.0 then PosInf
    else if |s| == 1 then Fin(s[0])
    else
      RankBounds(phi, |s|);
      var rank := Rank(phi, |s|);
      var lo := rank.Floor;
      var hi := lo + 1;
      if hi >= |s| then Fin(s[|s| - 1])
      else Fin(Interpolate(s[lo], s[hi], rank - lo as real))
  }

  /** The interpolation of quantile_over_time and mad_over_time. */
  function QuantileFromSorted(phi: real, s: seq<real>): real
    requires |s| > 0 && 0.0 <= phi <= 1.0
  {
    RankBounds(phi, |s|);
    var rank := Rank(phi, |s|);
    var lo := if rank.Floor < 0 then 0 else rank.Floor;
    var hi := if lo + 1 < |s| then lo + 1 else |s| - 1;
    Interpolate(s[lo], s[hi], rank - rank.Floor as real)
  }

  function Ceil(x: real): int {
    if x == x.Floor as real then x.Floor else x.Floor + 1
  }

  /** The quantile aggregation of the downsampled path; None where its index would be
      outside the slice. */
  function ProxyQuantile(q: real, s: seq<real>): Option<Float>
    requires |s| > 0
  {
    var rank := Rank(q, |s|);
    var lower, upper := rank.Floor, Ceil(rank);
    if lower < 0 || lower >= |s| then None
    else if lower == upper || upper >= |s| then Some(Fin(s[lower]))
    else Some(Fin(Interpolate(s[lower], s[upper], rank - lower as real)))
  }

  lemma RankBounds(phi: real, n: nat)
    requires n > 0
    ensures 0.0 <= phi <= 1.0 ==> 0.0 <= Rank(phi, n) <= (n - 1) as real
    ensures phi < 0.0 && n > 1 ==> Rank(phi, n) < 0.0
  {
  }

  lemma WholeWeight(a: real, b: real)
    ensures Interpolate(a, b, 0.0) == a
    ensures Interpolate(a, a, 1.0) == a
  {
  }

  /** The downsampled path agrees with the raw path exactly on [0, 1]; the raw
      aggregation and the over-time function agree there too. */
  lemma QuantilesAgree(phi: real, s: seq<real>)
    requires |s| > 0
    ensures 0.0 <= phi <= 1.0 ==> QuantileValue(phi, s) == Fin(QuantileFromSorted(phi, s))
    ensures ProxyQuantile(phi, s) == Some(QuantileValue(phi, s)) <==> 0.0 <= phi <= 1.0
  {
    hide Interpolate;
    RankBounds(phi, |s|);
    var lo := Rank(phi, |s|).Floor;
    if 0.0 <= phi <= 1.0 {
      WholeWeight(s[lo], s[if lo + 1 < |s| then lo + 1 else lo]);
    }
  }

  /** On the downsampled path the index leaves the slice exactly for a negative rank or
      one of at least the number of series. */
  lemma ProxyQuantileDefined(q: real, s: seq<real>)
    requires |s| > 0
    ensures ProxyQuantile(q, s).None? <==> Rank(q, |s|) < 0.0 || Rank(q, |s|) >= |s| as real
  {
  }

  lemma InterpolateMonotone(a: real, b: real, w: real, w': real)
    requires a <= b && 0.0 <= w <= w' <= 1.0
    ensures a <= Interpolate(a, b, w) <= Interpolate(a, b, w') <= b
  {
    assert Interpolate(a, b, w) == a + Times(b - a, w);
    assert Interpolate(a, b, w') == a + Times(b - a, w');
    TimesMonotone(b - a, 0.0, w);
    TimesMonotone(b - a, w, w');
    TimesMonotone(b - a, w', 1.0);
  }

  lemma RankMonotone(phi: real, phi': real, n: nat)
    requires n > 0 && phi <= phi'
    ensures Rank(phi, n) <= Rank(phi', n)
  {
  }

  /** The quantile of nothing is no number, that outside [0, 1] an infinity, and the ends are
      the first and the last value. */
  lemma QuantileKinds(phi: real, s: seq<real>)
    ensures QuantileValue(phi, s) == NaN <==> s == []
    ensures QuantileValue(phi, s) == NegInf <==> s != [] && phi < 0.0
    ensures QuantileValue(phi, s) == PosInf <==> s != [] && phi > 1.0
    ensures s != [] ==> QuantileValue(0.0, s) == Fin(s[0]) && QuantileValue(1.0, s) == Fin(s[|s| - 1])
  {
    if |s| > 1 {
      assert Rank(0.0, |s|) == 0.0 && Rank(1.0, |s|) == (|s| - 1) as real;
      assert Interpolate(s[0], s[1], 0.0) == s[0];
    }
  }

  /** A quantile lies between the two samples its rank falls between. */
  lemma QuantileBetweenNeighbours(phi: real, s: seq<real>)
    requires |s| > 0 && Sorted(s) && 0.0 <= phi <= 1.0
    ensures var lo := Rank(phi, |s|).Floor;
            0 <= lo < |s| && s[lo] <= QuantileFromSorted(phi, s) <= s[if lo + 1 < |s| then lo + 1 else lo]
  {
    hide Interpolate;
    hide Rank;
    RankBounds(phi, |s|);
    var rank := Rank(phi, |s|);
    var lo := rank.Floor;
    var w := rank - lo as real;
    InterpolateMonotone(s[lo], s[if lo + 1 < |s| then lo + 1 else lo], w, w);
  }

  /** Quantiles are monotone in phi and lie between the least and the greatest value. */
  lemma QuantileMonotone(phi: real, phi': real, s: seq<real>)
    requires |s| > 0 && Sorted(s) && 0.0 <= phi <= phi' <= 1.0
    ensures s[0] <= QuantileFromSorted(phi, s) <= QuantileFromSorted(phi', s) <= s[|s| - 1]
  {
    hide Interpolate;
    hide Rank;
    hide QuantileFromSorted;
    QuantileBetweenNeighbours(phi, s);
    QuantileBetweenNeighbours(phi', s);
    RankMonotone(phi, phi', |s|);
    var rank, rank' := Rank(phi, |s|), Rank(phi', |s|);
    if rank.Floor == rank'.Floor {
      SameNeighbours(phi, phi', s);
    }
  }

  lemma SameNeighbours(phi: real, phi': real, s: seq<real>)
    requires |s| > 0 && Sorted(s) && 0.0 <= phi <= phi' <= 1.0
    requires Rank(phi, |s|).Floor == Rank(phi', |s|).Floor
    ensures QuantileFromSorted(phi, s) <= QuantileFromSorted(phi', s)
  {
    hide Interpolate;
    RankBounds(phi, |s|);
    RankBounds(phi', |s|);
    RankMonotone(phi, phi', |s|);
    hide Rank;
    var rank, rank' := Rank(phi, |s|), Rank(phi', |s|);
    var lo := rank.Floor;
    InterpolateMonotone(s[lo], s[if lo + 1 < |s| then lo + 1 else |s| - 1], rank - lo as real, rank' - lo as real);
  }

  // ---- Over a window of samples ----

  function Insert(x: real, s: seq<real>): seq<real> {
    if s == [] || x <= s[0] then [x] + s else [s[0]] + Insert(x, s[1..])
  }

  /** The library sort.Float64s. */
  function Sort(s: seq<real>): seq<real> {
    if s == [] then [] else Insert(s[0], Sort(s[1..]))
  }

  lemma {:induction false} InsertSorts(x: real, s: seq<real>)
    requires Sorted(s)
    ensures Sorted(Insert(x, s)) && multiset(Insert(x, s)) == multiset(s) + multiset{x}
    ensures Insert(x, s) != [] && (Insert(x, s)[0] == x || (s != [] && Insert(x, s)[0] == s[0]))
  {
    if s == [] || x <= s[0] {
      SortedCons(x, s);
    } else {
      InsertSorts(x, s[1..]);
      assert s == [s[0]] + s[1..];
      SortedCons(s[0], Insert(x, s[1..]));
      hide Sorted;
    }
  }

  lemma SortedCons(x: real, s: seq<real>)
    requires Sorted(s) && (s != [] ==> x <= s[0])
    ensures Sorted([x] + s)
  {
  }

  lemma {:induction false} SortSorts(s: seq<real>)
    ensures Sorted(Sort(s)) && multiset(Sort(s)) == multiset(s) && |Sort(s)| == |s|
  {
    if s != [] {
      SortSorts(s[1..]);
      InsertSorts(s[0], Sort(s[1..]));
      assert s == [s[0]] + s[1..];
    }
    Seqs.SameLength(Sort(s), s);
  }

  lemma TailValues(s: seq<real>)
    requires s != []
    ensures s == [s[0]] + s[1..] && multiset(s[1..]) == multiset(s) - multiset{s[0]}
  {
    assert s == [s[0]] + s[1..];
  }

  /** There is one ascending arrangement of given values. */
  lemma {:induction false} SortedUnique(s: seq<real>, t: seq<real>)
    requires Sorted(s) && Sorted(t) && multiset(s) == multiset(t)
    ensures s == t
  {
    Seqs.SameLength(s, t);
    if s != [] {
      SameLeast(s, t);
      TailValues(s);
      TailValues(t);
      SortedUnique(s[1..], t[1..]);
    }
  }

  lemma SameLeast(s: seq<real>, t: seq<real>)
    requires s != [] && t != [] && Sorted(s) && Sorted(t) && multiset(s) == multiset(t)
    ensures s[0] == t[0]
  {
    assert s[0] in multiset(t) && t[0] in multiset(s);
    var i :| 0 <= i < |t| && t[i] == s[0];
    var j :| 0 <= j < |s| && s[j] == t[0];
    assert t[0] <= t[i] && s[0] <= s[j];
  }

  /** quantile_over_time on the values of a window that is not empty. */
  function QuantileOverTime(phi: real, vs: seq<real>): (r: Float)
    requires vs != []
    ensures r != NaN
  {
    if phi < 0.0 then NegInf
    else if phi > 1.0 then PosInf
    else
      SortSorts(vs);
      Fin(QuantileFromSorted(phi, Sort(vs)))
  }

  function Distances(vs: seq<real>, c: real): (r: seq<real>)
    ensures |r| == |vs|
  {
    if vs == [] then [] else Distances(vs[..|vs| - 1], c) + [Abs(vs[|vs| - 1] - c)]
  }

  function Median(vs: seq<real>): real
    requires vs != []
  {
    SortSorts(vs);
    QuantileFromSorted(0.5, Sort(vs))
  }

  /** mad_over_time: the median distance from the median. */
  function MedianDeviation(vs: seq<real>): real
    requires vs != []
  {
    SortSorts(vs);
    Median(Distances(Sort(vs), Median(vs)))
  }

  /** The loops of MadOverTime around the two library sorts. */
  method MadOverTime(s: seq<Sample>) returns (r: Option<real>)
    ensures r == if s == [] then None else Some(MedianDeviation(seq(|s|, i requires 0 <= i < |s| => s[i].v)))
  {
    if |s| == 0 {
      return None;
    }
    var vals: seq<real> := [];
    for i := 0 to |s|
      invariant vals == seq(i, j requires 0 <= j < i => s[j].v)
    {
      vals := vals + [s[i].v];
    }
    assert vals == seq(|s|, i requires 0 <= i < |s| => s[i].v);
    SortSorts(vals);
    var median := QuantileFromSorted(0.5, Sort(vals));
    assert median == Median(vals);
    var devs := DistancesFrom(Sort(vals), median);
    SortSorts(devs);
    return Some(QuantileFromSorted(0.5, Sort(devs)));
  }

  method DistancesFrom(vals: seq<real>, median: real) returns (devs: seq<real>)
    ensures devs == Distances(vals, median)
  {
    devs := [];
    for i := 0 to |vals|
      invariant devs == Distances(vals[..i], median)
    {
      assert vals[..i + 1][..i] == vals[..i];
      devs := devs + [Abs(vals[i] - median)];
    }
    assert vals[..|vals|] == vals;
  }

  /** Neither depends on the order of the values. */
  lemma OverTimeIsOrderFree(phi: real, vs: seq<real>, us: seq<real>)
    requires vs != [] && us != [] && multiset(vs) == multiset(us)
    ensures QuantileOverTime(phi, vs) == QuantileOverTime(phi, us)
    ensures MedianDeviation(vs) == MedianDeviation(us)
  {
    SortSorts(vs);
    SortSorts(us);
    SortedUnique(Sort(vs), Sort(us));
  }

  /** The quantile of a window lies between its least and its greatest value. */
  lemma OverTimeWithinValues(phi: real, vs: seq<real>)
    requires vs != [] && 0.0 <= phi <= 1.0
    ensures QuantileOverTime(phi, vs).Fin?
    ensures exists x, y :: x in vs && y in vs && x <= QuantileOverTime(phi, vs).r <= y
  {
    SortSorts(vs);
    var s := Sort(vs);
    QuantileMonotone(phi, phi, s);
    assert s[0] in multiset(vs) && s[|s| - 1] in multiset(vs);
    assert s[0] in vs && s[|s| - 1] in vs;
  }

  // ---- Evenly spaced values ----

  ghost predicate Even(s: seq<real>, a: real, d: real) {
    forall i :: 0 <= i < |s| ==> s[i] == a + Times(d, i as real)
  }

  lemma BetweenEven(a: real, d: real, n: real, w: real)
    ensures Interpolate(a + Times(d, n), a + Times(d, n + 1.0), w) == a + Times(d, n + w)
  {
    assert Times(d, n + 1.0) == Times(d, n) + d;
    assert Times(d, n + w) == Times(d, n) + Times(d, w);
    var x := a + Times(d, n);
    assert x * (1.0 - w) + (x + d) * w == x + d * w;
  }

  /** Between evenly spaced values the quantile moves evenly: it is where the line through
      them is at the rank. */
  lemma QuantileOfEven(phi: real, s: seq<real>, a: real, d: real)
    requires |s| > 0 && 0.0 <= phi <= 1.0 && Even(s, a, d)
    ensures QuantileFromSorted(phi, s) == a + Times(d, Times(phi, (|s| - 1) as real))
  {
    RankBounds(phi, |s|);
    var rank := Rank(phi, |s|);
    assert rank == Times(phi, (|s| - 1) as real);
    var lo := rank.Floor;
    hide Rank;
    hide Interpolate;
    hide Times;
    if lo + 1 < |s| {
      BetweenEven(a, d, lo as real, rank - lo as real);
    } else {
      assert rank == lo as real;
      WholeWeight(s[lo], s[lo]);
    }
  }
}

/** Gauges read from buckets agree with gauges read from the raw samples that the buckets
    were made from (proxy/server/handlers/query.go:571-685 against eval/over_time.go). The
    rows that a query over tiers returns are already one per step and go through
    GaugeToMatrix; nothing in the repository calls the windowed form. */
module GaugeBuckets {
  import opened Types
  import opened Plans
  import opened RangeFunctions
  import opened SlidingWindow
  import opened Columns
  import Variance

  /** All raw samples behind a list of buckets. */
  function Pooled(groups: seq<seq<Sample>>): seq<Sample> {
    if groups == [] then [] else Pooled(groups[..|groups| - 1]) + groups[|groups| - 1]
  }

  /** The bucket holds the statistics of the samples. */
  ghost predicate Summarises(b: Bucket, g: seq<Sample>) {
    && g != []
    && b.valSum == Variance.Sum(Variance.Values(g)) && b.valCount == |g|
    && b.valMin == Least(g) && b.valMax == Greatest(g)
  }

  ghost predicate AllSummarise(w: seq<Bucket>, groups: seq<seq<Sample>>) {
    |w| == |groups| && forall i :: 0 <= i < |w| ==> Summarises(w[i], groups[i])
  }

  lemma {:induction false} SumAppend(a: seq<real>, b: seq<real>)
    ensures Variance.Sum(a + b) == Variance.Sum(a) + Variance.Sum(b)
  {
    if b == [] {
      assert a + b == a;
    } else {
      assert (a + b)[..|a + b| - 1] == a + b[..|b| - 1];
      SumAppend(a, b[..|b| - 1]);
    }
  }

  lemma {:induction false} LeastAppend(a: seq<Sample>, b: seq<Sample>)
    requires a != [] && b != []
    ensures Least(a + b) == MathMin(Least(a), Least(b))
  {
    assert (a + b)[..|a + b| - 1] == a + b[..|b| - 1];
    if |b| == 1 {
      assert a + b[..0] == a;
    } else {
      LeastAppend(a, b[..|b| - 1]);
    }
  }

  lemma {:induction false} GreatestAppend(a: seq<Sample>, b: seq<Sample>)
    requires a != [] && b != []
    ensures Greatest(a + b) == MathMax(Greatest(a), Greatest(b))
  {
    assert (a + b)[..|a + b| - 1] == a + b[..|b| - 1];
    if |b| == 1 {
      assert a + b[..0] == a;
    } else {
      GreatestAppend(a, b[..|b| - 1]);
    }
  }

  lemma SummariseBoth(b: Bucket, c: Bucket, all: Bucket, g: seq<Sample>, h: seq<Sample>)
    requires Summarises(b, g) && Summarises(c, h)
    requires all.valSum == b.valSum + c.valSum && all.valCount == b.valCount + c.valCount
    requires all.valMin == MathMin(b.valMin, c.valMin) && all.valMax == MathMax(b.valMax, c.valMax)
    ensures Summarises(all, g + h)
  {
    hide Least;
    hide Greatest;
    hide Variance.Sum;
    LeastAppend(g, h);
    GreatestAppend(g, h);
    assert Variance.Values(g + h) == Variance.Values(g) + Variance.Values(h);
    SumAppend(Variance.Values(g), Variance.Values(h));
  }

  /** One bucket in place of all of them. */
  function Merged(w: seq<Bucket>): Bucket
    requires w != []
  {
    Bucket(0, 0.0, 0, 0, ValSum(w), ValCount(w), ValMin(w), ValMax(w))
  }

  lemma {:induction false} PooledStatistics(w: seq<Bucket>, groups: seq<seq<Sample>>)
    requires AllSummarise(w, groups) && w != []
    ensures Summarises(Merged(w), Pooled(groups))
  {
    hide Summarises;
    var n := |w| - 1;
    var front, last := groups[..n], groups[n];
    if n == 0 {
      assert Pooled(groups) == last;
      assert ValSum(w[..0]) == 0.0 && ValCount(w[..0]) == 0;
      SameStatistics(w[0], Merged(w), last);
    } else {
      PooledStatistics(w[..n], front);
      SummariseBoth(Merged(w[..n]), w[n], Merged(w), Pooled(front), last);
    }
  }

  lemma SameStatistics(b: Bucket, c: Bucket, g: seq<Sample>)
    requires Summarises(b, g)
    requires b.valSum == c.valSum && b.valCount == c.valCount && b.valMin == c.valMin && b.valMax == c.valMax
    ensures Summarises(c, g)
  {
  }

  /** However raw samples are split into buckets, each of the five functions gives on the
      buckets what it gives on the samples. */
  lemma GaugeRefinesRaw(lib: Lib, fn: string, w: seq<Bucket>, groups: seq<seq<Sample>>)
    requires AllSummarise(w, groups) && w != []
    requires fn in {"avg_over_time", "min_over_time", "max_over_time", "sum_over_time", "count_over_time"}
    ensures Pooled(groups) != [] && NonEmptyValue(lib, fn, 0.0, Pooled(groups)) == Some(GaugeValue(fn, w))
  {
    PooledStatistics(w, groups);
  }

  // ---- One row per step ----

  /** The samples of one series of rows. */
  function RowPoints(fn: string, rows: seq<Bucket>): seq<Point> {
    if rows == [] then []
    else
      var row := rows[|rows| - 1];
      RowPoints(fn, rows[..|rows| - 1]) + [Point(row.ts, GaugeValue(fn, [row]))]
  }

  lemma OneRow(b: Bucket)
    ensures ValSum([b]) == b.valSum && ValCount([b]) == b.valCount && ValMin([b]) == b.valMin && ValMax([b]) == b.valMax
  {
    assert [b][..0] == [];
    assert ValSum([]) == 0.0 && ValCount([]) == 0;
  }

  /** The switch over the function, on one row. */
  method RowValue(fn: string, b: Bucket) returns (value: real)
    ensures value == GaugeValue(fn, [b])
  {
    OneRow(b);
    value := 0.0;
    match fn {
      case "avg_over_time" =>
        if b.valCount > 0 {
          value := b.valSum / b.valCount as real;
        }
      case "min_over_time" => value := b.valMin;
      case "max_over_time" => value := b.valMax;
      case "sum_over_time" => value := b.valSum;
      case "count_over_time" => value := b.valCount as real;
      case _ =>
    }
  }

  method RowSeries(fn: string, rows: seq<Bucket>) returns (samples: seq<Point>)
    ensures samples == RowPoints(fn, rows)
  {
    hide GaugeValue;
    samples := [];
    for i := 0 to |rows|
      invariant samples == RowPoints(fn, rows[..i])
    {
      assert rows[..i + 1][..i] == rows[..i];
      var value := RowValue(fn, rows[i]);
      samples := samples + [Point(rows[i].ts, value)];
    }
    assert rows[..|rows|] == rows;
  }

  /** gaugeToMatrix: the loop over the series, in any order. */
  method GaugeToMatrix(data: map<Labels, seq<Bucket>>, fn: string) returns (m: Matrix)
    ensures DistinctMatrix(m)
    ensures TableOf(m) == map l | l in data && data[l] != [] :: RowPoints(fn, data[l])
  {
    ghost var all := map l | l in data && data[l] != [] :: RowPoints(fn, data[l]);
    m := [];
    var todo := data.Keys;
    OutsideEnds(all, todo);
    hide Outside;
    hide RowPoints;
    while todo != {}
      invariant todo <= data.Keys
      invariant DistinctMatrix(m)
      invariant forall i :: 0 <= i < |m| ==> m[i].labels !in todo
      invariant TableOf(m) == Outside(all, todo)
      decreases todo
    {
      var l :| l in todo;
      OutsideStep(all, todo, l);
      todo := todo - {l};
      var samples := RowSeries(fn, data[l]);
      NoRowsNoPoints(fn, data[l]);
      if |samples| > 0 {
        TableOfSnoc(m, Series(l, samples));
        m := m + [Series(l, samples)];
      }
    }
  }

  lemma NoRowsNoPoints(fn: string, rows: seq<Bucket>)
    ensures RowPoints(fn, rows) == [] <==> rows == []
  {
  }

  lemma {:induction false} RowPointsLength(fn: string, rows: seq<Bucket>)
    ensures |RowPoints(fn, rows)| == |rows|
    ensures forall i :: 0 <= i < |rows| ==> RowPoints(fn, rows)[i] == Point(rows[i].ts, GaugeValue(fn, [rows[i]]))
  {
    hide GaugeValue;
    if rows != [] {
      RowPointsLength(fn, rows[..|rows| - 1]);
    }
  }

  /** The sample of a row is what the function gives on the raw samples that the row
      summarises. */
  lemma RowRefinesRaw(lib: Lib, fn: string, rows: seq<Bucket>, groups: seq<seq<Sample>>, i: nat)
    requires AllSummarise(rows, groups) && i < |rows|
    requires fn in {"avg_over_time", "min_over_time", "max_over_time", "sum_over_time", "count_over_time"}
    ensures |RowPoints(fn, rows)| == |rows| && RowPoints(fn, rows)[i].ts == rows[i].ts
    ensures groups[i] != [] && NonEmptyValue(lib, fn, 0.0, groups[i]) == Some(RowPoints(fn, rows)[i].v)
  {
    RowPointsLength(fn, rows);
    assert Pooled([groups[i]]) == groups[i] by {
      assert [groups[i]][..0] == [];
    }
    hide NonEmptyValue;
    hide GaugeValue;
    GaugeRefinesRaw(lib, fn, [rows[i]], [groups[i]]);
  }
}

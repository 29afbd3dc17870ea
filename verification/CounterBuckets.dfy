/** Reset-corrected per-bucket totals of raw counter rows
    (proxy/clickhouse/tier_query.go:119-161). */
module CounterBuckets {
  import opened Types
  import Extrapolate
  import opened SetSum

  /** The CASE expression on row `i` of a series in time order. */
  function RowDelta(s: seq<Sample>, i: nat): real
    requires i < |s|
  {
    if i == 0 then 0.0
    else if s[i].v >= s[i - 1].v then s[i].v - s[i - 1].v
    else s[i].v
  }

  /** counter_total of bucket `b` over the first `n` rows. */
  function BucketTotal(s: seq<Sample>, bucketOf: int -> int, b: int, n: nat): real
    requires n <= |s|
  {
    if n == 0 then 0.0
    else
      BucketTotal(s, bucketOf, b, n - 1) + if bucketOf(s[n - 1].ts) == b then RowDelta(s, n - 1) else 0.0
  }

  function Buckets(s: seq<Sample>, bucketOf: int -> int): set<int> {
    set x | x in s :: bucketOf(x.ts)
  }

  /** The rows of the GROUP BY: one counter_total per bucket. */
  function Totals(s: seq<Sample>, bucketOf: int -> int, n: nat): map<int, real>
    requires n <= |s|
  {
    map b | b in Buckets(s, bucketOf) :: BucketTotal(s, bucketOf, b, n)
  }

  lemma {:induction false} TotalsTelescope(s: seq<Sample>, bucketOf: int -> int, n: nat)
    requires 1 <= n <= |s|
    ensures SumOver(Totals(s, bucketOf, n), Buckets(s, bucketOf))
         == s[n - 1].v - s[0].v + Extrapolate.Correction(s[..n])
  {
    var all, i := Buckets(s, bucketOf), n - 1;
    var b, was, now := bucketOf(s[i].ts), Totals(s, bucketOf, i), Totals(s, bucketOf, n);
    assert s[i] in s;
    SumOverRemove(was, all, b);
    SumOverRemove(now, all, b);
    SumOverAgree(was, now, all - {b});
    if n == 1 {
      SumOverZero(was, all);
    } else {
      TotalsTelescope(s, bucketOf, i);
      Extrapolate.CorrectionStep(s, i);
    }
  }


  /** Whatever the bucketing, the bucket totals add up to the reset-corrected
      increase that the raw evaluator computes before extrapolating. */
  lemma BucketTotalsAreTheIncrease(s: seq<Sample>, bucketOf: int -> int)
    requires |s| >= 2
    ensures SumOver(Totals(s, bucketOf, |s|), Buckets(s, bucketOf)) == Extrapolate.RawIncrease(s, true)
  {
    TotalsTelescope(s, bucketOf, |s|);
    assert s[..|s|] == s;
  }

  lemma {:induction false} CorrectionConcat(s: seq<Sample>, s': seq<Sample>)
    requires |s| >= 1 && |s'| >= 1
    ensures Extrapolate.Correction(s + s') == Extrapolate.Correction(s) + Extrapolate.Correction(s')
         + if s'[0].v < s[|s| - 1].v then s[|s| - 1].v else 0.0
  {
    var all, front := s + s', s'[..|s'| - 1];
    assert all[..|all| - 1] == s + front;
    if |s'| == 1 {
      assert s + front == s;
    } else {
      CorrectionConcat(s, front);
    }
  }

  /** Reading a series as two raw segments loses exactly the growth across the cut,
      because the first row of each segment counts as zero. */
  lemma SegmentCutLosesOneDelta(s: seq<Sample>, s': seq<Sample>, bucketOf: int -> int)
    requires |s| >= 1 && |s'| >= 1
    ensures SumOver(Totals(s + s', bucketOf, |s + s'|), Buckets(s + s', bucketOf))
         == SumOver(Totals(s, bucketOf, |s|), Buckets(s, bucketOf))
            + SumOver(Totals(s', bucketOf, |s'|), Buckets(s', bucketOf))
            + RowDelta(s + s', |s|)
  {
    var all := s + s';
    TotalsTelescope(all, bucketOf, |all|);
    TotalsTelescope(s, bucketOf, |s|);
    TotalsTelescope(s', bucketOf, |s'|);
    assert all[..|all|] == all && s[..|s|] == s && s'[..|s'|] == s';
    CorrectionConcat(s, s');
  }
}

/** What the windowed evaluation scans (proxy/server/handlers/query.go:479-541): when it is
    linear in the number of buckets, and that it need not be. */
module WindowScans {
  import Types
  import opened SlidingWindow

  /** Consecutive steps are at least a range apart. */
  ghost predicate Spaced(rangeMs: int, steps: seq<int>) {
    forall k :: 0 <= k < |steps| - 1 ==> steps[k + 1] - steps[k] >= rangeMs
  }

  /** The buckets up to a time. */
  function UpTo(bs: seq<Bucket>, b: int): nat {
    if bs == [] then 0 else UpTo(bs[..|bs| - 1], b) + if bs[|bs| - 1].ts <= b then 1 else 0
  }

  lemma {:induction false} UpToBound(bs: seq<Bucket>, b: int)
    ensures UpTo(bs, b) <= |bs|
  {
    if bs != [] {
      UpToBound(bs[..|bs| - 1], b);
    }
  }

  lemma {:induction false} WindowCount(bs: seq<Bucket>, a: int, b: int)
    requires a <= b
    ensures UpTo(bs, a) + |Window(bs, a, b)| == UpTo(bs, b)
  {
    if bs != [] {
      WindowCount(bs[..|bs| - 1], a, b);
    }
  }

  lemma {:induction false} UpToMonotone(bs: seq<Bucket>, a: int, b: int)
    requires a <= b
    ensures UpTo(bs, a) <= UpTo(bs, b)
  {
    WindowCount(bs, a, b);
  }

  /** Windows that do not overlap scan no bucket twice. */
  lemma {:induction false} SpacedScans(bs: seq<Bucket>, rangeMs: int, steps: seq<int>)
    requires rangeMs > 0 && Spaced(rangeMs, steps) && steps != []
    ensures Scans(bs, rangeMs, steps) <= UpTo(bs, steps[|steps| - 1])
  {
    var n := |steps| - 1;
    WindowCount(bs, steps[n] - rangeMs, steps[n]);
    if n > 0 {
      SpacedScans(bs, rangeMs, steps[..n]);
      assert steps[n - 1 + 1] - steps[n - 1] >= rangeMs;
      UpToMonotone(bs, steps[n - 1], steps[n] - rangeMs);
    }
  }

  /** One bucket at a time that two windows share. */
  function OneBucket(t: int): seq<Bucket> {
    [Bucket(t, 0.0, t, t, 0.0, 1, 0.0, 0.0)]
  }

  lemma OneBucketWindow(t: int, a: int, b: int)
    ensures |Window(OneBucket(t), a, b)| == if a < t <= b then 1 else 0
  {
    assert OneBucket(t)[..0] == [];
  }

  lemma {:induction false} ScansAtLeast(bs: seq<Bucket>, rangeMs: int, steps: seq<int>, i: nat, j: nat)
    requires i < j < |steps|
    ensures Scans(bs, rangeMs, steps)
         >= |Window(bs, steps[i] - rangeMs, steps[i])| + |Window(bs, steps[j] - rangeMs, steps[j])|
  {
    var n := |steps| - 1;
    if j < n {
      ScansAtLeast(bs, rangeMs, steps[..n], i, j);
    } else {
      ScansAtLeastOne(bs, rangeMs, steps[..n], i);
    }
  }

  lemma {:induction false} ScansAtLeastOne(bs: seq<Bucket>, rangeMs: int, steps: seq<int>, i: nat)
    requires i < |steps|
    ensures Scans(bs, rangeMs, steps) >= |Window(bs, steps[i] - rangeMs, steps[i])|
  {
    if i < |steps| - 1 {
      ScansAtLeastOne(bs, rangeMs, steps[..|steps| - 1], i);
    }
  }

  ghost predicate NeverRescans(rangeMs: int, steps: seq<int>) {
    forall bs :: SortedBuckets(bs) ==> Scans(bs, rangeMs, steps) <= |bs|
  }

  /** No data make the evaluation scan more buckets than there are exactly when the steps
      are at least a range apart. */
  lemma LinearExactlyWhenSpaced(rangeMs: int, steps: seq<int>)
    requires rangeMs > 0 && SortedSteps(steps)
    ensures NeverRescans(rangeMs, steps) <==> Spaced(rangeMs, steps)
  {
    if Spaced(rangeMs, steps) {
      forall bs | SortedBuckets(bs) ensures Scans(bs, rangeMs, steps) <= |bs| {
        if steps != [] {
          SpacedScans(bs, rangeMs, steps);
          UpToBound(bs, steps[|steps| - 1]);
        }
      }
    } else {
      var k :| 0 <= k < |steps| - 1 && steps[k + 1] - steps[k] < rangeMs;
      var bs := OneBucket(steps[k]);
      OneBucketWindow(steps[k], steps[k] - rangeMs, steps[k]);
      OneBucketWindow(steps[k], steps[k + 1] - rangeMs, steps[k + 1]);
      ScansAtLeast(bs, rangeMs, steps, k, k + 1);
      assert SortedBuckets(bs) && Scans(bs, rangeMs, steps) > |bs|;
    }
  }

  // ---- Quadratic work ----

  function Regular(n: nat): seq<Bucket> {
    seq(n, i => Bucket(i, 0.0, i, i, 0.0, 1, 0.0, 0.0))
  }

  function RegularSteps(n: nat, k: nat): seq<int> {
    seq(k, i => n + i)
  }

  lemma RegularWindow(n: nat, t: int)
    requires n <= t <= 2 * n
    ensures |Window(Regular(n), t - (2 * n + 1), t)| == n
  {
    WindowIsSlice(Regular(n), t - (2 * n + 1), t, 0, n);
    hide Window;
  }

  lemma {:induction false} RegularScans(n: nat, k: nat)
    requires k <= n
    ensures Scans(Regular(n), 2 * n + 1, RegularSteps(n, k)) == k * n
  {
    hide Window;
    hide Regular;
    if k > 0 {
      var steps := RegularSteps(n, k);
      RegularScans(n, k - 1);
      assert steps[..k - 1] == RegularSteps(n, k - 1);
      RegularWindow(n, steps[k - 1]);
      Distribute(k, n);
    }
  }

  lemma Distribute(k: int, n: int)
    ensures (k - 1) * n + n == k * n
  {
  }

  /** No constant bounds the scans per bucket and step: n buckets and n steps, a
      millisecond apart each, can cost n * n. */
  lemma ScansAreNotLinear(c: nat) returns (bs: seq<Bucket>, rangeMs: int, steps: seq<int>)
    ensures rangeMs > 0 && SortedBuckets(bs) && Types.IncreasingTimes(steps)
    ensures Scans(bs, rangeMs, steps) > c * (|bs| + |steps|)
  {
    var n := 2 * c + 1;
    bs, rangeMs, steps := Regular(n), 2 * n + 1, RegularSteps(n, n);
    RegularScans(n, n);
    assert n * n == c * (n + n) + n;
  }
}

/** Binary-search lookups into one series (eval/staleness.go). */
module Staleness {
  import opened Types

  /** sort.Search: the boundary that binary search reports for `p` on [lo, hi). */
  function Search(lo: nat, hi: nat, p: nat --> bool): (r: nat)
    requires lo <= hi
    requires forall i :: lo <= i < hi ==> p.requires(i)
    ensures lo <= r <= hi
    ensures r < hi ==> p(r)
    ensures lo < r ==> !p(r - 1)
    decreases hi - lo
  {
    if lo == hi then lo
    else
      var mid := (lo + hi) / 2;
      if p(mid) then Search(lo, mid, p) else Search(mid + 1, hi, p)
  }

  /** Index of the first sample later than `t`. */
  function FirstAfter(s: seq<Sample>, t: int): (r: nat)
    ensures r <= |s|
  {
    Search(0, |s|, (i: nat) requires i < |s| => s[i].ts > t)
  }

  /** On a series with increasing timestamps the search splits it at `t`. */
  lemma FirstAfterSplits(s: seq<Sample>, t: int)
    requires Increasing(s)
    ensures forall i :: 0 <= i < FirstAfter(s, t) ==> s[i].ts <= t
    ensures forall i :: FirstAfter(s, t) <= i < |s| ==> t < s[i].ts
  {
    var r := FirstAfter(s, t);
    forall i | 0 <= i < r ensures s[i].ts <= t {
      assert s[r - 1].ts <= t;
    }
    forall i | r <= i < |s| ensures t < s[i].ts {
      assert t < s[r].ts;
    }
  }

  function InstantValue(s: seq<Sample>, t: int, staleness: int): Option<real> {
    if |s| == 0 then None
    else
      var n := FirstAfter(s, t);
      if n == 0 then None
      else
        var x := s[n - 1];
        if x.ts < t - staleness then None
        else if x.stale then None
        else Some(x.v)
  }

  function WindowSamples(s: seq<Sample>, rangeStart: int, rangeEnd: int): seq<Sample> {
    var lo := FirstAfter(s, rangeStart);
    var hi := FirstAfter(s, rangeEnd);
    if lo >= hi then [] else s[lo..hi]
  }

  /** The samples of `s` with a < ts <= b: what a range selector means, and also
      the row predicate of the rendered SQL. */
  function Between(s: seq<Sample>, a: int, b: int): seq<Sample> {
    if s == [] then []
    else if a < s[0].ts <= b then [s[0]] + Between(s[1..], a, b)
    else Between(s[1..], a, b)
  }

  lemma {:induction false} BetweenSlice(s: seq<Sample>, lo: nat, hi: nat, a: int, b: int)
    requires lo <= hi <= |s|
    requires forall i :: 0 <= i < |s| ==> (lo <= i < hi <==> a < s[i].ts <= b)
    ensures Between(s, a, b) == s[lo..hi]
  {
    if s != [] {
      var lo', hi' := if lo == 0 then 0 else lo - 1, if hi == 0 then 0 else hi - 1;
      BetweenSlice(s[1..], lo', hi', a, b);
      if lo == 0 && hi > 0 {
        assert s[lo..hi] == [s[0]] + s[1..][lo'..hi'];
      } else {
        assert s[lo..hi] == s[1..][lo'..hi'];
      }
    }
  }

  /** The two binary searches select exactly the samples of the left-open,
      right-closed window. */
  lemma WindowIsBetween(s: seq<Sample>, a: int, b: int)
    requires Increasing(s)
    ensures WindowSamples(s, a, b) == Between(s, a, b)
  {
    var lo, hi := FirstAfter(s, a), FirstAfter(s, b);
    FirstAfterSplits(s, a);
    FirstAfterSplits(s, b);
    if lo >= hi {
      BetweenSlice(s, 0, 0, a, b);
    } else {
      BetweenSlice(s, lo, hi, a, b);
    }
  }

  /** Sample `x` is the latest one of `s` at or before `t`. */
  ghost predicate LatestAt(s: seq<Sample>, t: int, x: Sample) {
    x in s && x.ts <= t && forall y :: y in s && y.ts <= t ==> y.ts <= x.ts
  }

  /** An instant lookup answers v iff the latest sample at or before `t` is no older
      than the staleness window (both ends included), is not a stale marker, and has
      value v. */
  lemma InstantValueMeaning(s: seq<Sample>, t: int, staleness: int, v: real)
    requires Increasing(s)
    ensures InstantValue(s, t, staleness) == Some(v) <==>
            exists x :: LatestAt(s, t, x) && t - staleness <= x.ts && !x.stale && x.v == v
  {
    FirstAfterSplits(s, t);
    var n := FirstAfter(s, t);
    if n > 0 {
      assert LatestAt(s, t, s[n - 1]);
      forall x | LatestAt(s, t, x) ensures x == s[n - 1] {
        assert s[n - 1] in s;
      }
    }
  }
}

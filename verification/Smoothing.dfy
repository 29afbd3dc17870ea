/** Double exponential smoothing of a window (eval/smoothing.go). */
module Smoothing {
  import opened Types

  /** The smoothed value before the last and the last one, and the trend. */
  datatype Level = Level(s0: real, s1: real, b: real)

  function Blend(f: real, x: real, y: real): real {
    f * x + (1.0 - f) * y
  }

  /** The state after the samples up to index `n`. */
  function Smoothed(w: seq<Sample>, sf: real, tf: real, n: nat): Level
    requires n < |w| && |w| >= 2
  {
    if n == 0 then Level(0.0, w[0].v, w[1].v - w[0].v)
    else
      var p := Smoothed(w, sf, tf, n - 1);
      var b := if n > 1 then Blend(tf, p.s1 - p.s0, p.b) else p.b;
      Level(p.s1, Blend(sf, w[n].v, p.s1 + b), b)
  }

  predicate Proper(f: real) { 0.0 < f < 1.0 }

  function DoubleExponentialSmoothing(w: seq<Sample>, sf: real, tf: real): Option<real> {
    if !Proper(sf) || !Proper(tf) || |w| < 2 then None
    else Some(Smoothed(w, sf, tf, |w| - 1).s1)
  }

  /** The checks and the loop of the program. */
  method Smooth(w: seq<Sample>, sf: real, tf: real) returns (r: Option<real>)
    ensures r == DoubleExponentialSmoothing(w, sf, tf)
  {
    if sf <= 0.0 || sf >= 1.0 {
      return None;
    }
    if tf <= 0.0 || tf >= 1.0 {
      return None;
    }
    if |w| < 2 {
      return None;
    }
    hide Blend;
    var s1 := w[0].v;
    var b := w[1].v - w[0].v;
    var s0 := 0.0;
    for i := 1 to |w|
      invariant Level(s0, s1, b) == Smoothed(w, sf, tf, i - 1)
    {
      if i > 1 {
        b := Blend(tf, s1 - s0, b);
      }
      s0, s1 := s1, Blend(sf, w[i].v, s1 + b);
    }
    return Some(s1);
  }

  lemma BlendSame(f: real, x: real)
    ensures Blend(f, x, x) == x
  {
  }

  /** Samples on a line are smoothed to themselves, whatever the two factors. */
  lemma {:induction false} LineIsSmooth(w: seq<Sample>, sf: real, tf: real, d: real, n: nat)
    requires n < |w| && |w| >= 2 && forall i :: 0 < i < |w| ==> w[i].v == w[i - 1].v + d
    ensures Smoothed(w, sf, tf, n).s1 == w[n].v && Smoothed(w, sf, tf, n).b == d
    ensures n > 0 ==> Smoothed(w, sf, tf, n).s0 == w[n - 1].v
  {
    hide Blend;
    if n > 0 {
      LineIsSmooth(w, sf, tf, d, n - 1);
      BlendSame(tf, d);
      BlendSame(sf, w[n].v);
    }
  }

  /** The samples before `n` all have the value `c`. */
  ghost predicate LevelBefore(w: seq<Sample>, n: nat, c: real) {
    forall i :: 0 <= i < n && i < |w| ==> w[i].v == c
  }

  lemma {:induction false} StaysLevel(w: seq<Sample>, sf: real, tf: real, c: real, n: nat)
    requires |w| >= 2 && 1 <= n < |w| && LevelBefore(w, n + 1, c)
    ensures Smoothed(w, sf, tf, n) == Level(c, c, 0.0)
  {
    hide Blend;
    BlendSame(sf, c);
    BlendSame(tf, 0.0);
    if n > 1 {
      StaysLevel(w, sf, tf, c, n - 1);
    }
  }

  /** After a level of at least two samples a jump by `d` counts with the smoothing factor, and
      at the next sample the trend is what the trend factor makes of that. */
  lemma JumpIsSmoothed(w: seq<Sample>, sf: real, tf: real, c: real, d: real, n: nat)
    requires 2 <= n < |w| && LevelBefore(w, n, c) && w[n].v == c + d
    ensures Smoothed(w, sf, tf, n).s1 == c + sf * d
    ensures n + 1 < |w| ==>
              Smoothed(w, sf, tf, n + 1).s1 == sf * w[n + 1].v + (1.0 - sf) * (c + sf * d + tf * (sf * d))
  {
    StaysLevel(w, sf, tf, c, n - 1);
    assert Blend(tf, 0.0, 0.0) == 0.0;
    assert Smoothed(w, sf, tf, n) == Level(c, c + sf * d, 0.0);
    assert Blend(tf, sf * d, 0.0) == tf * (sf * d);
  }

  /** Factors outside (0, 1) and windows of fewer than two samples are refused, and nothing
      else is. */
  lemma SmoothingReports(w: seq<Sample>, sf: real, tf: real)
    ensures DoubleExponentialSmoothing(w, sf, tf).Some? <==> 0.0 < sf < 1.0 && 0.0 < tf < 1.0 && |w| >= 2
  {
  }
}

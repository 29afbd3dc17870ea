/** Exactly when a range function with a parameter is evaluated correctly under an
    aggregation, which replaces the parameter by zero (translator/aggregations.go:45). */
module ParameterLimits {
  import opened Types
  import opened Reals
  import opened Plans
  import opened RangeFunctions
  import opened Translator
  import opened Selectors
  import opened Pointwise
  import opened PointwiseLimits
  import opened HoistingLimits
  import opened Parameters
  import Quantile
  import Regression
  import Smoothing
  import Variance

  // ---- predict_linear ----

  lemma SumsOfTwo(s: seq<Sample>, t0: int)
    requires |s| == 2
    ensures Regression.SumX(s, t0, 2) == Regression.X(s, t0, 0) + Regression.X(s, t0, 1)
    ensures Regression.SumY(s, 2) == s[0].v + s[1].v
    ensures Regression.SumXY(s, t0, 2) == Times(Regression.X(s, t0, 0), s[0].v) + Times(Regression.X(s, t0, 1), s[1].v)
  {
    hide Times;
    hide Regression.X;
    assert Regression.SumX(s, t0, 1) == Regression.SumX(s, t0, 0) + Regression.X(s, t0, 0);
    assert Regression.SumY(s, 1) == Regression.SumY(s, 0) + s[0].v;
    assert Regression.SumXY(s, t0, 1) == Regression.SumXY(s, t0, 0) + Times(Regression.X(s, t0, 0), s[0].v);
  }

  const RISING: (real, real) := (0.0, 1.0)

  lemma SlopeOfLine(offset: int)
    ensures Increasing(Line(offset, RISING)) && Regression.Slope(Line(offset, RISING), -offset) > 0.0
  {
    var s := Line(offset, RISING);
    var t0 := -offset;
    Regression.VarXPositive(s, t0);
    assert !Regression.Constant(s) by {
      assert s[0].v != s[1].v;
    }
    SumsOfTwo(s, t0);
    assert Times(-0.001, 0.0) == 0.0 && Times(0.0, 1.0) == 0.0;
    assert Regression.X(s, t0, 0) == -0.001 && Regression.X(s, t0, 1) == 0.0;
    hide Times;
    assert Regression.CovXY(s, t0) == 0.0005;
    hide *;
    Positive(Regression.CovXY(s, t0), Regression.VarX(s, t0));
  }

  lemma Positive(a: real, b: real)
    requires a > 0.0 && b > 0.0
    ensures a / b > 0.0
  {
  }

  lemma NonZeroProduct(a: real, b: real)
    requires a > 0.0
    ensures Times(a, b) == 0.0 <==> b == 0.0
  {
    if b > 0.0 {
      assert a * b > 0.0;
    } else if b < 0.0 {
      assert a * -b > 0.0;
    }
  }

  /** Where the line that rises by one starts, as seen from its end. */
  function Start(offset: int): real {
    SlopeOfLine(offset);
    Regression.Intercept(Line(offset, RISING), -offset)
  }

  lemma RisingPrediction(lib: Lib, offset: int, rangeMs: int, p: real)
    requires rangeMs >= 2
    ensures LineResult(lib, Predict, offset, rangeMs, p, RISING).Some?
    ensures LineResult(lib, Predict, offset, rangeMs, p, RISING) == Some(Start(offset)) <==> p == 0.0
  {
    SlopeOfLine(offset);
    hide Regression.Slope;
    hide Regression.Intercept;
    NonZeroProduct(Regression.Slope(Line(offset, RISING), -offset), p);
    hide Times;
  }

  lemma LevelPrediction(lib: Lib, offset: int, rangeMs: int, p: real, c: real)
    requires rangeMs >= 2
    ensures LineResult(lib, Predict, offset, rangeMs, p, (c, c)) == Some(c)
  {
    var s := Line(offset, (c, c));
    assert Regression.Constant(s) && Increasing(s);
    assert Regression.Slope(s, -offset) == 0.0 && Regression.Intercept(s, -offset) == c;
    assert Times(0.0, p) == 0.0;
    hide Regression.Slope;
    hide Regression.Intercept;
  }

  lemma PredictionAlike(p: real, rangeMs: int)
    ensures SamePresence(Predict, p, 0.0, rangeMs)
    ensures p == 0.0 || rangeMs <= 1 ==> SameResults(Predict, p, 0.0, rangeMs)
  {
    hide Regression.Slope;
    hide Regression.Intercept;
    hide RangeWindow;
    if rangeMs <= 1 {
      forall lib, s, u | Increasing(s) ensures SameResultAt(lib, Predict, p, 0.0, rangeMs, s, u) {
        NarrowWindow(s, u, rangeMs);
      }
    }
  }

  lemma PredictionSilent(p: real, rangeMs: int)
    requires rangeMs <= 1
    ensures Silent(Predict, p, rangeMs)
  {
    hide RangeWindow;
    forall lib, s, u | Increasing(s) ensures SilentAt(lib, Predict, p, rangeMs, s, u) {
      NarrowWindow(s, u, rangeMs);
    }
  }

  /** An aggregation of predict_linear is evaluated as if the prediction were for the time
      of evaluation itself. For a selector that lets something through and a range that may
      hold two samples, that is always right exactly if the selector names its metric and
      the parameter is zero or the aggregation does not look at the values. */
  lemma PredictionUnderAggregation(step: AggStep, sel: Selector, rangeMs: int, p: real)
    ensures AlwaysCorrect(RangedUnder(step, Predict, sel, rangeMs, p))
            <==> Contradictory(sel) || rangeMs <= 1
                 || (NamesItsMetric(sel) && (p == 0.0 || IgnoresValues(OwnGroup(step, sel), step.op)))
  {
    var o := sel.offsetMs;
    RegularWitnesses();
    hide RegularLib;
    hide Contradictory;
    hide OwnGroup;
    if Contradictory(sel) {
      RightWhereNothing(step, Predict, sel, rangeMs, p);
    } else if rangeMs <= 1 {
      PredictionSilent(p, rangeMs);
      PredictionSilent(0.0, rangeMs);
      RightWhereNothing(step, Predict, sel, rangeMs, p);
    } else if !NamesItsMetric(sel) {
      RisingPrediction(PLAIN, o, rangeMs, p);
      RisingPrediction(PLAIN, o, rangeMs, 0.0);
      hide LineResult;
      NameMatters(PLAIN, step, Predict, sel, rangeMs, p, RISING);
    } else if p == 0.0 || IgnoresValues(OwnGroup(step, sel), step.op) {
      PredictionAlike(p, rangeMs);
      RightWhereAlike(step, Predict, sel, rangeMs, p);
    } else {
      RisingPrediction(PLAIN, o, rangeMs, p);
      RisingPrediction(PLAIN, o, rangeMs, 0.0);
      LevelPrediction(PLAIN, o, rangeMs, p, Start(o));
      LevelPrediction(PLAIN, o, rangeMs, 0.0, Start(o));
      assert PLAIN.sqrt == (x => x);
      hide LineResult;
      ValuesMatter(PLAIN, step, Predict, sel, rangeMs, p, RISING, (Start(o), Start(o)));
    }
  }

  // ---- quantile_over_time ----

  lemma SortedPair(a: real, b: real)
    requires a <= b
    ensures Quantile.Sort([a, b]) == [a, b] && Quantile.Sort([a]) == [a]
  {
    assert [a, b][1..] == [b] && [b][1..] == [] && [a][1..] == [];
    assert Quantile.Sort([]) == [];
    assert Quantile.Insert(b, []) == [b] && Quantile.Insert(a, []) == [a];
    assert Quantile.Sort([b]) == [b];
  }

  lemma QuantileOfOne(phi: real, a: real)
    requires 0.0 <= phi <= 1.0
    ensures Quantile.QuantileOverTime(phi, [a]) == Fin(a)
  {
    SortedPair(a, a);
  }

  lemma QuantileOfTwo(phi: real, a: real, b: real)
    requires 0.0 <= phi <= 1.0 && a <= b
    ensures Quantile.QuantileOverTime(phi, [a, b]) == Fin(Quantile.Interpolate(a, b, phi))
  {
    SortedPair(a, b);
    assert Quantile.Rank(phi, 2) == phi;
    Quantile.WholeWeight(a, b);
    if phi == 1.0 {
      assert Quantile.Interpolate(b, b, 0.0) == b == Quantile.Interpolate(a, b, 1.0);
    }
  }

  /** The quantile of a row of two samples. */
  lemma RowQuantile(lib: Lib, offset: int, rangeMs: int, phi: real, v: (real, real))
    requires rangeMs >= 1 && v.0 <= v.1
    ensures LineResult(lib, QuantileOf, offset, rangeMs, phi, v)
         == Some(if phi < 0.0 then lib.negInf
                 else if phi > 1.0 then lib.posInf
                 else if rangeMs == 1 then v.1
                 else Quantile.Interpolate(v.0, v.1, phi))
  {
    var w := LineWindow(offset, rangeMs, v);
    assert Variance.Values(w) == if rangeMs == 1 then [v.1] else [v.0, v.1];
    if 0.0 <= phi <= 1.0 {
      QuantileOfOne(phi, v.1);
      QuantileOfTwo(phi, v.0, v.1);
    }
    LineInWindow(offset, rangeMs, v);
    hide Quantile.Interpolate;
    hide LineWindow;
    hide Variance.Values;
  }

  lemma QuantileAlike(phi: real, rangeMs: int)
    ensures SamePresence(QuantileOf, phi, 0.0, rangeMs)
    ensures phi == 0.0 || rangeMs <= 0 || (rangeMs == 1 && 0.0 <= phi <= 1.0) ==> SameResults(QuantileOf, phi, 0.0, rangeMs)
  {
    hide Quantile.QuantileOverTime;
    hide RangeWindow;
    if phi != 0.0 && (rangeMs <= 0 || (rangeMs == 1 && 0.0 <= phi <= 1.0)) {
      forall lib, s, u | Increasing(s) ensures SameResultAt(lib, QuantileOf, phi, 0.0, rangeMs, s, u) {
        NarrowWindow(s, u, rangeMs);
        var w := RangeWindow(s, u - rangeMs, u);
        if w != [] {
          assert Variance.Values(w) == [w[0].v];
          QuantileOfOne(phi, w[0].v);
          QuantileOfOne(0.0, w[0].v);
        }
      }
    }
  }

  lemma QuantileSilent(phi: real, rangeMs: int)
    requires rangeMs <= 0
    ensures Silent(QuantileOf, phi, rangeMs)
  {
    hide RangeWindow;
    forall lib, s, u | Increasing(s) ensures SilentAt(lib, QuantileOf, phi, rangeMs, s, u) {
      NarrowWindow(s, u, rangeMs);
    }
  }

  /** An aggregation of quantile_over_time is evaluated as an aggregation of the minimum.
      For a selector that lets something through and a range that may hold a sample, that is
      always right exactly if the selector names its metric and the parameter is zero, the
      aggregation does not look at the values, or the range holds one sample and the
      parameter is a proper quantile. */
  lemma QuantileUnderAggregation(step: AggStep, sel: Selector, rangeMs: int, phi: real)
    ensures AlwaysCorrect(RangedUnder(step, QuantileOf, sel, rangeMs, phi))
            <==> Contradictory(sel) || rangeMs <= 0
                 || (NamesItsMetric(sel)
                     && (phi == 0.0 || IgnoresValues(OwnGroup(step, sel), step.op) || (rangeMs == 1 && 0.0 <= phi <= 1.0)))
  {
    var o := sel.offsetMs;
    RegularWitnesses();
    hide RegularLib;
    hide Contradictory;
    hide OwnGroup;
    if Contradictory(sel) {
      RightWhereNothing(step, QuantileOf, sel, rangeMs, phi);
    } else if rangeMs <= 0 {
      QuantileSilent(phi, rangeMs);
      QuantileSilent(0.0, rangeMs);
      RightWhereNothing(step, QuantileOf, sel, rangeMs, phi);
    } else if !NamesItsMetric(sel) {
      RowQuantile(PLAIN, o, rangeMs, phi, RISING);
      RowQuantile(PLAIN, o, rangeMs, 0.0, RISING);
      hide LineResult;
      NameMatters(PLAIN, step, QuantileOf, sel, rangeMs, phi, RISING);
    } else if phi == 0.0 || IgnoresValues(OwnGroup(step, sel), step.op) || (rangeMs == 1 && 0.0 <= phi <= 1.0) {
      QuantileAlike(phi, rangeMs);
      RightWhereAlike(step, QuantileOf, sel, rangeMs, phi);
    } else {
      QuantileMatters(step, sel, rangeMs, phi);
    }
  }

  lemma QuantileMatters(step: AggStep, sel: Selector, rangeMs: int, phi: real)
    requires !Contradictory(sel) && NamesItsMetric(sel) && !IgnoresValues(OwnGroup(step, sel), step.op)
    requires phi != 0.0 && rangeMs >= 1 && !(rangeMs == 1 && 0.0 <= phi <= 1.0)
    ensures !AlwaysCorrect(RangedUnder(step, QuantileOf, sel, rangeMs, phi))
  {
    var o := sel.offsetMs;
    var level := if 0.0 <= phi <= 1.0 then (0.0, 0.0) else (5.0, 5.0);
    hide Contradictory;
    hide OwnGroup;
    hide NamesItsMetric;
    RegularWitnesses();
    RowQuantile(PLAIN, o, rangeMs, phi, RISING);
    RowQuantile(PLAIN, o, rangeMs, 0.0, RISING);
    RowQuantile(PLAIN, o, rangeMs, phi, level);
    RowQuantile(PLAIN, o, rangeMs, 0.0, level);
    assert PLAIN.sqrt == (x => x);
    hide LineResult;
    hide RegularLib;
    ValuesMatter(PLAIN, step, QuantileOf, sel, rangeMs, phi, RISING, level);
  }

  // ---- double_exponential_smoothing ----

  lemma SmoothingSilent(tf: real, p: real, rangeMs: int)
    requires !Smoothing.Proper(p) || !Smoothing.Proper(tf) || rangeMs <= 1
    ensures Silent(Smooth(tf), p, rangeMs)
  {
    hide RangeWindow;
    hide Smoothing.Smoothed;
    forall lib, s, u | Increasing(s) ensures SilentAt(lib, Smooth(tf), p, rangeMs, s, u) {
      if rangeMs <= 1 {
        NarrowWindow(s, u, rangeMs);
      }
    }
  }

  lemma SilencedLine(lib: Lib, tf: real, offset: int, rangeMs: int, p: real)
    requires Smoothing.Proper(p) && Smoothing.Proper(tf) && rangeMs >= 2
    ensures LineResult(lib, Smooth(tf), offset, rangeMs, p, RISING).Some?
    ensures LineResult(lib, Smooth(tf), offset, rangeMs, 0.0, RISING).None?
  {
    hide Smoothing.Smoothed;
  }

  /** Under an aggregation the smoothing factor of double_exponential_smoothing becomes
      zero, which is refused for every window: nothing is reported. That is right exactly
      when nothing could be reported anyway. */
  lemma SmoothingUnderAggregation(step: AggStep, sel: Selector, rangeMs: int, sf: real, tf: real)
    ensures AlwaysCorrect(RangedUnder(step, Smooth(tf), sel, rangeMs, sf))
            <==> Contradictory(sel) || NoName(sel) || !Smoothing.Proper(sf) || !Smoothing.Proper(tf) || rangeMs <= 1
  {
    hide Contradictory;
    hide NoName;
    SmoothingSilent(tf, 0.0, rangeMs);
    if Contradictory(sel) || NoName(sel) {
      RightWhereNothing(step, Smooth(tf), sel, rangeMs, sf);
    } else if !Smoothing.Proper(sf) || !Smoothing.Proper(tf) || rangeMs <= 1 {
      SmoothingSilent(tf, sf, rangeMs);
      RightWhereNothing(step, Smooth(tf), sel, rangeMs, sf);
    } else {
      RegularWitnesses();
      SilencedLine(PLAIN, tf, sel.offsetMs, rangeMs, sf);
      hide LineResult;
      hide RegularLib;
      SilenceMatters(PLAIN, step, Smooth(tf), sel, rangeMs, sf, RISING);
    }
  }
}

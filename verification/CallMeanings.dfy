/** What calls mean, from the written expression alone (translator/functions.go:241-311,
    eval/evaluator.go:1186-1262, eval/over_time.go, eval/smoothing.go). */
module CallMeanings {
  import opened Types
  import opened Columns
  import opened Reals
  import opened Plans
  import opened Translator
  import opened PlanEval
  import opened Meaning
  import opened Calls
  import Preservation
  import RangeFunctions
  import RangeMeanings
  import RangeValues
  import Selectors
  import Smoothing

  // ---- Pointwise functions ----

  function Number(x: real): Expr { NumberLiteral(x) }

  /** The call means, for every element of its argument, one element with the same labels;
      for `l` the two values are `v` and `r`. */
  ghost predicate Elementwise(env: Env, x: Expr, call: Expr, t: int)
    requires ValidEnv(env) && Denote(env, x, t).Some?
  {
    Denote(env, call, t).Some? && Denote(env, call, t).value.Keys == Denote(env, x, t).value.Keys
  }

  /** The value of an element. */
  ghost function At(env: Env, e: Expr, t: int, l: Labels): real
    requires ValidEnv(env) && Denote(env, e, t).Some? && l in Denote(env, e, t).value
  {
    Denote(env, e, t).value[l]
  }

  lemma CallDenotes(env: Env, fn: string, args: seq<Expr>, t: int)
    requires ValidEnv(env) && IsPointwise(fn, args) && ReadRange(fn, args).None? && Denote(env, args[0], t).Some?
    ensures Elementwise(env, args[0], Call(fn, args), t)
    ensures forall l :: l in Denote(env, args[0], t).value ==>
              l in Denote(env, Call(fn, args), t).value
              && At(env, Call(fn, args), t, l) == PointwiseValue(env.lib, fn, args, At(env, args[0], t, l))
  {
    hide ValidEnv;
    hide IsPointwise;
    hide ReadRange;
    hide PointwiseValue;
  }

  /** clamp(x, lo, hi): no value leaves the bounds, one that lies within them stays, and one
      outside them moves to the nearer bound. */
  lemma ClampMeans(env: Env, x: Expr, lo: real, hi: real, t: int, l: Labels)
    requires ValidEnv(env) && Denote(env, x, t).Some? && lo <= hi
    ensures var call := Call("clamp", [x, Number(lo), Number(hi)]);
            Elementwise(env, x, call, t)
            && (l in Denote(env, x, t).value ==>
                  var v, r := At(env, x, t, l), At(env, call, t, l);
                  lo <= r <= hi && (lo <= v <= hi ==> r == v) && (v < lo ==> r == lo) && (v > hi ==> r == hi))
  {
    var args := [x, Number(lo), Number(hi)];
    ClampReads(x, lo, hi);
    CallDenotes(env, "clamp", args, t);
    hide Denote;
    hide ValidEnv;
    hide IsPointwise;
    hide ReadRange;
    hide PointwiseValue;
  }

  lemma ClampReads(x: Expr, lo: real, hi: real)
    ensures var args := [x, Number(lo), Number(hi)];
            && IsPointwise("clamp", args) && ReadRange("clamp", args).None?
            && forall lib, v :: PointwiseValue(lib, "clamp", args, v) == Bounded(lo, hi, v)
  {
  }

  /** clamp_min(x, lo) is the greater of the two, clamp_max(x, hi) the lesser. */
  lemma ClampSideMeans(env: Env, x: Expr, bound: real, t: int, l: Labels)
    requires ValidEnv(env) && Denote(env, x, t).Some?
    ensures var low, high := Call("clamp_min", [x, Number(bound)]), Call("clamp_max", [x, Number(bound)]);
            && Elementwise(env, x, low, t) && Elementwise(env, x, high, t)
            && (l in Denote(env, x, t).value ==>
                  var v := At(env, x, t, l);
                  && At(env, low, t, l) >= bound && At(env, low, t, l) >= v && At(env, low, t, l) in {bound, v}
                  && At(env, high, t, l) <= bound && At(env, high, t, l) <= v && At(env, high, t, l) in {bound, v})
  {
    ClampSideReads(x, bound);
    CallDenotes(env, "clamp_min", [x, Number(bound)], t);
    CallDenotes(env, "clamp_max", [x, Number(bound)], t);
    hide Denote;
    hide ValidEnv;
    hide IsPointwise;
    hide ReadRange;
    hide PointwiseValue;
  }

  lemma ClampSideReads(x: Expr, bound: real)
    ensures var args := [x, Number(bound)];
            && IsPointwise("clamp_min", args) && ReadRange("clamp_min", args).None?
            && IsPointwise("clamp_max", args) && ReadRange("clamp_max", args).None?
            && (forall lib, v :: PointwiseValue(lib, "clamp_min", args, v) == if v < bound then bound else v)
            && (forall lib, v :: PointwiseValue(lib, "clamp_max", args, v) == if v > bound then bound else v)
  {
  }

  predicate IsWhole(r: real) { r == r.Floor as real }

  /** A multiple of `to` at most half of it away; of two, the one away from zero. A step of
      zero counts as one. */
  predicate IsRounded(to: real, v: real, r: real) {
    var unit := if to == 0.0 then 1.0 else to;
    && IsWhole(r / unit)
    && 2.0 * Abs(r - v) <= Abs(unit)
    && (2.0 * Abs(r - v) == Abs(unit) ==> Abs(r) > Abs(v))
  }

  lemma NearestMeans(v: real)
    ensures IsWhole(Nearest(v))
    ensures 2.0 * Abs(Nearest(v) - v) <= 1.0 && (2.0 * Abs(Nearest(v) - v) == 1.0 ==> Abs(Nearest(v)) > Abs(v))
  {
    var k := if v >= 0.0 then (v + 0.5).Floor else -((0.5 - v).Floor);
    assert Nearest(v) == k as real;
  }

  lemma AbsTimes(a: real, b: real)
    ensures Abs(Times(a, b)) == Times(Abs(a), Abs(b))
  {
    if a >= 0.0 && b >= 0.0 {
      TimesNonNegative(a, b);
    } else if a >= 0.0 {
      TimesNonNegative(a, -b);
      assert Times(a, -b) == -Times(a, b);
    } else if b >= 0.0 {
      TimesNonNegative(-a, b);
      assert Times(-a, b) == -Times(a, b);
    } else {
      TimesNonNegative(-a, -b);
      assert Times(-a, -b) == Times(a, b);
    }
  }

  lemma ScaledUp(a: real, b: real, u: real)
    requires u > 0.0
    ensures a < b <==> Times(a, u) < Times(b, u)
    ensures a == b <==> Times(a, u) == Times(b, u)
  {
    if a < b {
      TimesPositive(b - a, u);
    } else if b < a {
      TimesPositive(a - b, u);
    }
    assert Times(b - a, u) == Times(b, u) - Times(a, u);
  }

  lemma Halves(x: real, u: real)
    ensures Times(0.5, u) == u / 2.0 && Times(x, 1.0) == x
  {
  }

  lemma TimesMinus(n: real, z: real, to: real)
    ensures Times(n, to) - Times(z, to) == Times(n - z, to)
  {
  }

  lemma ScaledDistance(z: real, n: real, to: real)
    requires to != 0.0 && 2.0 * Abs(n - z) <= 1.0 && (2.0 * Abs(n - z) == 1.0 ==> Abs(n) > Abs(z))
    ensures var r, v := Times(n, to), Times(z, to);
            2.0 * Abs(r - v) <= Abs(to) && (2.0 * Abs(r - v) == Abs(to) ==> Abs(r) > Abs(v))
  {
    var u, d := Abs(to), Abs(n - z);
    TimesMinus(n, z, to);
    AbsTimes(n - z, to);
    AbsTimes(n, to);
    AbsTimes(z, to);
    ScaledUp(d, 0.5, u);
    ScaledUp(Abs(z), Abs(n), u);
    Halves(0.0, u);
    Compared(d, Times(d, u), u, Abs(n), Abs(z), Abs(Times(n, to)), Abs(Times(z, to)));
    hide Times;
    hide Abs;
  }

  lemma Compared(d: real, du: real, u: real, n: real, z: real, r: real, v: real)
    requires 2.0 * d <= 1.0 && (2.0 * d == 1.0 ==> n > z)
    requires (d < 0.5 <==> du < u / 2.0) && (d == 0.5 <==> du == u / 2.0) && (z < n <==> v < r)
    ensures 2.0 * du <= u && (2.0 * du == u ==> r > v)
  {
  }

  lemma Undone(v: real, n: real, to: real)
    requires to != 0.0
    ensures Times(v / to, to) == v && Times(n, to) / to == n
  {
  }

  lemma NearestMultipleMeans(to: real, v: real)
    ensures IsRounded(to, v, NearestMultiple(to, v))
  {
    if to == 0.0 || to == 1.0 {
      NearestMeans(v);
    } else {
      var z := v / to;
      NearestMeans(z);
      Undone(v, Nearest(z), to);
      hide Nearest;
      hide Times;
      ScaledDistance(z, Nearest(z), to);
    }
  }

  /** round(x, to) is the nearest multiple of `to`, and round(x) of one. */
  lemma RoundMeans(env: Env, x: Expr, to: real, t: int, l: Labels)
    requires ValidEnv(env) && Denote(env, x, t).Some?
    ensures var call, plain := Call("round", [x, Number(to)]), Call("round", [x]);
            && Elementwise(env, x, call, t) && Elementwise(env, x, plain, t)
            && (l in Denote(env, x, t).value ==>
                  && IsRounded(to, At(env, x, t, l), At(env, call, t, l))
                  && IsRounded(1.0, At(env, x, t, l), At(env, plain, t, l)))
  {
    RoundReads(x, to);
    CallDenotes(env, "round", [x, Number(to)], t);
    CallDenotes(env, "round", [x], t);
    if l in Denote(env, x, t).value {
      NearestMultipleMeans(to, At(env, x, t, l));
      NearestMultipleMeans(1.0, At(env, x, t, l));
    }
    hide Denote;
    hide ValidEnv;
    hide IsPointwise;
    hide ReadRange;
    hide PointwiseValue;
    hide IsRounded;
    hide NearestMultiple;
  }

  lemma RoundReads(x: Expr, to: real)
    ensures IsPointwise("round", [x, Number(to)]) && ReadRange("round", [x, Number(to)]).None?
    ensures IsPointwise("round", [x]) && ReadRange("round", [x]).None?
    ensures forall lib, v :: PointwiseValue(lib, "round", [x, Number(to)], v) == NearestMultiple(to, v)
    ensures forall lib, v :: PointwiseValue(lib, "round", [x], v) == NearestMultiple(1.0, v)
  {
    hide NearestMultiple;
  }

  /** abs is the distance from zero, ceil the least whole number that is not below, floor the
      greatest that is not above, sgn the sign. */
  predicate IsSimple(fn: string, v: real, r: real) {
    match fn
    case "abs" => r >= 0.0 && (r == v || r == -v)
    case "ceil" => IsWhole(r) && v <= r < v + 1.0
    case "floor" => IsWhole(r) && v - 1.0 < r <= v
    case "sgn" => (v > 0.0 ==> r == 1.0) && (v < 0.0 ==> r == -1.0) && (v == 0.0 ==> r == 0.0)
    case _ => false
  }

  const SIMPLE: set<string> := {"abs", "ceil", "floor", "sgn"}

  lemma SimpleMeans(env: Env, fn: string, x: Expr, t: int, l: Labels)
    requires ValidEnv(env) && Denote(env, x, t).Some? && fn in SIMPLE
    ensures Elementwise(env, x, Call(fn, [x]), t)
    ensures l in Denote(env, x, t).value ==> IsSimple(fn, At(env, x, t, l), At(env, Call(fn, [x]), t, l))
  {
    SimpleReads(env.lib, fn, x);
    CallDenotes(env, fn, [x], t);
    hide Denote;
    hide ValidEnv;
    hide IsPointwise;
    hide ReadRange;
    hide PointwiseValue;
    hide IsSimple;
    hide SIMPLE;
  }

  lemma SimpleReads(lib: Lib, fn: string, x: Expr)
    requires fn in SIMPLE
    ensures IsPointwise(fn, [x]) && ReadRange(fn, [x]).None?
    ensures forall v :: IsSimple(fn, v, PointwiseValue(lib, fn, [x], v))
  {
    SimpleIsPointwise(fn, x);
    forall v ensures IsSimple(fn, v, PointwiseValue(lib, fn, [x], v)) {
      WholeCeiling(v);
    }
  }

  lemma SimpleIsPointwise(fn: string, x: Expr)
    requires fn in SIMPLE
    ensures IsPointwise(fn, [x]) && ReadRange(fn, [x]).None?
  {
  }

  lemma WholeCeiling(v: real)
    ensures var r := -((0.0 - v).Floor as real); IsWhole(r) && v <= r < v + 1.0
  {
    var m := (0.0 - v).Floor;
    var k: int := -m;
    assert k as real == -(m as real);
    assert (k as real).Floor == k;
    assert m as real <= 0.0 - v < m as real + 1.0;
  }

  /** The other functions ask the math library by their own name; deg and rad are
      multiplications. */
  lemma LibraryMeans(env: Env, fn: string, x: Expr, t: int, l: Labels)
    requires ValidEnv(env) && Denote(env, x, t).Some? && fn in LIBRARY
    ensures Elementwise(env, x, Call(fn, [x]), t)
    ensures l in Denote(env, x, t).value ==> At(env, Call(fn, [x]), t, l) == OfLibrary(env.lib, fn, At(env, x, t, l))
  {
    LibraryReads(env.lib, fn, x);
    CallDenotes(env, fn, [x], t);
    hide Denote;
    hide ValidEnv;
    hide IsPointwise;
    hide ReadRange;
    hide PointwiseValue;
    hide LIBRARY;
  }

  const LIBRARY: set<string> := {"sqrt", "exp", "ln", "log2", "log10"} + TRIG

  function OfLibrary(lib: Lib, fn: string, v: real): real {
    if fn == "sqrt" then lib.sqrt(v)
    else if fn == "deg" then v * (180.0 / 3.141592653589793)
    else if fn == "rad" then v * (3.141592653589793 / 180.0)
    else lib.unary(fn, v)
  }

  lemma LibraryReads(lib: Lib, fn: string, x: Expr)
    requires fn in LIBRARY
    ensures IsPointwise(fn, [x]) && ReadRange(fn, [x]).None?
    ensures forall v :: PointwiseValue(lib, fn, [x], v) == OfLibrary(lib, fn, v)
  {
    hide *;
    LibraryIsPointwise(fn, x);
    LibraryIsNoRange(fn, x);
    LibraryValues(lib, fn, x);
  }

  lemma LibraryIsPointwise(fn: string, x: Expr)
    requires fn in LIBRARY
    ensures IsPointwise(fn, [x])
  {
    LibraryIsNoRange(fn, x);
  }

  lemma LibraryIsNoRange(fn: string, x: Expr)
    requires fn in LIBRARY
    ensures ReadRange(fn, [x]).None?
  {
  }

  lemma LibraryValues(lib: Lib, fn: string, x: Expr)
    requires fn in LIBRARY && IsPointwise(fn, [x])
    ensures forall v :: PointwiseValue(lib, fn, [x], v) == OfLibrary(lib, fn, v)
  {
    hide IsPointwise;
  }

  // ---- Range functions ----

  /** The plan fields that the reading of a call stands for. */
  function Reads(fn: string, r: RangeReading): EvalPlan {
    EvalPlan(fn, r.first, r.second, r.rangeMs, r.sel.offsetMs, [], [])
  }

  /** A range function means, for every series of its selector, what RangeValues says. */
  lemma RangeCallDenotes(env: Env, fn: string, args: seq<Expr>, t: int)
    requires ValidEnv(env) && ReadRange(fn, args).Some?
    ensures var r := ReadRange(fn, args).value;
            var db := Selectors.Selected(env, r.sel);
            && Denote(env, Call(fn, args), t).Some?
            && forall l :: (l in Denote(env, Call(fn, args), t).value <==>
                              l in db && RangeValues.ValueOf(env.lib, Reads(fn, r), fn, db[l], t).Some?)
                           && (l in Denote(env, Call(fn, args), t).value ==>
                                 RangeValues.ValueOf(env.lib, Reads(fn, r), fn, db[l], t) == Some(Denote(env, Call(fn, args), t).value[l]))
  {
    var r := ReadRange(fn, args).value;
    var db := Selectors.Selected(env, r.sel);
    forall l | l in db
      ensures RangeFunctions.ComputeValue(env.lib, Reads(fn, r), db[l], t, env.config.stalenessMs)
           == RangeValues.ValueOf(env.lib, Reads(fn, r), fn, db[l], t)
    {
      ReadIsKnown(fn, args);
      RangeValues.AnyStaleness(env.lib, Reads(fn, r), db[l], t, env.config.stalenessMs);
    }
    hide ValidEnv;
    hide Selectors.Selected;
    hide RangeValues.ValueOf;
    hide RangeFunctions.ComputeValue;
    hide ReadRange;
    hide PointwiseValue;
    hide IsPointwise;
  }

  lemma ReadIsKnown(fn: string, args: seq<Expr>)
    requires ReadRange(fn, args).Some?
    ensures fn in RangeFunctions.RANGE_FUNCTIONS
  {
  }

  lemma SameElements(v: Vec, w: Vec)
    requires forall l :: (l in v <==> l in w) && (l in v ==> v[l] == w[l])
    ensures v == w
  {
  }

  /** quantile_over_time(0, x[r]) is min_over_time(x[r]), and that of 1 the maximum. */
  lemma QuantileCallEnds(env: Env, sel: Selector, rangeMs: int, t: int)
    requires ValidEnv(env)
    ensures var range := MatrixSelector(sel, rangeMs);
            && Denote(env, Call("quantile_over_time", [Number(0.0), range]), t) == Denote(env, Call("min_over_time", [range]), t)
            && Denote(env, Call("quantile_over_time", [Number(1.0), range]), t) == Denote(env, Call("max_over_time", [range]), t)
  {
    QuantileCallEnd(env, sel, rangeMs, 0.0, "min_over_time", t);
    QuantileCallEnd(env, sel, rangeMs, 1.0, "max_over_time", t);
  }

  lemma QuantileReads(sel: Selector, rangeMs: int, phi: real, extreme: string)
    requires extreme == "min_over_time" || extreme == "max_over_time"
    ensures ReadRange("quantile_over_time", [Number(phi), MatrixSelector(sel, rangeMs)])
         == Some(RangeReading(sel, rangeMs, phi, 0.0))
    ensures ReadRange(extreme, [MatrixSelector(sel, rangeMs)]) == Some(RangeReading(sel, rangeMs, 0.0, 0.0))
  {
  }

  lemma QuantileCallEnd(env: Env, sel: Selector, rangeMs: int, phi: real, extreme: string, t: int)
    requires ValidEnv(env) && ((phi == 0.0 && extreme == "min_over_time") || (phi == 1.0 && extreme == "max_over_time"))
    ensures var range := MatrixSelector(sel, rangeMs);
            Denote(env, Call("quantile_over_time", [Number(phi), range]), t) == Denote(env, Call(extreme, [range]), t)
  {
    var q, args, args' := "quantile_over_time", [Number(phi), MatrixSelector(sel, rangeMs)], [MatrixSelector(sel, rangeMs)];
    var r, r' := RangeReading(sel, rangeMs, phi, 0.0), RangeReading(sel, rangeMs, 0.0, 0.0);
    QuantileReads(sel, rangeMs, phi, extreme);
    hide *;
    RangeCallDenotes(env, q, args, t);
    RangeCallDenotes(env, extreme, args', t);
    var db := Selectors.Selected(env, sel);
    ValidSeries(env, sel);
    forall l | l in db
      ensures RangeValues.ValueOf(env.lib, Reads(q, r), q, db[l], t)
           == RangeValues.ValueOf(env.lib, Reads(extreme, r'), extreme, db[l], t)
    {
      SeriesEnd(env.lib, r, r', extreme, db[l], t);
    }
    SameElements(Denote(env, Call(q, args), t).value, Denote(env, Call(extreme, args'), t).value) by {
      forall l ensures (l in Denote(env, Call(q, args), t).value <==> l in Denote(env, Call(extreme, args'), t).value)
                       && (l in Denote(env, Call(q, args), t).value ==>
                             Denote(env, Call(q, args), t).value[l] == Denote(env, Call(extreme, args'), t).value[l]) {
      }
    }
  }

  lemma ValidSeries(env: Env, sel: Selector)
    requires ValidEnv(env)
    ensures forall l :: l in Selectors.Selected(env, sel) ==> Increasing(Selectors.Selected(env, sel)[l])
  {
    hide Selectors.Selected;
  }

  /** The function of another plan with the same range, offset and parameters. */
  lemma OnlyFields(lib: Lib, p: EvalPlan, q: EvalPlan, fn: string, s: seq<Sample>, t: int)
    requires Increasing(s) && q == p.(funcName := q.funcName)
    ensures RangeValues.ValueOf(lib, p, fn, s, t) == RangeValues.ValueOf(lib, q, fn, s, t)
  {
    assert p.(funcName := fn) == q.(funcName := fn);
  }

  lemma SeriesEnd(lib: Lib, r: RangeReading, r': RangeReading, extreme: string, s: seq<Sample>, t: int)
    requires Increasing(s) && r' == r.(first := 0.0)
    requires (r.first == 0.0 && extreme == "min_over_time") || (r.first == 1.0 && extreme == "max_over_time")
    ensures RangeValues.ValueOf(lib, Reads("quantile_over_time", r), "quantile_over_time", s, t)
         == RangeValues.ValueOf(lib, Reads(extreme, r'), extreme, s, t)
  {
    var p, p' := Reads("quantile_over_time", r), Reads(extreme, r');
    assert p.aggParam == r.first && "quantile_over_time" in RangeMeanings.OVER_TIME && extreme in RangeMeanings.OVER_TIME;
    assert p' == p.(aggParam := 0.0, funcName := extreme);
    hide *;
    RangeMeanings.OverTimeReports(lib, p, "quantile_over_time", s, t);
    RangeMeanings.OverTimeReports(lib, p, extreme, s, t);
    if !RangeMeanings.Nothing(p, s, t) {
      RangeMeanings.QuantileEnds(lib, p, s, t);
    }
    RangeMeanings.ParameterIgnored(lib, p, p', extreme, s, t);
  }

  /** predict_linear(x[r], d) is what it is for zero seconds, plus d times deriv(x[r]). */
  lemma PredictionGrows(env: Env, sel: Selector, rangeMs: int, d: real, t: int, l: Labels)
    requires ValidEnv(env)
    ensures var range := MatrixSelector(sel, rangeMs);
            var ahead, now, deriv := Denote(env, Call("predict_linear", [range, Number(d)]), t),
                                     Denote(env, Call("predict_linear", [range, Number(0.0)]), t),
                                     Denote(env, Call("deriv", [range]), t);
            && ahead.Some? && now.Some? && deriv.Some?
            && (l in ahead.value <==> l in now.value) && (l in ahead.value <==> l in deriv.value)
            && (l in ahead.value ==> ahead.value[l] == now.value[l] + Times(deriv.value[l], d))
  {
    var range := MatrixSelector(sel, rangeMs);
    var fn := "predict_linear";
    PredictReads(sel, rangeMs, d);
    PredictReads(sel, rangeMs, 0.0);
    hide *;
    RangeCallDenotes(env, fn, [range, Number(d)], t);
    RangeCallDenotes(env, fn, [range, Number(0.0)], t);
    RangeCallDenotes(env, "deriv", [range], t);
    var db := Selectors.Selected(env, sel);
    ValidSeries(env, sel);
    if l in db {
      SeriesPrediction(env.lib, sel, rangeMs, d, db[l], t);
    }
  }

  lemma PredictReads(sel: Selector, rangeMs: int, d: real)
    ensures ReadRange("predict_linear", [MatrixSelector(sel, rangeMs), Number(d)]) == Some(RangeReading(sel, rangeMs, d, 0.0))
    ensures ReadRange("deriv", [MatrixSelector(sel, rangeMs)]) == Some(RangeReading(sel, rangeMs, 0.0, 0.0))
  {
  }

  lemma SeriesPrediction(lib: Lib, sel: Selector, rangeMs: int, d: real, s: seq<Sample>, t: int)
    requires Increasing(s)
    ensures var r, r0 := RangeReading(sel, rangeMs, d, 0.0), RangeReading(sel, rangeMs, 0.0, 0.0);
            var ahead, now, deriv := RangeValues.ValueOf(lib, Reads("predict_linear", r), "predict_linear", s, t),
                                     RangeValues.ValueOf(lib, Reads("predict_linear", r0), "predict_linear", s, t),
                                     RangeValues.ValueOf(lib, Reads("deriv", r0), "deriv", s, t);
            && (ahead.Some? <==> now.Some?) && (ahead.Some? <==> deriv.Some?)
            && (ahead.Some? ==> ahead.value == now.value + Times(deriv.value, d))
  {
    var r, r0 := RangeReading(sel, rangeMs, d, 0.0), RangeReading(sel, rangeMs, 0.0, 0.0);
    var p, q, p' := Reads("predict_linear", r), Reads("predict_linear", r0), Reads("deriv", r0);
    assert q == p.(aggParam := 0.0) && p.aggParam == d && p' == q.(funcName := "deriv");
    hide *;
    OnlyFields(lib, q, p', "deriv", s, t);
    RangeMeanings.PredictionOfSeries(lib, p, q, s, t);
  }

  /** The samples in the range are level at `c`, but for the last one, which is `d` above. */
  ghost predicate EndsWithJump(r: RangeReading, s: seq<Sample>, t: int, c: real, d: real)
    requires Increasing(s)
  {
    var w := RangeValues.Seen(Reads("", r), s, t);
    |w| >= 3 && Smoothing.LevelBefore(w, |w| - 1, c) && w[|w| - 1].v == c + d
  }

  function Jumped(c: real, factor: real, d: real): real { c + factor * d }

  /** double_exponential_smoothing(x[r], sf, tf) of such samples: the smoothing factor, the
      first of the two, weighs the jump. */
  lemma SmoothingCallJump(env: Env, sel: Selector, rangeMs: int, sf: real, tf: real, t: int, l: Labels, c: real, d: real)
    requires ValidEnv(env) && 0.0 < sf < 1.0 && 0.0 < tf < 1.0
    requires l in Selectors.Selected(env, sel) && Increasing(Selectors.Selected(env, sel)[l])
    requires EndsWithJump(RangeReading(sel, rangeMs, sf, tf), Selectors.Selected(env, sel)[l], t, c, d)
    ensures var call := Call("double_exponential_smoothing", [MatrixSelector(sel, rangeMs), Number(sf), Number(tf)]);
            Denote(env, call, t).Some? && l in Denote(env, call, t).value && Denote(env, call, t).value[l] == Jumped(c, sf, d)
  {
    hide *;
    var fn, args := "double_exponential_smoothing", [MatrixSelector(sel, rangeMs), Number(sf), Number(tf)];
    SmoothingReads(sel, rangeMs, sf, tf);
    JumpOfSeries(env.lib, fn, RangeReading(sel, rangeMs, sf, tf), Selectors.Selected(env, sel)[l], t, c, d);
    RangeCallDenotes(env, fn, args, t);
  }

  lemma JumpOfSeries(lib: Lib, fn: string, r: RangeReading, s: seq<Sample>, t: int, c: real, d: real)
    requires fn == "double_exponential_smoothing" && Increasing(s) && EndsWithJump(r, s, t, c, d)
    requires 0.0 < r.first < 1.0 && 0.0 < r.second < 1.0
    ensures RangeValues.ValueOf(lib, Reads(fn, r), fn, s, t) == Some(Jumped(c, r.first, d))
  {
    hide *;
    var w := RangeValues.Seen(Reads("", r), s, t);
    JumpMeans(r, s, t, c, d);
    SameSeen(fn, r, s, t);
    ReadsFields(fn, r);
    RangeMeanings.SmoothingOfSeries(lib, Reads(fn, r), s, t);
    SmoothedJump(w, r.first, r.second, c, d);
  }

  lemma JumpMeans(r: RangeReading, s: seq<Sample>, t: int, c: real, d: real)
    requires Increasing(s) && EndsWithJump(r, s, t, c, d)
    ensures var w := RangeValues.Seen(Reads("", r), s, t);
            |w| >= 3 && Smoothing.LevelBefore(w, |w| - 1, c) && w[|w| - 1].v == c + d
  {
    hide RangeValues.Seen;
    hide Smoothing.LevelBefore;
  }

  lemma SmoothedJump(w: seq<Sample>, sf: real, tf: real, c: real, d: real)
    requires |w| >= 3 && Smoothing.LevelBefore(w, |w| - 1, c) && w[|w| - 1].v == c + d
    requires 0.0 < sf < 1.0 && 0.0 < tf < 1.0
    ensures Smoothing.DoubleExponentialSmoothing(w, sf, tf) == Some(Jumped(c, sf, d))
  {
    Smoothing.JumpIsSmoothed(w, sf, tf, c, d, |w| - 1);
    hide Smoothing.Smoothed;
    hide Smoothing.LevelBefore;
  }

  lemma SmoothingReads(sel: Selector, rangeMs: int, sf: real, tf: real)
    ensures ReadRange("double_exponential_smoothing", [MatrixSelector(sel, rangeMs), Number(sf), Number(tf)])
         == Some(RangeReading(sel, rangeMs, sf, tf))
  {
  }

  lemma SameSeen(fn: string, r: RangeReading, s: seq<Sample>, t: int)
    requires Increasing(s)
    ensures RangeValues.Seen(Reads("", r), s, t) == RangeValues.Seen(Reads(fn, r), s, t)
  {
    RangeMeanings.SameRange(Reads("", r), Reads(fn, r), s, t);
    hide *;
  }

  lemma ReadsFields(fn: string, r: RangeReading)
    ensures Reads(fn, r).aggParam == r.first && Reads(fn, r).smoothing == r.second
  {
  }

  /** What a query for a clamped expression returns lies within the bounds. */
  lemma ClampedResult(env: Env, x: Expr, lo: real, hi: real, steps: seq<int>, tab: Table, t: int, l: Labels)
    requires ValidEnv(env) && lo <= hi && t in steps && Denote(env, x, t).Some?
    requires Preservation.IsTableOf(env, Call("clamp", [x, Number(lo), Number(hi)]), steps, tab)
    ensures l in Column(tab, t) <==> l in Denote(env, x, t).value
    ensures l in Column(tab, t) ==> lo <= Column(tab, t)[l] <= hi
  {
    ClampMeans(env, x, lo, hi, t, l);
    hide Denote;
    hide ValidEnv;
    hide Column;
    hide Normal;
    assert forall v: Vec :: l in v <==> l in v.Keys;
  }
}

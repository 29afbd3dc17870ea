/** Range functions with a parameter under an aggregation: what the plan computes, and data
    on which it matters. */
module Parameters {
  import opened Types
  import Reals
  import opened Plans
  import opened Columns
  import opened Aggregation
  import opened RangeFunctions
  import opened InstantEval
  import opened Pointwise
  import opened Translator
  import opened PlanEval
  import opened Selectors
  import opened Meaning
  import opened Preservation
  import opened Hoisting
  import opened HoistingLimits
  import Calls
  import LabelKeys
  import Staleness
  import Quantile
  import Variance
  import Regression
  import Extrapolate
  import Smoothing

  /** The functions whose parameter travels in the plan; the trend factor of the smoothing
      has a field of its own. */
  datatype Function = Predict | QuantileOf | Smooth(tf: real)

  function Name(f: Function): string {
    match f
    case Predict => "predict_linear"
    case QuantileOf => "quantile_over_time"
    case Smooth(_) => "double_exponential_smoothing"
  }

  function Trend(f: Function): real {
    if f.Smooth? then f.tf else 0.0
  }

  function Arguments(f: Function, sel: Selector, rangeMs: int, p: real): seq<Expr> {
    match f
    case Predict => [MatrixSelector(sel, rangeMs), NumberLiteral(p)]
    case QuantileOf => [NumberLiteral(p), MatrixSelector(sel, rangeMs)]
    case Smooth(tf) => [MatrixSelector(sel, rangeMs), NumberLiteral(p), NumberLiteral(tf)]
  }

  function Ranged(f: Function, sel: Selector, rangeMs: int, p: real): Expr {
    Call(Name(f), Arguments(f, sel, rangeMs, p))
  }

  function RangedUnder(step: AggStep, f: Function, sel: Selector, rangeMs: int, p: real): Expr {
    AggregateExpr(step, Ranged(f, sel, rangeMs, p))
  }

  function RangedCore(f: Function, sel: Selector, rangeMs: int, p: real): EvalPlan {
    EvalPlan(Name(f), p, Trend(f), rangeMs, sel.offsetMs, [], [])
  }

  ghost function RangedVec(env: Env, f: Function, sel: Selector, rangeMs: int, p: real, t: int): Vec
    requires ValidEnv(env)
  {
    InstantVec(env.lib, RangedCore(f, sel, rangeMs, p), Selected(env, sel), t, env.config.stalenessMs)
  }

  lemma ArgumentsRead(f: Function, sel: Selector, rangeMs: int, p: real)
    ensures RangeCallOf(Name(f), Arguments(f, sel, rangeMs, p)) == Some((MatrixSelector(sel, rangeMs), p, Trend(f)))
  {
  }

  lemma ArgumentsMeaning(f: Function, sel: Selector, rangeMs: int, p: real)
    ensures RangeCallOf(Name(f), Arguments(f, sel, rangeMs, p)) == Some((MatrixSelector(sel, rangeMs), p, Trend(f)))
    ensures !IsMath(Name(f), Arguments(f, sel, rangeMs, p))
    ensures DropParam(Ranged(f, sel, rangeMs, p)) == Ranged(f, sel, rangeMs, 0.0)
  {
    ArgumentsRead(f, sel, rangeMs, p);
    var args := Arguments(f, sel, rangeMs, p);
    hide RangeCallOf;
    hide LiteralCall;
    hide MathStepOf;
    assert args[if f.QuantileOf? then 0 else 1 := NumberLiteral(0.0)] == Arguments(f, sel, rangeMs, 0.0);
  }

  lemma RangedDenotes(env: Env, step: AggStep, f: Function, sel: Selector, rangeMs: int, p: real, t: int)
    requires ValidEnv(env)
    ensures var e := RangedUnder(step, f, sel, rangeMs, p);
            && (FetchFaithful(env, e) <==> ReadsAlike(env, sel))
            && Denote(env, e, t) == Some(AggregateVec(env.lib, RangedVec(env, f, sel, rangeMs, p, t), step))
  {
    hide InstantVec;
    hide AggregateVec;
    hide Selected;
    hide ReadsAlike;
    ArgumentsMeaning(f, sel, rangeMs, p);
    CallMeaning(env, Name(f), Arguments(f, sel, rangeMs, p), t);
    hide Calls.ReadRange;
    hide Calls.IsPointwise;
    hide Calls.PointwiseValue;
    hide ValidEnv;
    hide RangeCallOf;
    hide IsMath;
    hide Arguments;
    hide Name;
    var e := Ranged(f, sel, rangeMs, p);
    assert FetchFaithful(env, AggregateExpr(step, e)) <==> FetchFaithful(env, e);
  }

  /** The plan evaluates the aggregation with zero for the parameter. */
  lemma RangedMeaning(env: Env, step: AggStep, f: Function, sel: Selector, rangeMs: int, p: real, t: int)
    requires ValidEnv(env) && NamesItsMetric(sel)
    ensures var e := RangedUnder(step, f, sel, rangeMs, p);
            && IsChain(e)
            && Denote(env, Canonical(e), t) == Some(AggregateVec(env.lib, RangedVec(env, f, sel, rangeMs, 0.0, t), step))
  {
    RangedDenotes(env, step, f, sel, rangeMs, 0.0, t);
    hide Denote;
    hide RangedVec;
    hide AggregateVec;
    hide NamesItsMetric;
    ArgumentsMeaning(f, sel, rangeMs, p);
    ArgumentsMeaning(f, sel, rangeMs, 0.0);
    hide RangeCallOf;
    hide IsMath;
    hide DropParam;
    hide Arguments;
    hide Name;
    assert Canonical(Ranged(f, sel, rangeMs, p)) == Ranged(f, sel, rangeMs, p);
    assert Canonical(RangedUnder(step, f, sel, rangeMs, p)) == RangedUnder(step, f, sel, rangeMs, 0.0);
  }

  lemma RangedPlan(c: Config, f: Function, sel: Selector, rangeMs: int, p: real)
    ensures Translate(c, Ranged(f, sel, rangeMs, p)) == Some(RangeCallPlan(c, Name(f), (MatrixSelector(sel, rangeMs), p, Trend(f))))
  {
    ArgumentsMeaning(f, sel, rangeMs, p);
    hide RangeCallOf;
    hide Arguments;
    hide RangeCallPlan;
    hide LiteralCall;
    hide MathStepOf;
  }

  lemma CallPlanNamed(c: Config, fn: string, sel: Selector, rangeMs: int, p: real, q: real)
    ensures RangeCallPlan(c, fn, (MatrixSelector(sel, rangeMs), p, q))
         == RangeCallPlan(c, fn, (MatrixSelector(Named(sel), rangeMs), p, q))
  {
    NamedMeaning(sel);
    assert Named(sel).offsetMs == sel.offsetMs;
    hide Named;
  }

  lemma SamePlanUnder(c: Config, step: AggStep, e: Expr, e': Expr)
    requires Translate(c, e) == Translate(c, e')
    ensures Translate(c, AggregateExpr(step, e)) == Translate(c, AggregateExpr(step, e'))
  {
  }

  /** The plan reads only the name that the selector is compiled to. */
  lemma RangedNamed(c: Config, step: AggStep, f: Function, sel: Selector, rangeMs: int, p: real)
    ensures Translate(c, RangedUnder(step, f, sel, rangeMs, p)) == Translate(c, RangedUnder(step, f, Named(sel), rangeMs, p))
  {
    hide Translate;
    RangedPlan(c, f, sel, rangeMs, p);
    RangedPlan(c, f, Named(sel), rangeMs, p);
    CallPlanNamed(c, Name(f), sel, rangeMs, p, Trend(f));
    hide RangeCallPlan;
    hide Ranged;
    hide Named;
    SamePlanUnder(c, step, Ranged(f, sel, rangeMs, p), Ranged(f, Named(sel), rangeMs, p));
  }

  /** At a time the aggregate with the parameter is the one that the plan computes. */
  ghost predicate SameAggregate(env: Env, step: AggStep, f: Function, sel: Selector, rangeMs: int, p: real, t: int)
    requires ValidEnv(env)
  {
    AggregateVec(env.lib, RangedVec(env, f, sel, rangeMs, p, t), step)
    == AggregateVec(env.lib, RangedVec(env, f, Named(sel), rangeMs, 0.0, t), step)
  }

  /** The meaning and the plan at a time. */
  lemma RangedBoth(env: Env, step: AggStep, f: Function, sel: Selector, rangeMs: int, p: real, t: int)
    requires ValidEnv(env) && FetchFaithful(env, RangedUnder(step, f, sel, rangeMs, p))
    ensures var e, e' := RangedUnder(step, f, sel, rangeMs, p), RangedUnder(step, f, Named(sel), rangeMs, p);
            && IsChain(e') && FetchFaithful(env, e') && Translate(env.config, e) == Translate(env.config, e')
            && (Denote(env, e, t) == Denote(env, Canonical(e'), t) <==> SameAggregate(env, step, f, sel, rangeMs, p, t))
  {
    NamedMeaning(sel);
    hide *;
    RangedNamed(env.config, step, f, sel, rangeMs, p);
    NamedReadsAlike(env, sel);
    RangedDenotes(env, step, f, sel, rangeMs, p, t);
    RangedDenotes(env, step, f, Named(sel), rangeMs, p, t);
    RangedMeaning(env, step, f, Named(sel), rangeMs, p, t);
    SameAggregateMeans(env, step, f, sel, rangeMs, p, t);
  }

  lemma SameAggregateMeans(env: Env, step: AggStep, f: Function, sel: Selector, rangeMs: int, p: real, t: int)
    requires ValidEnv(env)
    ensures SameAggregate(env, step, f, sel, rangeMs, p, t)
            <==> AggregateVec(env.lib, RangedVec(env, f, sel, rangeMs, p, t), step)
                 == AggregateVec(env.lib, RangedVec(env, f, Named(sel), rangeMs, 0.0, t), step)
  {
  }

  /** Where the two always agree the plan is right. */
  lemma RightWhereSame(step: AggStep, f: Function, sel: Selector, rangeMs: int, p: real)
    requires forall env, t :: ValidEnv(env) && ReadsAlike(env, sel) ==> SameAggregate(env, step, f, sel, rangeMs, p, t)
    ensures AlwaysCorrect(RangedUnder(step, f, sel, rangeMs, p))
  {
    var e, e' := RangedUnder(step, f, sel, rangeMs, p), RangedUnder(step, f, Named(sel), rangeMs, p);
    hide SameAggregate;
    hide RegularLib;
    hide Denote;
    hide Canonical;
    hide FetchFaithful;
    hide ReadsAlike;
    hide ValidEnv;
    hide Means;
    forall env, steps | ValidEnv(env) && RegularLib(env.lib) && StepsInQuery(env, steps) && FetchFaithful(env, e)
      ensures Means(env, e, steps, PlanResult(env, e, steps))
    {
      RangedDenotes(env, step, f, sel, rangeMs, p, 0);
      RangedBoth(env, step, f, sel, rangeMs, p, 0);
      forall t | t in steps ensures Denote(env, e, t) == Denote(env, Canonical(e'), t) {
        RangedBoth(env, step, f, sel, rangeMs, p, t);
      }
      RightForAnother(env, e, e', steps);
    }
  }

  /** Where they ever differ it is not. */
  lemma WrongWhereDifferent(env: Env, step: AggStep, f: Function, sel: Selector, rangeMs: int, p: real)
    requires ValidEnv(env) && RegularLib(env.lib) && StepsInQuery(env, [0]) && ReadsAlike(env, sel)
    requires !SameAggregate(env, step, f, sel, rangeMs, p, 0)
    ensures !AlwaysCorrect(RangedUnder(step, f, sel, rangeMs, p))
  {
    hide *;
    RangedDenotes(env, step, f, sel, rangeMs, p, 0);
    RangedBoth(env, step, f, sel, rangeMs, p, 0);
    WrongForAnother(env, RangedUnder(step, f, sel, rangeMs, p), RangedUnder(step, f, Named(sel), rangeMs, p));
  }

  // ---- The value of a window ----

  /** What the function gives on a window that ends at `u`. */
  function WindowResult(lib: Lib, f: Function, w: seq<Sample>, u: int, p: real): Option<real>
    requires Increasing(w)
  {
    match f
    case Predict => Regression.PredictLinear(w, u, p)
    case QuantileOf => if w == [] then None else Some(RealOf(lib, Quantile.QuantileOverTime(p, Variance.Values(w))))
    case Smooth(tf) => Smoothing.DoubleExponentialSmoothing(w, p, tf)
  }

  lemma ValueOfWindow(lib: Lib, f: Function, sel: Selector, rangeMs: int, p: real, s: seq<Sample>, t: int, st: int, u: int)
    requires Increasing(s) && u == t - sel.offsetMs
    ensures ComputeValue(lib, RangedCore(f, sel, rangeMs, p), s, t, st)
         == WindowResult(lib, f, RangeWindow(s, u - rangeMs, u), u, p)
  {
    hide Regression.PredictLinear;
    hide Smoothing.DoubleExponentialSmoothing;
    hide RangeWindow;
    hide Extrapolate.ExtrapolatedRate;
  }

  /** At most one sample lies within a millisecond. */
  lemma NarrowWindow(s: seq<Sample>, u: int, rangeMs: int)
    requires Increasing(s) && rangeMs <= 1
    ensures |RangeWindow(s, u - rangeMs, u)| <= 1
    ensures rangeMs <= 0 ==> RangeWindow(s, u - rangeMs, u) == []
  {
  }

  // ---- Where the parameter does not matter ----

  /** The aggregate depends on which series there are only; `own` if every series is a group
      of its own. */
  predicate IgnoresValues(own: bool, op: AggOp) {
    op == Count || op == Group || ((op == Stddev || op == Stdvar) && own)
  }

  lemma SameMembers(step: AggStep, m: Vec, m': Vec)
    requires m.Keys == m'.Keys
    ensures Groups(m, step) == Groups(m', step)
    ensures forall g :: Members(m, step, g) == Members(m', step, g)
  {
    assert forall l :: l in m <==> l in m.Keys;
    assert forall l :: l in m' <==> l in m'.Keys;
    forall g ensures Members(m, step, g) == Members(m', step, g) {
    }
  }

  lemma ValuesIgnored(lib: Lib, own: bool, step: AggStep, m: Vec, m': Vec)
    requires IgnoresValues(own, step.op) && (own ==> Apart(step, m)) && m.Keys == m'.Keys
    ensures AggregateVec(lib, m, step) == AggregateVec(lib, m', step)
  {
    SameMembers(step, m, m');
    forall g | g in Groups(m, step)
      ensures Members(m, step, g) != {}
      ensures Aggregate(lib, step.op, m, Members(m, step, g)) == Aggregate(lib, step.op, m', Members(m, step, g))
    {
      GroupHasMembers(m, step, g);
      ValuesIgnoredInGroup(lib, own, step, m, m', g, Members(m, step, g));
    }
    hide Aggregate;
    hide Members;
    hide Groups;
  }

  lemma ValuesIgnoredInGroup(lib: Lib, own: bool, step: AggStep, m: Vec, m': Vec, g: Labels, s: set<Labels>)
    requires IgnoresValues(own, step.op) && (own ==> Apart(step, m)) && m.Keys == m'.Keys
    requires g in Groups(m, step) && s == Members(m, step, g) && s != {}
    ensures Aggregate(lib, step.op, m, s) == Aggregate(lib, step.op, m', s)
  {
    assert forall l :: l in m' <==> l in m'.Keys;
    if step.op != Count && step.op != Group {
      OwnGroups(step, m, g);
      var l :| l in m && s == {l};
      AggregateOfOne(lib, step.op, m, l);
      AggregateOfOne(lib, step.op, m', l);
    }
  }

  /** The function reports the same with either parameter, in every window of the range. */
  ghost predicate SameResults(f: Function, p: real, q: real, rangeMs: int) {
    forall lib, s, u :: Increasing(s) ==> SameResultAt(lib, f, p, q, rangeMs, s, u)
  }

  ghost predicate SameResultAt(lib: Lib, f: Function, p: real, q: real, rangeMs: int, s: seq<Sample>, u: int)
    requires Increasing(s)
  {
    var w := RangeWindow(s, u - rangeMs, u);
    WindowResult(lib, f, w, u, p) == WindowResult(lib, f, w, u, q)
  }

  /** It reports something with the one parameter wherever it does with the other. */
  ghost predicate SamePresence(f: Function, p: real, q: real, rangeMs: int) {
    forall lib, s, u :: Increasing(s) ==> SamePresenceAt(lib, f, p, q, rangeMs, s, u)
  }

  ghost predicate SamePresenceAt(lib: Lib, f: Function, p: real, q: real, rangeMs: int, s: seq<Sample>, u: int)
    requires Increasing(s)
  {
    var w := RangeWindow(s, u - rangeMs, u);
    WindowResult(lib, f, w, u, p).Some? <==> WindowResult(lib, f, w, u, q).Some?
  }

  lemma SameSeries(lib: Lib, f: Function, sel: Selector, rangeMs: int, p: real, q: real, s: seq<Sample>, t: int, st: int)
    requires Increasing(s)
    ensures SameResults(f, p, q, rangeMs) ==>
              ComputeValue(lib, RangedCore(f, sel, rangeMs, p), s, t, st) == ComputeValue(lib, RangedCore(f, sel, rangeMs, q), s, t, st)
    ensures SamePresence(f, p, q, rangeMs) ==>
              (ComputeValue(lib, RangedCore(f, sel, rangeMs, p), s, t, st).Some?
               <==> ComputeValue(lib, RangedCore(f, sel, rangeMs, q), s, t, st).Some?)
  {
    hide ComputeValue;
    hide WindowResult;
    hide RangeWindow;
    var u := t - sel.offsetMs;
    ValueOfWindow(lib, f, sel, rangeMs, p, s, t, st, u);
    ValueOfWindow(lib, f, sel, rangeMs, q, s, t, st, u);
    assert SameResults(f, p, q, rangeMs) ==> SameResultAt(lib, f, p, q, rangeMs, s, u);
    assert SamePresence(f, p, q, rangeMs) ==> SamePresenceAt(lib, f, p, q, rangeMs, s, u);
  }

  lemma SameDbVec(lib: Lib, f: Function, sel: Selector, rangeMs: int, p: real, q: real, db: Db, t: int, st: int)
    requires ValidDb(db)
    ensures var v, w := InstantVec(lib, RangedCore(f, sel, rangeMs, p), db, t, st), InstantVec(lib, RangedCore(f, sel, rangeMs, q), db, t, st);
            (SameResults(f, p, q, rangeMs) ==> v == w) && (SamePresence(f, p, q, rangeMs) ==> v.Keys == w.Keys)
  {
    hide ComputeValue;
    hide SameResults;
    hide SamePresence;
    hide RangedCore;
    forall l | l in db
      ensures SameResults(f, p, q, rangeMs) ==>
                ComputeValue(lib, RangedCore(f, sel, rangeMs, p), db[l], t, st)
                == ComputeValue(lib, RangedCore(f, sel, rangeMs, q), db[l], t, st)
      ensures SamePresence(f, p, q, rangeMs) ==>
                (ComputeValue(lib, RangedCore(f, sel, rangeMs, p), db[l], t, st).Some?
                 <==> ComputeValue(lib, RangedCore(f, sel, rangeMs, q), db[l], t, st).Some?)
    {
      SameSeries(lib, f, sel, rangeMs, p, q, db[l], t, st);
    }
  }

  lemma SameVec(env: Env, f: Function, sel: Selector, rangeMs: int, p: real, q: real, t: int)
    requires ValidEnv(env)
    ensures SameResults(f, p, q, rangeMs) ==> RangedVec(env, f, sel, rangeMs, p, t) == RangedVec(env, f, sel, rangeMs, q, t)
    ensures SamePresence(f, p, q, rangeMs) ==>
              RangedVec(env, f, sel, rangeMs, p, t).Keys == RangedVec(env, f, sel, rangeMs, q, t).Keys
  {
    hide Selected;
    hide InstantVec;
    hide SameResults;
    hide SamePresence;
    SameDbVec(env.lib, f, sel, rangeMs, p, q, Selected(env, sel), t, env.config.stalenessMs);
  }

  /** A selector that names its metric means what it is compiled to. */
  lemma NamedVec(env: Env, f: Function, sel: Selector, rangeMs: int, p: real, t: int)
    requires ValidEnv(env) && NamesItsMetric(sel) && ReadsAlike(env, sel)
    ensures RangedVec(env, f, Named(sel), rangeMs, p, t) == RangedVec(env, f, sel, rangeMs, p, t)
  {
    NamedMeaning(sel);
    NamedReadsAlike(env, sel);
    CompiledMeans(env, sel);
    CompiledMeans(env, Named(sel));
    hide Selected;
    hide Compiled;
    hide InstantVec;
    assert Selected(env, Named(sel)) == Selected(env, sel) by {
      assert Compiled(env, Named(sel)) == Compiled(env, sel) by {
        CompiledAlike(env, sel);
      }
    }
  }

  lemma CompiledAlike(env: Env, sel: Selector)
    ensures Compiled(env, Named(sel)) == Compiled(env, sel)
  {
    NamedMeaning(sel);
    hide Rows;
  }

  lemma RangedFits(env: Env, f: Function, sel: Selector, rangeMs: int, p: real, t: int)
    requires ValidEnv(env)
    ensures AllFit(sel, RangedVec(env, f, sel, rangeMs, p, t))
    ensures Contradictory(sel) ==> RangedVec(env, f, sel, rangeMs, p, t) == map[]
  {
    SelectedFits(env, sel);
    if Contradictory(sel) {
      NothingPasses(env, sel);
    }
    hide Selected;
    hide Fits;
    hide ComputeValue;
  }

  /** The plan is right where the parameter changes no result, or only values that the
      aggregation ignores. */
  lemma RightWhereAlike(step: AggStep, f: Function, sel: Selector, rangeMs: int, p: real)
    requires NamesItsMetric(sel)
    requires SameResults(f, p, 0.0, rangeMs) || (IgnoresValues(OwnGroup(step, sel), step.op) && SamePresence(f, p, 0.0, rangeMs))
    ensures AlwaysCorrect(RangedUnder(step, f, sel, rangeMs, p))
  {
    hide SameResults;
    hide SamePresence;
    hide IgnoresValues;
    hide RangedVec;
    hide AggregateVec;
    hide OwnGroup;
    hide Fits;
    forall env, t | ValidEnv(env) && ReadsAlike(env, sel) ensures SameAggregate(env, step, f, sel, rangeMs, p, t) {
      NamedVec(env, f, sel, rangeMs, 0.0, t);
      SameVec(env, f, sel, rangeMs, p, 0.0, t);
      if !SameResults(f, p, 0.0, rangeMs) {
        RangedFits(env, f, sel, rangeMs, p, t);
        if OwnGroup(step, sel) {
          FittingApart(step, sel, RangedVec(env, f, sel, rangeMs, p, t));
        }
        ValuesIgnored(env.lib, OwnGroup(step, sel), step,
                      RangedVec(env, f, sel, rangeMs, p, t), RangedVec(env, f, sel, rangeMs, 0.0, t));
      }
    }
    RightWhereSame(step, f, sel, rangeMs, p);
  }

  /** The function reports nothing in any window of the range. */
  ghost predicate Silent(f: Function, p: real, rangeMs: int) {
    forall lib, s, u :: Increasing(s) ==> SilentAt(lib, f, p, rangeMs, s, u)
  }

  ghost predicate SilentAt(lib: Lib, f: Function, p: real, rangeMs: int, s: seq<Sample>, u: int)
    requires Increasing(s)
  {
    WindowResult(lib, f, RangeWindow(s, u - rangeMs, u), u, p) == None
  }

  lemma SilentVec(env: Env, f: Function, sel: Selector, rangeMs: int, p: real, t: int)
    requires ValidEnv(env) && Silent(f, p, rangeMs)
    ensures RangedVec(env, f, sel, rangeMs, p, t) == map[]
  {
    var db, st := Selected(env, sel), env.config.stalenessMs;
    hide ComputeValue;
    hide Selected;
    hide WindowResult;
    hide RangeWindow;
    hide RangedCore;
    forall l | l in db ensures ComputeValue(env.lib, RangedCore(f, sel, rangeMs, p), db[l], t, st) == None {
      var u := t - sel.offsetMs;
      ValueOfWindow(env.lib, f, sel, rangeMs, p, db[l], t, st, u);
      assert SilentAt(env.lib, f, p, rangeMs, db[l], u);
    }
  }

  /** The plan is right where neither it nor the expression reports anything. */
  lemma RightWhereNothing(step: AggStep, f: Function, sel: Selector, rangeMs: int, p: real)
    requires Contradictory(sel) || (Silent(f, 0.0, rangeMs) && (NoName(sel) || Silent(f, p, rangeMs)))
    ensures AlwaysCorrect(RangedUnder(step, f, sel, rangeMs, p))
  {
    hide Silent;
    hide RangedVec;
    hide AggregateVec;
    hide Contradictory;
    hide NoName;
    hide Named;
    hide Fits;
    forall env, t | ValidEnv(env) && ReadsAlike(env, sel) ensures SameAggregate(env, step, f, sel, rangeMs, p, t) {
      if Contradictory(sel) {
        NamedContradictory(sel);
        RangedFits(env, f, sel, rangeMs, p, t);
        RangedFits(env, f, Named(sel), rangeMs, 0.0, t);
      } else {
        SilentVec(env, f, Named(sel), rangeMs, 0.0, t);
        if NoName(sel) {
          NamelessVec(env, f, sel, rangeMs, p, t);
        } else {
          SilentVec(env, f, sel, rangeMs, p, t);
        }
      }
    }
    RightWhereSame(step, f, sel, rangeMs, p);
  }

  lemma NamelessVec(env: Env, f: Function, sel: Selector, rangeMs: int, p: real, t: int)
    requires ValidEnv(env) && NoName(sel)
    ensures RangedVec(env, f, sel, rangeMs, p, t) == map[]
  {
    forall x ensures !AcceptsName(env.matches, sel, x) {
      NoNameAccepted(sel, env.matches, x);
    }
    hide AcceptsName;
    hide ComputeValue;
    assert Selected(env, sel) == map[];
  }

  // ---- Rows of two samples ----

  /** Two samples one millisecond apart, the later at the time a query at zero looks at. */
  function Line(offset: int, v: (real, real)): seq<Sample> {
    [Sample(-offset - 1, v.0, false), Sample(-offset, v.1, false)]
  }

  /** The part of them in a window of the given range. */
  function LineWindow(offset: int, rangeMs: int, v: (real, real)): seq<Sample> {
    if rangeMs >= 2 then Line(offset, v) else if rangeMs == 1 then Line(offset, v)[1..] else []
  }

  lemma LineInWindow(offset: int, rangeMs: int, v: (real, real))
    ensures Increasing(Line(offset, v)) && Increasing(LineWindow(offset, rangeMs, v))
    ensures RangeWindow(Line(offset, v), -offset - rangeMs, -offset) == LineWindow(offset, rangeMs, v)
  {
    var s := Line(offset, v);
    var lo := if rangeMs >= 2 then 0 else if rangeMs == 1 then 1 else 2;
    Staleness.BetweenSlice(s, lo, 2, -offset - rangeMs, -offset);
    assert s[0..2] == s && s[2..2] == [] && s[1..2] == s[1..];
    hide Staleness.Between;
  }

  function LineResult(lib: Lib, f: Function, offset: int, rangeMs: int, p: real, v: (real, real)): Option<real> {
    LineInWindow(offset, rangeMs, v);
    WindowResult(lib, f, LineWindow(offset, rangeMs, v), -offset, p)
  }

  type Pairs = map<Labels, (real, real)>

  function LineDb(offset: int, rows: Pairs): Db {
    map l | l in rows :: Line(offset, rows[l])
  }

  function LineVec(lib: Lib, f: Function, offset: int, rangeMs: int, p: real, rows: Pairs): Vec {
    map l | l in rows && LineResult(lib, f, offset, rangeMs, p, rows[l]).Some? ::
      LineResult(lib, f, offset, rangeMs, p, rows[l]).value
  }

  ghost predicate CleanPairs(rows: Pairs) {
    forall l :: l in rows ==> LabelKeys.Clean(l)
  }

  lemma LineValue(lib: Lib, f: Function, sel: Selector, rangeMs: int, p: real, v: (real, real))
    ensures Increasing(Line(sel.offsetMs, v))
    ensures ComputeValue(lib, RangedCore(f, sel, rangeMs, p), Line(sel.offsetMs, v), 0, STALENESS)
         == LineResult(lib, f, sel.offsetMs, rangeMs, p, v)
  {
    LineInWindow(sel.offsetMs, rangeMs, v);
    hide ComputeValue;
    hide WindowResult;
    hide RangeWindow;
    hide Line;
    hide LineWindow;
    ValueOfWindow(lib, f, sel, rangeMs, p, Line(sel.offsetMs, v), 0, STALENESS, -sel.offsetMs);
  }

  ghost predicate PairsFit(sel: Selector, rows: Pairs) {
    forall l :: l in rows ==> Fits(sel, l)
  }

  lemma LinesSelected(lib: Lib, f: Function, sel: Selector, rangeMs: int, p: real, rows: Pairs)
    requires PairsFit(sel, rows)
    ensures RowsFit(sel, LineDb(sel.offsetMs, rows))
    ensures InstantVec(lib, RangedCore(f, sel, rangeMs, p), LineDb(sel.offsetMs, rows), 0, STALENESS)
         == LineVec(lib, f, sel.offsetMs, rangeMs, p, rows)
  {
    hide ComputeValue;
    hide LineResult;
    hide Line;
    hide Increasing;
    hide LabelKeys.Clean;
    hide RangedCore;
    forall v
      ensures Increasing(Line(sel.offsetMs, v))
      ensures ComputeValue(lib, RangedCore(f, sel, rangeMs, p), Line(sel.offsetMs, v), 0, STALENESS)
           == LineResult(lib, f, sel.offsetMs, rangeMs, p, v)
    {
      LineValue(lib, f, sel, rangeMs, p, v);
    }
  }

  lemma RangedInEnv(lib: Lib, f: Function, sel: Selector, rangeMs: int, p: real, rows: Pairs, metric: string, engine: Engine)
    requires PairsFit(sel, rows) && SeesLabels(engine)
    ensures var env := EnvOf(lib, LineDb(sel.offsetMs, rows), metric, engine);
            && ValidEnv(env) && StepsInQuery(env, [0]) && env.lib == lib && ReadsAlike(env, sel)
            && RangedVec(env, f, sel, rangeMs, p, 0)
               == if AcceptsName(engine, sel, metric) then LineVec(lib, f, sel.offsetMs, rangeMs, p, rows) else map[]
  {
    var db := LineDb(sel.offsetMs, rows);
    LinesSelected(lib, f, sel, rangeMs, p, rows);
    EnvOfRows(lib, db, metric, engine, sel);
    hide *;
    EnvIs(lib, db, metric, engine);
    RangedThere(EnvOf(lib, db, metric, engine), f, sel, rangeMs, p);
  }

  lemma RangedThere(env: Env, f: Function, sel: Selector, rangeMs: int, p: real)
    requires ValidEnv(env) && env.config.stalenessMs == STALENESS
    ensures RangedVec(env, f, sel, rangeMs, p, 0) == InstantVec(env.lib, RangedCore(f, sel, rangeMs, p), Selected(env, sel), 0, STALENESS)
    ensures Selected(env, sel) == map[] ==> RangedVec(env, f, sel, rangeMs, p, 0) == map[]
  {
    hide ComputeValue;
    hide Selected;
  }

  lemma NamedPairsFit(sel: Selector, rows: Pairs)
    requires PairsFit(sel, rows)
    ensures PairsFit(Named(sel), rows)
  {
    forall l | l in rows ensures Fits(Named(sel), l) {
      NamedFits(sel, l);
    }
  }

  /** Rows on which the aggregate of what the expression means is not that of what the plan
      computes. */
  lemma LinesWrong(lib: Lib, step: AggStep, f: Function, sel: Selector, rangeMs: int, p: real, rows: Pairs,
                   metric: string, engine: Engine)
    requires RegularLib(lib) && PairsFit(sel, rows) && SeesLabels(engine)
    requires var meant := if AcceptsName(engine, sel, metric) then LineVec(lib, f, sel.offsetMs, rangeMs, p, rows) else map[];
             var found := if metric == MetricName(sel.name, sel.matchers)
                          then LineVec(lib, f, sel.offsetMs, rangeMs, 0.0, rows) else map[];
             AggregateVec(lib, meant, step) != AggregateVec(lib, found, step)
    ensures !AlwaysCorrect(RangedUnder(step, f, sel, rangeMs, p))
  {
    var env := EnvOf(lib, LineDb(sel.offsetMs, rows), metric, engine);
    assert Named(sel).offsetMs == sel.offsetMs;
    SeesIsSound(engine);
    hide *;
    NamedPairsFit(sel, rows);
    NamedMeaning(sel);
    NamedAccepts(Named(sel), engine);
    RangedInEnv(lib, f, sel, rangeMs, p, rows, metric, engine);
    RangedInEnv(lib, f, Named(sel), rangeMs, 0.0, rows, metric, engine);
    SameAggregateMeans(env, step, f, sel, rangeMs, p, 0);
    WrongWhereDifferent(env, step, f, sel, rangeMs, p);
  }

  lemma SeesIsSound(engine: Engine)
    requires SeesLabels(engine)
    ensures SoundEngine(engine)
  {
  }

  /** The same for a selector that names its metric. */
  lemma NamedLinesWrong(lib: Lib, step: AggStep, f: Function, sel: Selector, rangeMs: int, p: real, rows: Pairs)
    requires RegularLib(lib) && PairsFit(sel, rows) && NamesItsMetric(sel)
    requires AggregateVec(lib, LineVec(lib, f, sel.offsetMs, rangeMs, p, rows), step)
          != AggregateVec(lib, LineVec(lib, f, sel.offsetMs, rangeMs, 0.0, rows), step)
    ensures !AlwaysCorrect(RangedUnder(step, f, sel, rangeMs, p))
  {
    hide *;
    EnginesSee();
    NamedAcceptsOne(sel);
    LinesWrong(lib, step, f, sel, rangeMs, p, rows, MetricName(sel.name, sel.matchers), LabelsOnly());
  }

  lemma SomethingAggregated(lib: Lib, step: AggStep, m: Vec, l: Labels)
    requires m.Keys == {l}
    ensures AggregateVec(lib, m, step) != map[] == AggregateVec(lib, map[], step)
  {
    AggregateNothing(lib, step);
    GroupOfOne(lib, step, m, l);
    hide AggregateVec;
    hide Aggregate;
    assert LabelKeys.GroupLabels(l, step.grouping, step.without) in AggregateVec(lib, m, step);
  }

  /** One row that both parameters report makes the plan wrong for a selector that does not
      name its metric. */
  lemma NameMatters(lib: Lib, step: AggStep, f: Function, sel: Selector, rangeMs: int, p: real, v: (real, real))
    requires RegularLib(lib) && !Contradictory(sel) && !NamesItsMetric(sel)
    requires LineResult(lib, f, sel.offsetMs, rangeMs, p, v).Some? && LineResult(lib, f, sel.offsetMs, rangeMs, 0.0, v).Some?
    ensures !AlwaysCorrect(RangedUnder(step, f, sel, rangeMs, p))
  {
    var o, l := sel.offsetMs, Base(sel);
    var metric := Misnamed(sel);
    var rows: Pairs := map[l := v];
    BaseFits(sel);
    hide LineResult;
    hide RegularLib;
    hide Fits;
    assert PairsFit(sel, rows);
    OneLine(lib, f, o, rangeMs, p, l, v);
    OneLine(lib, f, o, rangeMs, 0.0, l, v);
    hide LineVec;
    SomethingAggregated(lib, step, LineVec(lib, f, o, rangeMs, p, rows), l);
    SomethingAggregated(lib, step, LineVec(lib, f, o, rangeMs, 0.0, rows), l);
    hide AggregateVec;
    EnginesSee();
    hide *;
    LinesWrong(lib, step, f, sel, rangeMs, p, rows, metric, LabelsOnly());
  }

  /** One row that the plan no longer reports makes it wrong. */
  lemma SilenceMatters(lib: Lib, step: AggStep, f: Function, sel: Selector, rangeMs: int, p: real, v: (real, real))
    requires RegularLib(lib) && !Contradictory(sel) && !NoName(sel)
    requires LineResult(lib, f, sel.offsetMs, rangeMs, p, v).Some? && LineResult(lib, f, sel.offsetMs, rangeMs, 0.0, v).None?
    ensures !AlwaysCorrect(RangedUnder(step, f, sel, rangeMs, p))
  {
    var o, l := sel.offsetMs, Base(sel);
    var metric := SomeName(sel);
    var rows: Pairs := map[l := v];
    BaseFits(sel);
    hide LineResult;
    hide RegularLib;
    hide Fits;
    assert PairsFit(sel, rows);
    OneLine(lib, f, o, rangeMs, p, l, v);
    assert LineVec(lib, f, o, rangeMs, 0.0, rows) == map[];
    hide LineVec;
    SomethingAggregated(lib, step, LineVec(lib, f, o, rangeMs, p, rows), l);
    EnginesSee();
    hide *;
    LinesWrong(lib, step, f, sel, rangeMs, p, rows, metric, Seeing());
  }

  // ---- How an aggregation tells values apart ----

  lemma LevelsDiffer(lib: Lib, step: AggStep, m: Vec, m': Vec, l: Labels)
    requires step.op.Sum? || step.op.Avg? || step.op.Min? || step.op.Max?
    requires m.Keys == {l} == m'.Keys && l in m && l in m' && m[l] != m'[l]
    ensures AggregateVec(lib, m, step) != AggregateVec(lib, m', step)
  {
    GroupOfOne(lib, step, m, l);
    GroupOfOne(lib, step, m', l);
    AggregateOfOne(lib, step.op, m, l);
    AggregateOfOne(lib, step.op, m', l);
    hide AggregateVec;
    hide Aggregate;
    var g := LabelKeys.GroupLabels(l, step.grouping, step.without);
    assert AggregateVec(lib, m, step)[g] != AggregateVec(lib, m', step)[g];
  }

  lemma PairSpread(lib: Lib, op: AggOp, x: real, y: real)
    requires (op.Stddev? || op.Stdvar?) && lib.sqrt == (x => x)
    ensures PairAggregate(lib, op, x, y) == 0.0 <==> x == y
  {
    Reals.SquareSign(x - y);
    assert x == y ==> Reals.Square(x - y) == 0.0;
  }

  lemma SpreadsDiffer(lib: Lib, step: AggStep, m: Vec, m': Vec, k: Labels, l: Labels)
    requires step.op.Stddev? || step.op.Stdvar?
    requires SameGroup(step, k, l) && m.Keys == {k, l} == m'.Keys && lib.sqrt == (x => x)
    requires k in m && l in m && k in m' && l in m'
    requires (m[k] == m[l]) != (m'[k] == m'[l])
    ensures AggregateVec(lib, m, step) != AggregateVec(lib, m', step)
  {
    hide AggregateVec;
    hide Aggregate;
    hide PairAggregate;
    PairSpread(lib, step.op, m[k], m[l]);
    PairSpread(lib, step.op, m'[k], m'[l]);
    GroupOfTwo(lib, step, m, k, l);
    GroupOfTwo(lib, step, m', k, l);
    AggregateOfTwo(lib, step.op, m, k, l);
    AggregateOfTwo(lib, step.op, m', k, l);
    hide SameGroup;
    var g := LabelKeys.GroupLabels(k, step.grouping, step.without);
    assert AggregateVec(lib, m, step)[g] != AggregateVec(lib, m', step)[g];
  }

  lemma OneLine(lib: Lib, f: Function, offset: int, rangeMs: int, p: real, l: Labels, v: (real, real))
    requires LineResult(lib, f, offset, rangeMs, p, v).Some?
    ensures LineVec(lib, f, offset, rangeMs, p, map[l := v]) == map[l := LineResult(lib, f, offset, rangeMs, p, v).value]
  {
    hide LineResult;
  }

  lemma TwoLines(lib: Lib, f: Function, offset: int, rangeMs: int, p: real, k: Labels, l: Labels, v: (real, real), w: (real, real))
    requires k != l
    requires LineResult(lib, f, offset, rangeMs, p, v).Some? && LineResult(lib, f, offset, rangeMs, p, w).Some?
    ensures LineVec(lib, f, offset, rangeMs, p, map[k := v, l := w])
         == map[k := LineResult(lib, f, offset, rangeMs, p, v).value, l := LineResult(lib, f, offset, rangeMs, p, w).value]
  {
    hide LineResult;
  }

  /** One row whose value changes with the parameter, and another whose difference from it
      does, make the plan wrong for every aggregation that looks at values. */
  lemma ValuesMatter(lib: Lib, step: AggStep, f: Function, sel: Selector, rangeMs: int, p: real, v: (real, real), w: (real, real))
    requires RegularLib(lib) && lib.sqrt == (x => x) && !Contradictory(sel) && NamesItsMetric(sel)
    requires !IgnoresValues(OwnGroup(step, sel), step.op)
    requires LineResult(lib, f, sel.offsetMs, rangeMs, p, v).Some? && LineResult(lib, f, sel.offsetMs, rangeMs, p, w).Some?
    requires LineResult(lib, f, sel.offsetMs, rangeMs, 0.0, v).Some? && LineResult(lib, f, sel.offsetMs, rangeMs, 0.0, w).Some?
    requires var o := sel.offsetMs;
             && LineResult(lib, f, o, rangeMs, p, v) != LineResult(lib, f, o, rangeMs, 0.0, v)
             && (LineResult(lib, f, o, rangeMs, p, v) == LineResult(lib, f, o, rangeMs, p, w))
                != (LineResult(lib, f, o, rangeMs, 0.0, v) == LineResult(lib, f, o, rangeMs, 0.0, w))
    ensures !AlwaysCorrect(RangedUnder(step, f, sel, rangeMs, p))
  {
    var o := sel.offsetMs;
    hide LineResult;
    hide RegularLib;
    hide AggregateVec;
    hide Fits;
    hide NamesItsMetric;
    if step.op.Stddev? || step.op.Stdvar? {
      var k, l := TwoSeries(step, sel);
      var rows: Pairs := map[k := v, l := w];
      assert k != l && PairsFit(sel, rows);
      TwoLines(lib, f, o, rangeMs, p, k, l, v, w);
      TwoLines(lib, f, o, rangeMs, 0.0, k, l, v, w);
      hide LineVec;
      SpreadsDiffer(lib, step, LineVec(lib, f, o, rangeMs, p, rows), LineVec(lib, f, o, rangeMs, 0.0, rows), k, l);
      NamedLinesWrong(lib, step, f, sel, rangeMs, p, rows);
    } else {
      var l := Base(sel);
      BaseFits(sel);
      var rows: Pairs := map[l := v];
      assert PairsFit(sel, rows);
      OneLine(lib, f, o, rangeMs, p, l, v);
      OneLine(lib, f, o, rangeMs, 0.0, l, v);
      hide LineVec;
      LevelsDiffer(lib, step, LineVec(lib, f, o, rangeMs, p, rows), LineVec(lib, f, o, rangeMs, 0.0, rows), l);
      NamedLinesWrong(lib, step, f, sel, rangeMs, p, rows);
    }
  }
}

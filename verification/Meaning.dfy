/** What an expression means at one time, operator by operator, and how the flat plan that
    the translator makes of it relates to that meaning. */
module Meaning {
  import opened Types
  import opened Columns
  import opened Plans
  import Aggregation
  import Calls
  import opened RangeFunctions
  import opened InstantEval
  import BinaryVectors
  import BinaryEval
  import opened FetchWindow
  import opened Translator
  import opened PlanEval
  import opened Selectors
  import Staleness

  // ---- Meaning, bottom up ----

  function InstantCore(sel: Selector): EvalPlan {
    EvalPlan("", 0.0, 0.0, 0, sel.offsetMs, [], [])
  }

  function RangeCore(fn: string, call: (Expr, real, real)): EvalPlan
    requires call.0.MatrixSelector?
  {
    EvalPlan(fn, call.1, call.2, call.0.rangeMs, call.0.sel.offsetMs, [], [])
  }

  /** The number that an expression is written as. */
  function LiteralOf(e: Expr): Option<real> {
    match e
    case NumberLiteral(val) => Some(val)
    case ParenExpr(inner) => LiteralOf(inner)
    case Call(fn, args) => if fn == "pi" && args == [] then Some(PI) else None
    case _ => None
  }

  ghost function NegatedVec(v: Vec): Vec {
    map l | l in v :: 0.0 - v[l]
  }

  ghost function BinaryMeaning(lib: Lib, op: string, returnBool: bool, mt: BinaryVectors.Matching, l: Option<Vec>, r: Option<Vec>): Option<Vec> {
    if l.Some? && r.Some? then BinaryVectors.BinaryVec(lib, op, returnBool, mt, l.value, r.value) else None
  }

  ghost function ScalarMeaning(lib: Lib, op: string, returnBool: bool, onLeft: bool, scalar: real, v: Option<Vec>): Option<Vec> {
    match v
    case Some(vec) => Some(BinaryEval.ScalarVec(x => BinaryEval.WithScalar(lib, op, returnBool, onLeft, scalar, x), vec))
    case None => None
  }

  /** The vector that an expression means at time `t`, over the whole history; None for an
      ambiguous match and for what is no vector expression. */
  ghost function Denote(env: Env, e: Expr, t: int): Option<Vec>
    requires ValidEnv(env)
    decreases e
  {
    match e
    case VectorSelector(sel) =>
      Some(InstantVec(env.lib, InstantCore(sel), Selected(env, sel), t, env.config.stalenessMs))
    case MatrixSelector(_, _) => None
    case Call(fn, args) =>
      if Calls.ReadRange(fn, args).Some? then
        var r := Calls.ReadRange(fn, args).value;
        Some(InstantVec(env.lib, EvalPlan(fn, r.first, r.second, r.rangeMs, r.sel.offsetMs, [], []),
                        Selected(env, r.sel), t, env.config.stalenessMs))
      else if Calls.IsPointwise(fn, args) then
        match Denote(env, args[0], t)
        case Some(v) => Some(map l | l in v :: Calls.PointwiseValue(env.lib, fn, args, v[l]))
        case None => None
      else None
    case AggregateExpr(step, inner) =>
      (match Denote(env, inner, t)
       case Some(v) => Some(Aggregation.AggregateVec(env.lib, v, step))
       case None => None)
    case BinaryExpr(op, returnBool, mt, lhs, rhs) =>
      if LiteralOf(rhs).Some? then
        ScalarMeaning(env.lib, op, returnBool, false, LiteralOf(rhs).value, Denote(env, lhs, t))
      else if LiteralOf(lhs).Some? then
        ScalarMeaning(env.lib, op, returnBool, true, LiteralOf(lhs).value, Denote(env, rhs, t))
      else BinaryMeaning(env.lib, op, returnBool, mt, Denote(env, lhs, t), Denote(env, rhs, t))
    case UnaryExpr(negate, inner) =>
      (match Denote(env, inner, t)
       case Some(v) => Some(if negate then NegatedVec(v) else v)
       case None => None)
    case ParenExpr(inner) => Denote(env, inner, t)
    case NumberLiteral(_) => None
    case SubqueryExpr(_) => None
  }

  /** The translator's reading of a call leads to what the call means. */
  lemma CallMeaning(env: Env, fn: string, args: seq<Expr>, t: int)
    requires ValidEnv(env)
    ensures RangeCallOf(fn, args).Some? ==>
              var call := RangeCallOf(fn, args).value;
              Denote(env, Call(fn, args), t)
              == Some(InstantVec(env.lib, RangeCore(fn, call), Selected(env, call.0.sel), t, env.config.stalenessMs))
    ensures RangeCallOf(fn, args).None? && MathStepOf(fn, args).Some? ==>
              Denote(env, Call(fn, args), t)
              == match Denote(env, args[0], t)
                 case Some(v) => Some(MathVec(VectorMath(env.lib), [MathStepOf(fn, args).value], v))
                 case None => None
    ensures RangeCallOf(fn, args).None? && MathStepOf(fn, args).None? ==> Denote(env, Call(fn, args), t) == None
  {
    Calls.RangeReadingsAgree(fn, args);
    Calls.PointwiseReadingsAgree(fn, args);
    hide ValidEnv;
    hide RangeCallOf;
    hide Calls.ReadRange;
    hide InstantVec;
    hide Selected;
    if RangeCallOf(fn, args).None? && MathStepOf(fn, args).Some? && Denote(env, args[0], t).Some? {
      PointwiseVec(env.lib, fn, args, Denote(env, args[0], t).value);
    }
    hide MathStepOf;
    hide Calls.IsPointwise;
    hide MathVec;
  }

  lemma PointwiseVec(lib: Lib, fn: string, args: seq<Expr>, v: Vec)
    requires MathStepOf(fn, args).Some?
    ensures Calls.IsPointwise(fn, args)
    ensures MathVec(VectorMath(lib), [MathStepOf(fn, args).value], v) == map l | l in v :: Calls.PointwiseValue(lib, fn, args, v[l])
  {
    Calls.PointwiseReadingsAgree(fn, args);
    hide MathStepOf;
    hide Calls.IsPointwise;
    var s := MathStepOf(fn, args).value;
    forall x ensures Chain(VectorMath(lib), [s], x) == Calls.PointwiseValue(lib, fn, args, x) {
      Calls.PointwiseValuesAgree(lib, fn, args, x);
      assert [s][..0] == [];
      assert Chain(VectorMath(lib), [], x) == x;
    }
    hide Calls.PointwiseValue;
    hide Chain;
  }

  // ---- The expressions that a flat plan can express ----

  /** The parameter of the range function at the core. */
  function Param(e: Expr): real {
    match e
    case Call(fn, args) => if RangeCallOf(fn, args).Some? then RangeCallOf(fn, args).value.1 else 0.0
    case ParenExpr(inner) => Param(inner)
    case _ => 0.0
  }

  /** A range function of a selector that names its metric. */
  ghost predicate IsRangeCall(fn: string, args: seq<Expr>) {
    RangeCallOf(fn, args).Some? && NamesItsMetric(RangeCallOf(fn, args).value.0.sel)
  }

  /** Aggregations around one selector or range function; a parameter of that function
      does not survive an aggregation. */
  ghost predicate Spine(e: Expr) {
    match e
    case VectorSelector(sel) => NamesItsMetric(sel)
    case Call(fn, args) => IsRangeCall(fn, args)
    case AggregateExpr(_, inner) => Spine(inner) && Param(inner) == 0.0
    case ParenExpr(inner) => Spine(inner)
    case _ => false
  }

  ghost predicate Negated(e: Expr) {
    match e
    case UnaryExpr(negate, inner) => negate || Negated(inner)
    case ParenExpr(inner) => Negated(inner)
    case _ => false
  }

  /** A call of a pointwise function that range queries evaluate. */
  ghost predicate IsMath(fn: string, args: seq<Expr>) {
    RangeCallOf(fn, args).None? && LiteralCall(fn, args).None? && MathStepOf(fn, args).Some? && fn !in TRIG
  }

  /** Pointwise math, number operands and binary operators around spines. */
  ghost predicate NormalForm(e: Expr)
    decreases e
  {
    match e
    case Call(fn, args) =>
      IsRangeCall(fn, args) || (IsMath(fn, args) && NormalForm(args[0]) && !Negated(args[0]))
    case BinaryExpr(_, _, _, lhs, rhs) =>
      && (LiteralOf(lhs).Some? || NormalForm(lhs))
      && (LiteralOf(rhs).Some? || NormalForm(rhs))
      && (LiteralOf(lhs).None? || LiteralOf(rhs).None?)
    case UnaryExpr(_, inner) => NormalForm(inner)
    case ParenExpr(inner) => NormalForm(inner)
    case _ => Spine(e)
  }

  // ---- Conditions on the data ----

  /** Over the whole query the expression yields one series, and it has no labels. */
  ghost predicate ScalarLooking(env: Env, e: Expr, steps: seq<int>)
    requires ValidEnv(env)
  {
    && (forall t :: t in steps ==> Denote(env, e, t).Some? && Denote(env, e, t).value.Keys <= {map[]})
    && (exists t :: t in steps && Denote(env, e, t).value != map[])
  }

  /** No operand of a binary operator or of a negation happens to look like a scalar. */
  ghost predicate VectorOperands(env: Env, e: Expr, steps: seq<int>)
    requires ValidEnv(env)
    decreases e
  {
    match e
    case Call(fn, args) => IsMath(fn, args) ==> VectorOperands(env, args[0], steps)
    case AggregateExpr(_, inner) => VectorOperands(env, inner, steps)
    case BinaryExpr(_, _, _, lhs, rhs) =>
      && VectorOperands(env, lhs, steps) && VectorOperands(env, rhs, steps)
      && (LiteralOf(lhs).None? && LiteralOf(rhs).None? ==> !ScalarLooking(env, lhs, steps) && !ScalarLooking(env, rhs, steps))
    case UnaryExpr(negate, inner) =>
      VectorOperands(env, inner, steps) && (negate ==> !ScalarLooking(env, inner, steps))
    case ParenExpr(inner) => VectorOperands(env, inner, steps)
    case _ => true
  }

  /** The database reads all label matchers as they are meant, and no instant selector loses
      a sample at the exclusive start of its fetch. */
  ghost predicate FetchFaithful(env: Env, e: Expr)
    requires ValidEnv(env)
    decreases e
  {
    match e
    case VectorSelector(sel) =>
      && ReadsAlike(env, sel)
      && forall l :: l in Selected(env, sel) ==>
           !LostAtBoundary(Selected(env, sel)[l], env.config.startMs, sel.offsetMs, env.config.stalenessMs)
    case Call(fn, args) =>
      if RangeCallOf(fn, args).Some? then ReadsAlike(env, RangeCallOf(fn, args).value.0.sel)
      else IsMath(fn, args) ==> FetchFaithful(env, args[0])
    case AggregateExpr(_, inner) => FetchFaithful(env, inner)
    case BinaryExpr(_, _, _, lhs, rhs) => FetchFaithful(env, lhs) && FetchFaithful(env, rhs)
    case UnaryExpr(_, inner) => FetchFaithful(env, inner)
    case ParenExpr(inner) => FetchFaithful(env, inner)
    case _ => true
  }

  // ---- Cores ----

  lemma ChainsDoNotCompute(lib: Lib, p: EvalPlan, q: EvalPlan, s: seq<Sample>, t: int, staleness: int)
    requires Increasing(s) && q == p.(aggChain := q.aggChain, mathChain := q.mathChain)
    ensures ComputeValue(lib, p, s, t, staleness) == ComputeValue(lib, q, s, t, staleness)
  {
    hide WindowValue;
    hide Staleness.InstantValue;
    hide RangeWindow;
    hide Increasing;
  }

  /** The chains do not matter to the values of the series. */
  lemma ChainsDoNotSelect(lib: Lib, p: EvalPlan, q: EvalPlan, db: Db, t: int, staleness: int)
    requires ValidDb(db) && q == p.(aggChain := q.aggChain, mathChain := q.mathChain)
    ensures InstantVec(lib, p, db, t, staleness) == InstantVec(lib, q, db, t, staleness)
  {
    hide ComputeValue;
    forall l | l in db ensures ComputeValue(lib, p, db[l], t, staleness) == ComputeValue(lib, q, db[l], t, staleness) {
      ChainsDoNotCompute(lib, p, q, db[l], t, staleness);
    }
  }

  lemma InstantCoreValue(lib: Lib, sel: Selector, s: seq<Sample>, t: int, staleness: int)
    requires Increasing(s)
    ensures ComputeValue(lib, InstantCore(sel), s, t, staleness) == Staleness.InstantValue(s, t - sel.offsetMs, staleness)
  {
    hide WindowValue;
    hide Staleness.InstantValue;
  }

  lemma NoRowsNoLookup(u: int, staleness: int)
    ensures Staleness.InstantValue([], u, staleness) == None
  {
    LookupNone([], u, staleness);
  }

  lemma SeriesOfInstantSelector(env: Env, sel: Selector, t: int, s: seq<Sample>)
    requires ValidEnv(env) && Increasing(s)
    requires !LostAtBoundary(s, env.config.startMs, sel.offsetMs, env.config.stalenessMs)
    requires env.config.startMs <= t <= env.config.endMs
    ensures var data := InstantData(env.config.startMs, env.config.endMs, sel.offsetMs, env.config.stalenessMs);
            var rows := Staleness.Between(s, data.0, data.1);
            && Increasing(rows)
            && ComputeValue(env.lib, InstantCore(sel), s, t, env.config.stalenessMs)
               == ComputeValue(env.lib, InstantCore(sel), rows, t, env.config.stalenessMs)
            && (rows == [] ==> ComputeValue(env.lib, InstantCore(sel), s, t, env.config.stalenessMs) == None)
  {
    hide ComputeValue;
    hide Staleness.Between;
    hide Staleness.InstantValue;
    hide LostAtBoundary;
    hide Increasing;
    var c := env.config;
    var data := InstantData(c.startMs, c.endMs, sel.offsetMs, c.stalenessMs);
    var rows := Staleness.Between(s, data.0, data.1);
    BetweenIncreasing(s, data.0, data.1);
    InstantValueFromFetched(s, c.startMs, c.endMs, sel.offsetMs, c.stalenessMs, t);
    NoRowsNoLookup(t - sel.offsetMs, c.stalenessMs);
    InstantCoreValue(env.lib, sel, s, t, c.stalenessMs);
    InstantCoreValue(env.lib, sel, rows, t, c.stalenessMs);
  }

  /** The fetch of a plan, for a selector that is compiled to what it means. */
  lemma FetchedSelected(env: Env, sel: Selector, p: Plan)
    requires ValidEnv(env) && NamesItsMetric(sel) && ReadsAlike(env, sel)
    requires p.metricName == MetricName(sel.name, sel.matchers) && p.matchers == LabelMatchers(sel.matchers)
    ensures FetchedRows(env, p) == Fetch(Selected(env, sel), p.data)
  {
    CompiledMeans(env, sel);
    hide Selected;
    hide NamesItsMetric;
    hide ReadsAlike;
    hide Rows;
    hide Fetch;
  }

  lemma FetchedVec(lib: Lib, p: EvalPlan, db: Db, rows: Db, t: int, st: int)
    requires ValidDb(db) && ValidDb(rows) && rows.Keys <= db.Keys
    requires forall l :: l in db ==>
               ComputeValue(lib, p, db[l], t, st) == if l in rows then ComputeValue(lib, p, rows[l], t, st) else None
    ensures InstantVec(lib, p, rows, t, st) == InstantVec(lib, p, db, t, st)
  {
    hide ComputeValue;
    assert forall l :: l in rows ==> l in rows.Keys;
  }

  lemma FetchKeepsLabels(db: Db, data: (int, int))
    requires ValidDb(db)
    ensures Fetch(db, data).Keys <= db.Keys
    ensures forall l :: l in db ==>
              (l in Fetch(db, data) ==> Fetch(db, data)[l] == Staleness.Between(db[l], data.0, data.1))
              && (l !in Fetch(db, data) ==> Staleness.Between(db[l], data.0, data.1) == [])
  {
    hide Staleness.Between;
  }

  lemma InstantSelectorFromFetched(env: Env, sel: Selector, t: int)
    requires ValidEnv(env) && NamesItsMetric(sel) && FetchFaithful(env, VectorSelector(sel))
    requires env.config.startMs <= t <= env.config.endMs
    ensures var p := InstantSelectorPlan(env.config, sel);
            InstantVec(env.lib, Flat(p), FetchedRows(env, p), t, env.config.stalenessMs)
            == InstantVec(env.lib, InstantCore(sel), Selected(env, sel), t, env.config.stalenessMs)
  {
    var c := env.config;
    var db, p := Selected(env, sel), InstantSelectorPlan(c, sel);
    var rows := FetchedRows(env, p);
    FetchedSelected(env, sel, p);
    assert rows == Fetch(db, p.data);
    assert Flat(p) == InstantCore(sel) && p.data == InstantData(c.startMs, c.endMs, sel.offsetMs, c.stalenessMs);
    assert forall l :: l in db ==> Increasing(db[l]) && !LostAtBoundary(db[l], c.startMs, sel.offsetMs, c.stalenessMs);
    hide *;
    FetchKeepsLabels(db, p.data);
    forall l | l in db
      ensures ComputeValue(env.lib, Flat(p), db[l], t, c.stalenessMs)
           == if l in rows then ComputeValue(env.lib, Flat(p), rows[l], t, c.stalenessMs) else None
    {
      SeriesOfInstantSelector(env, sel, t, db[l]);
    }
    FetchedVec(env.lib, Flat(p), db, rows, t, c.stalenessMs);
  }

  lemma RangeCallFromFetched(env: Env, fn: string, args: seq<Expr>, t: int)
    requires ValidEnv(env) && IsRangeCall(fn, args) && ReadsAlike(env, RangeCallOf(fn, args).value.0.sel)
    requires env.config.startMs <= t <= env.config.endMs
    ensures var call := RangeCallOf(fn, args).value;
            var p := RangeCallPlan(env.config, fn, call);
            InstantVec(env.lib, Flat(p), FetchedRows(env, p), t, env.config.stalenessMs)
            == InstantVec(env.lib, RangeCore(fn, call), Selected(env, call.0.sel), t, env.config.stalenessMs)
  {
    var c := env.config;
    var call := RangeCallOf(fn, args).value;
    var p := RangeCallPlan(c, fn, call);
    assert Flat(p) == RangeCore(fn, call);
    assert fn in RANGE_FUNCTIONS;
    FetchedSelected(env, call.0.sel, p);
    InstantFromFetched(env.lib, Flat(p), Selected(env, call.0.sel), c.startMs, c.endMs, c.stalenessMs, t);
  }
}

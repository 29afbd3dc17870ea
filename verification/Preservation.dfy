/** Translating an expression, fetching what the plan asks for and evaluating the plan
    gives the meaning of the expression at every step. */
module Preservation {
  import opened Types
  import opened Columns
  import opened Plans
  import opened Aggregation
  import opened InstantEval
  import MatrixColumns
  import BinaryVectors
  import opened BinaryEval
  import opened RangeQuery
  import opened Translator
  import opened PlanEval
  import Selectors
  import opened Meaning

  /** The table holds, at every step, what the expression means there. */
  ghost predicate IsTableOf(env: Env, e: Expr, steps: seq<int>, tab: Table)
    requires ValidEnv(env)
  {
    && Normal(tab)
    && (forall t :: t in steps ==> Denote(env, e, t) == Some(Column(tab, t)))
    && (forall t :: t !in steps ==> Column(tab, t) == map[])
  }

  /** `result` is the meaning of the expression over the steps, or an error where it has
      none. */
  ghost predicate Means(env: Env, e: Expr, steps: seq<int>, result: Option<Table>)
    requires ValidEnv(env)
  {
    match result
    case Some(tab) => IsTableOf(env, e, steps, tab)
    case None => exists t :: t in steps && Denote(env, e, t) == None
  }

  ghost predicate StepsInQuery(env: Env, steps: seq<int>) {
    IncreasingTimes(steps) && forall t :: t in steps ==> env.config.startMs <= t <= env.config.endMs
  }

  // ---- Spines ----

  lemma AggregateChainSnoc(lib: Lib, m: Vec, chain: seq<AggStep>, step: AggStep)
    ensures AggregateChain(lib, m, chain + [step]) == AggregateVec(lib, AggregateChain(lib, m, chain), step)
  {
    assert (chain + [step])[..|chain|] == chain;
  }

  /** The series values that a plan starts from. */
  ghost function CoreVec(env: Env, p: Plan, t: int): Vec
    requires ValidEnv(env)
  {
    InstantVec(env.lib, Flat(p), FetchedRows(env, p), t, env.config.stalenessMs)
  }

  ghost predicate IsFlat(p: Plan) {
    !p.isScalar && p.exprType != "binary" && p.mathChain == []
  }

  lemma AggregatedCore(env: Env, p: Plan, step: AggStep, t: int)
    requires ValidEnv(env) && p.aggParam == 0.0
    ensures var p' := p.(aggChain := p.aggChain + [step], aggParam := 0.0, exprType := "aggregate");
            CoreVec(env, p', t) == CoreVec(env, p, t)
  {
    var p' := p.(aggChain := p.aggChain + [step], aggParam := 0.0, exprType := "aggregate");
    assert FetchedRows(env, p') == FetchedRows(env, p);
    ChainsDoNotSelect(env.lib, Flat(p), Flat(p'), FetchedRows(env, p), t, env.config.stalenessMs);
  }

  /** The chain of a spine is built and run innermost first. */
  lemma {:induction false} SpineMeaning(env: Env, e: Expr, t: int)
    requires ValidEnv(env) && Spine(e) && FetchFaithful(env, e)
    requires env.config.startMs <= t <= env.config.endMs
    ensures var p := Translate(env.config, e);
            && p.Some? && IsFlat(p.value) && p.value.aggParam == Param(e)
            && Denote(env, e, t) == Some(AggregateChain(env.lib, CoreVec(env, p.value, t), p.value.aggChain))
  {
    hide CoreVec;
    hide FetchedRows;
    hide InstantVec;
    match e
    case VectorSelector(sel) =>
      SelectorCore(env, sel, t);
    case Call(fn, args) =>
      RangeCore(env, fn, args, t);
    case AggregateExpr(step, inner) =>
      SpineMeaning(env, inner, t);
      var p := Translate(env.config, inner).value;
      AggregatedCore(env, p, step, t);
      AggregateChainSnoc(env.lib, CoreVec(env, p, t), p.aggChain, step);
    case ParenExpr(inner) =>
      SpineMeaning(env, inner, t);
  }

  lemma SelectorCore(env: Env, sel: Selector, t: int)
    requires ValidEnv(env) && Selectors.NamesItsMetric(sel) && FetchFaithful(env, VectorSelector(sel))
    requires env.config.startMs <= t <= env.config.endMs
    ensures Denote(env, VectorSelector(sel), t) == Some(CoreVec(env, InstantSelectorPlan(env.config, sel), t))
  {
    hide InstantVec;
    hide FetchedRows;
    InstantSelectorFromFetched(env, sel, t);
  }

  lemma RangeCore(env: Env, fn: string, args: seq<Expr>, t: int)
    requires ValidEnv(env) && IsRangeCall(fn, args) && Selectors.ReadsAlike(env, RangeCallOf(fn, args).value.0.sel)
    requires env.config.startMs <= t <= env.config.endMs
    ensures Denote(env, Call(fn, args), t) == Some(CoreVec(env, RangeCallPlan(env.config, fn, RangeCallOf(fn, args).value), t))
  {
    CallMeaning(env, fn, args, t);
    hide Denote;
    hide InstantVec;
    hide FetchedRows;
    RangeCallFromFetched(env, fn, args, t);
  }

  lemma NoMathVec(f: (MathStep, real) -> real, v: Vec)
    ensures MathVec(f, [], v) == v
  {
  }

  lemma SpineMeans(env: Env, e: Expr, steps: seq<int>)
    requires ValidEnv(env) && Spine(e) && FetchFaithful(env, e) && StepsInQuery(env, steps)
    ensures var p := Translate(env.config, e);
            p.Some? && IsFlat(p.value) && Means(env, e, steps, PlanTable(env, p.value, steps))
  {
    SpineMeaning(env, e, env.config.startMs);
    var p := Translate(env.config, e).value;
    var f := FlatColumns(env, p);
    ColumnwiseMeaning(steps, f);
    forall t | t in steps ensures Denote(env, e, t) == Some(FlatVec(env, p, t)) {
      SpineMeaning(env, e, t);
      NoMathVec(MatrixMath(env.lib), AggregateChain(env.lib, CoreVec(env, p, t), p.aggChain));
    }
    hide Denote;
    hide FlatVec;
    assert IsTableOf(env, e, steps, Columnwise(steps, f));
  }

  // ---- Math ----

  lemma ChainSnoc(f: (MathStep, real) -> real, chain: seq<MathStep>, s: MathStep, v: real)
    ensures Chain(f, chain + [s], v) == f(s, Chain(f, chain, v))
  {
    assert (chain + [s])[..|chain|] == chain;
  }

  function OneStep(lib: Lib, s: MathStep): real -> real {
    v => MathOp(lib, s, v)
  }

  lemma MapTableSnoc(lib: Lib, chain: seq<MathStep>, s: MathStep, tab: Table)
    ensures MapTable(ChainFn(lib, chain + [s]), tab) == MapTable(OneStep(lib, s), MapTable(ChainFn(lib, chain), tab))
  {
    hide MathOp;
    forall l | l in tab
      ensures MapPoints(ChainFn(lib, chain + [s]), tab[l]) == MapPoints(OneStep(lib, s), MapPoints(ChainFn(lib, chain), tab[l]))
    {
      var ps := tab[l];
      forall i | 0 <= i < |ps|
        ensures MapPoints(ChainFn(lib, chain + [s]), ps)[i] == MapPoints(OneStep(lib, s), MapPoints(ChainFn(lib, chain), ps))[i]
      {
        ChainSnoc(MatrixMath(lib), chain, s, ps[i].v);
      }
    }
  }

  lemma FlatVecSnoc(env: Env, p: Plan, s: MathStep, t: int)
    requires ValidEnv(env)
    ensures FlatVec(env, p.(mathChain := p.mathChain + [s]), t)
         == map l | l in FlatVec(env, p, t) :: MathOp(env.lib, s, FlatVec(env, p, t)[l])
  {
    hide MathOp;
    var p' := p.(mathChain := p.mathChain + [s]);
    var f := MatrixMath(env.lib);
    var v := AggregateChain(env.lib, CoreVec(env, p, t), p.aggChain);
    assert FetchedRows(env, p') == FetchedRows(env, p);
    ChainsDoNotSelect(env.lib, Flat(p), Flat(p'), FetchedRows(env, p), t, env.config.stalenessMs);
    assert FlatVec(env, p', t) == MathVec(f, p.mathChain + [s], v);
    hide FlatVec;
    forall l | l in v ensures Chain(f, p.mathChain + [s], v[l]) == MathOp(env.lib, s, Chain(f, p.mathChain, v[l])) {
      ChainSnoc(f, p.mathChain, s, v[l]);
    }
    assert FlatVec(env, p, t) == MathVec(f, p.mathChain, v) by {
      assert CoreVec(env, p, t) == InstantVec(env.lib, Flat(p), FetchedRows(env, p), t, env.config.stalenessMs);
    }
  }

  /** The math of the plan is not forgotten. */
  ghost predicate KeepsMath(env: Env, p: Plan, steps: seq<int>)
    requires ValidEnv(env)
  {
    && !p.isScalar
    && (p.exprType == "binary" && p.scalarLHS.None? && p.scalarRHS.None? ==>
          VectorSide(env, p.lhs, steps) && VectorSide(env, p.rhs, steps))
  }

  ghost predicate VectorSide(env: Env, side: Option<Plan>, steps: seq<int>)
    requires ValidEnv(env)
  {
    side.Some? && PlanTable(env, side.value, steps).Some? ==> !LooksScalar(PlanTable(env, side.value, steps).value)
  }

  ghost function MappedTable(f: real -> real, result: Option<Table>): Option<Table> {
    match result
    case Some(tab) => Some(MapTable(f, tab))
    case None => None
  }

  lemma ColumnwiseMap(steps: seq<int>, f: int -> Vec, f': int -> Vec, g: real -> real)
    requires IncreasingTimes(steps) && forall t :: f'(t) == map l | l in f(t) :: g(f(t)[l])
    ensures Columnwise(steps, f') == MapTable(g, Columnwise(steps, f))
  {
    var tab, tab' := Columnwise(steps, f), Columnwise(steps, f');
    ColumnwiseMeaning(steps, f);
    ColumnwiseMeaning(steps, f');
    MapTableNormal(g, tab);
    forall t ensures Column(tab', t) == Column(MapTable(g, tab), t) {
      MapTableColumn(g, tab, t);
    }
    TableExtensionality(tab', MapTable(g, tab));
  }

  lemma MathOnFlat(env: Env, p: Plan, s: MathStep, steps: seq<int>)
    requires ValidEnv(env) && IncreasingTimes(steps)
    ensures Columnwise(steps, FlatColumns(env, p.(mathChain := p.mathChain + [s])))
         == MapTable(OneStep(env.lib, s), Columnwise(steps, FlatColumns(env, p)))
  {
    var p' := p.(mathChain := p.mathChain + [s]);
    var f, f' := FlatColumns(env, p), FlatColumns(env, p');
    hide FlatVec;
    hide MathOp;
    forall t ensures f'(t) == map l | l in f(t) :: OneStep(env.lib, s)(f(t)[l]) {
      FlatVecSnoc(env, p, s, t);
    }
    ColumnwiseMap(steps, f, f', OneStep(env.lib, s));
  }

  lemma MathOnOneSided(env: Env, p: Plan, s: MathStep, side: Option<Table>, scalar: real, onLeft: bool)
    ensures OneSided(env, p.(mathChain := p.mathChain + [s]), side, scalar, onLeft)
         == MappedTable(OneStep(env.lib, s), OneSided(env, p, side, scalar, onLeft))
  {
    if side.Some? {
      MapTableSnoc(env.lib, p.mathChain, s, ScalarTable(ScalarOp(env.lib, p, scalar, onLeft), side.value));
      assert ScalarOp(env.lib, p.(mathChain := p.mathChain + [s]), scalar, onLeft) == ScalarOp(env.lib, p, scalar, onLeft);
    }
  }

  lemma MathOnTwoSided(env: Env, p: Plan, s: MathStep, l: Option<Table>, r: Option<Table>, steps: seq<int>)
    requires l.Some? ==> !LooksScalar(l.value)
    requires r.Some? ==> !LooksScalar(r.value)
    ensures TwoSided(env, p.(mathChain := p.mathChain + [s]), l, r, steps)
         == MappedTable(OneStep(env.lib, s), TwoSided(env, p, l, r, steps))
  {
    if l.Some? && r.Some? && NeverAmbiguous(env, p, l.value, r.value, steps) {
      MapTableSnoc(env.lib, p.mathChain, s, Pointwise(env, p, l.value, r.value, steps));
    }
  }

  /** Appending a math step to a plan applies the step to its result. */
  lemma MathOnPlan(env: Env, p: Plan, s: MathStep, steps: seq<int>)
    requires ValidEnv(env) && IncreasingTimes(steps) && KeepsMath(env, p, steps)
    ensures PlanTable(env, p.(mathChain := p.mathChain + [s]), steps)
         == MappedTable(OneStep(env.lib, s), PlanTable(env, p, steps))
  {
    hide OneSided;
    hide TwoSided;
    hide FlatVec;
    hide MapTable;
    hide OneStep;
    if p.exprType != "binary" {
      MathOnFlat(env, p, s, steps);
    } else if p.scalarRHS.Some? && p.scalarLHS.Some? {
      MathOnOneSided(env, p, s, Some(Literal(env, p.scalarLHS.value)), p.scalarRHS.value, false);
    } else {
      var l := if p.lhs.Some? then PlanTable(env, p.lhs.value, steps) else None;
      var r := if p.rhs.Some? then PlanTable(env, p.rhs.value, steps) else None;
      if p.scalarRHS.Some? {
        MathOnOneSided(env, p, s, l, p.scalarRHS.value, false);
      } else if p.scalarLHS.Some? {
        MathOnOneSided(env, p, s, r, p.scalarLHS.value, true);
      } else {
        MathOnTwoSided(env, p, s, l, r, steps);
      }
    }
  }

  lemma MathDenotes(env: Env, fn: string, args: seq<Expr>, t: int)
    requires ValidEnv(env) && IsMath(fn, args)
    ensures MathStepOf(fn, args).Some? && !Plans.IsTrig(MathStepOf(fn, args).value)
    ensures Denote(env, Call(fn, args), t)
         == match Denote(env, args[0], t)
            case Some(v) => Some(MathVec(VectorMath(env.lib), [MathStepOf(fn, args).value], v))
            case None => None
  {
    CallMeaning(env, fn, args, t);
    hide Denote;
    hide ValidEnv;
    hide MathVec;
  }

  lemma OneStepColumn(lib: Lib, s: MathStep, tab: Table, t: int)
    requires !IsTrig(s)
    ensures Column(MapTable(OneStep(lib, s), tab), t) == MathVec(VectorMath(lib), [s], Column(tab, t))
  {
    forall x ensures MathOp(lib, s, x) == VectorMathOp(lib, s, x) {
    }
    hide MathOp;
    hide VectorMathOp;
    MapTableColumn(OneStep(lib, s), tab, t);
    OneMathStep(lib, s, Column(tab, t));
  }

  lemma MathMeaning(env: Env, fn: string, args: seq<Expr>, steps: seq<int>, result: Option<Table>)
    requires ValidEnv(env) && IsMath(fn, args) && Means(env, args[0], steps, result)
    ensures Means(env, Call(fn, args), steps, MappedTable(OneStep(env.lib, MathStepOf(fn, args).value), result))
  {
    forall t ensures Denote(env, Call(fn, args), t)
                  == match Denote(env, args[0], t)
                     case Some(v) => Some(MathVec(VectorMath(env.lib), [MathStepOf(fn, args).value], v))
                     case None => None
    {
      MathDenotes(env, fn, args, t);
    }
    MathDenotes(env, fn, args, 0);
    var s := MathStepOf(fn, args).value;
    assert MathVec(VectorMath(env.lib), [s], map[]) == map[];
    hide ValidEnv;
    hide Denote;
    hide MathVec;
    hide OneStep;
    hide Column;
    hide Normal;
    hide MapTable;
    hide MathStepOf;
    hide IsMath;
    if result.Some? {
      MapTableNormal(OneStep(env.lib, s), result.value);
      forall t ensures Column(MapTable(OneStep(env.lib, s), result.value), t)
                    == MathVec(VectorMath(env.lib), [s], Column(result.value, t))
      {
        OneStepColumn(env.lib, s, result.value, t);
      }
    }
  }

  lemma OneMathStep(lib: Lib, s: MathStep, v: Vec)
    requires forall x :: MathOp(lib, s, x) == VectorMathOp(lib, s, x)
    ensures MathVec(VectorMath(lib), [s], v) == map l | l in v :: OneStep(lib, s)(v[l])
  {
    hide MathOp;
    hide VectorMathOp;
    forall l | l in v ensures Chain(VectorMath(lib), [s], v[l]) == OneStep(lib, s)(v[l]) {
      ChainSnoc(VectorMath(lib), [], s, v[l]);
      assert [] + [s] == [s];
    }
  }

  // ---- Operands ----

  lemma {:induction false} LiteralPlan(c: Config, e: Expr)
    requires LiteralOf(e).Some?
    ensures Translate(c, e) == Some(NumberPlan(LiteralOf(e).value))
  {
    if e.ParenExpr? {
      LiteralPlan(c, e.expr);
    }
  }

  lemma ScalarTableMeaning(f: real -> Option<real>, tab: Table)
    requires Normal(tab)
    ensures Normal(ScalarTable(f, tab))
    ensures forall t :: Column(ScalarTable(f, tab), t) == ScalarVec(f, Column(tab, t))
  {
    ScalarTableNormal(f, tab);
    forall t ensures Column(ScalarTable(f, tab), t) == ScalarVec(f, Column(tab, t)) {
      ScalarTableColumn(f, tab, t);
    }
  }

  /** A number operand: `e` means the operator between each sample of `inner` and it. */
  lemma ScalarMeans(env: Env, p: Plan, e: Expr, inner: Expr, scalar: real, onLeft: bool, steps: seq<int>, side: Option<Table>)
    requires ValidEnv(env) && p.mathChain == [] && Means(env, inner, steps, side)
    requires forall t :: t in steps ==>
               Denote(env, e, t) == ScalarMeaning(env.lib, p.binaryOp, p.returnBool, onLeft, scalar, Denote(env, inner, t))
    ensures Means(env, e, steps, OneSided(env, p, side, scalar, onLeft))
  {
    if side.Some? {
      var f := ScalarOp(env.lib, p, scalar, onLeft);
      var tab := ScalarTable(f, side.value);
      ScalarTableMeaning(f, side.value);
      NoMath(env.lib, tab);
      hide WithScalar;
      hide Denote;
      hide ScalarTable;
      assert f == (x => WithScalar(env.lib, p.binaryOp, p.returnBool, onLeft, scalar, x));
      assert IsTableOf(env, e, steps, tab);
    }
  }

  lemma FirstSample(tab: Table, steps: seq<int>, l: Labels)
    requires Normal(tab) && l in tab && forall t :: t !in steps ==> Column(tab, t) == map[]
    ensures exists t :: t in steps && l in Column(tab, t)
  {
    PointAtHit(tab[l], 0);
    assert l in Column(tab, tab[l][0].ts);
  }

  /** The labels of a table are the labels of its columns. */
  lemma ScalarColumns(tab: Table, steps: seq<int>)
    requires Normal(tab) && forall t :: t !in steps ==> Column(tab, t) == map[]
    ensures LooksScalar(tab) <==>
            && (forall t :: t in steps ==> Column(tab, t).Keys <= {map[]})
            && (exists t :: t in steps && Column(tab, t) != map[])
  {
    forall l | l in tab ensures exists t :: t in steps && l in Column(tab, t) {
      FirstSample(tab, steps, l);
    }
    assert forall t :: Column(tab, t).Keys <= tab.Keys;
    hide Column;
    if LooksScalar(tab) {
      var l: Labels := map[];
      assert l in tab.Keys;
      var t :| t in steps && l in Column(tab, t);
      assert Column(tab, t) != map[];
    } else if t :| t in steps && Column(tab, t) != map[] && Column(tab, t).Keys <= {map[]} {
      EmptyLabelOnly(Column(tab, t));
      assert tab.Keys != {map[]};
      var l :| l in tab.Keys && l != map[];
      var u :| u in steps && l in Column(tab, u);
    }
  }

  lemma EmptyLabelOnly(v: Vec)
    requires v != map[] && v.Keys <= {map[]}
    ensures map[] in v
  {
    var l :| l in v;
    assert l in v.Keys;
  }

  lemma ScalarLookMeaning(env: Env, e: Expr, steps: seq<int>, tab: Table)
    requires ValidEnv(env) && IsTableOf(env, e, steps, tab)
    ensures LooksScalar(tab) <==> ScalarLooking(env, e, steps)
  {
    hide Denote;
    hide Column;
    ScalarColumns(tab, steps);
    hide LooksScalar;
  }

  /** Two vector operands. */
  lemma VectorsMean(env: Env, p: Plan, e: Expr, l: Expr, r: Expr, steps: seq<int>, lt: Option<Table>, rt: Option<Table>)
    requires ValidEnv(env) && IncreasingTimes(steps) && p.mathChain == []
    requires Means(env, l, steps, lt) && Means(env, r, steps, rt)
    requires !ScalarLooking(env, l, steps) && !ScalarLooking(env, r, steps)
    requires forall t :: t in steps ==>
               Denote(env, e, t) == BinaryMeaning(env.lib, p.binaryOp, p.returnBool, p.matching, Denote(env, l, t), Denote(env, r, t))
    ensures Means(env, e, steps, TwoSided(env, p, lt, rt, steps))
  {
    hide Denote;
    hide BinaryVectors.BinaryVec;
    if lt.Some? && rt.Some? {
      ScalarLookMeaning(env, l, steps, lt.value);
      ScalarLookMeaning(env, r, steps, rt.value);
      hide ScalarLooking;
      assert forall t :: t in steps ==>
        Denote(env, e, t) == BinaryColumn(env.lib, p.binaryOp, p.returnBool, p.matching, lt.value, rt.value, t);
      hide BinaryColumn;
      hide BinaryMeaning;
      if NeverAmbiguous(env, p, lt.value, rt.value, steps) {
        var f := BinaryColumns(env.lib, p.binaryOp, p.returnBool, p.matching, lt.value, rt.value);
        ColumnwiseMeaning(steps, f);
        NoMath(env.lib, Columnwise(steps, f));
        assert IsTableOf(env, e, steps, Columnwise(steps, f));
      }
    }
  }

  lemma NegationOfSample(lib: Lib, p: Plan, v: Vec)
    requires p.binaryOp == "-" && !p.returnBool
    ensures ScalarVec(ScalarOp(lib, p, 0.0, true), v) == NegatedVec(v)
  {
  }

  /** A negation is zero minus the expression, the zero being the side that looks like a
      scalar. */
  lemma NegationMeans(env: Env, inner: Expr, p: Plan, steps: seq<int>, side: Option<Table>)
    requires ValidEnv(env) && Means(env, inner, steps, side) && !ScalarLooking(env, inner, steps)
    requires p.binaryOp == "-" && !p.returnBool
    ensures Means(env, UnaryExpr(true, inner), steps, TwoSided(env, p, Some(Literal(env, 0.0)), side, steps))
  {
    hide IsTableOf;
    hide ScalarLooking;
    hide ScalarTable;
    hide LooksScalar;
    if side.Some? {
      ScalarLookMeaning(env, inner, steps, side.value);
      NegatedTable(env, inner, p, steps, side.value);
      NegationTable(env, p, side.value, steps);
    } else {
      var t :| t in steps && Denote(env, inner, t) == None;
      assert Denote(env, UnaryExpr(true, inner), t) == None;
    }
  }

  lemma NegationTable(env: Env, p: Plan, tab: Table, steps: seq<int>)
    requires !LooksScalar(tab)
    ensures TwoSided(env, p, Some(Literal(env, 0.0)), Some(tab), steps) == Some(ScalarTable(ScalarOp(env.lib, p, 0.0, true), tab))
  {
    hide ScalarTable;
    LiteralLooksScalar(env, 0.0);
  }

  lemma LiteralLooksScalar(env: Env, val: real)
    ensures LooksScalar(Literal(env, val)) && FirstValue(Literal(env, val)) == val
  {
  }

  lemma UnaryDenotes(env: Env, inner: Expr, t: int)
    requires ValidEnv(env)
    ensures Denote(env, UnaryExpr(true, inner), t)
         == match Denote(env, inner, t) { case Some(v) => Some(NegatedVec(v)) case None => None }
  {
    hide ValidEnv;
    hide NegatedVec;
  }

  lemma NegatedTable(env: Env, inner: Expr, p: Plan, steps: seq<int>, tab: Table)
    requires ValidEnv(env) && IsTableOf(env, inner, steps, tab)
    requires p.binaryOp == "-" && !p.returnBool
    ensures IsTableOf(env, UnaryExpr(true, inner), steps, ScalarTable(ScalarOp(env.lib, p, 0.0, true), tab))
  {
    var f := ScalarOp(env.lib, p, 0.0, true);
    ScalarTableMeaning(f, tab);
    assert NegatedVec(map[]) == map[];
    hide ValidEnv;
    hide Denote;
    hide Normal;
    hide ScalarTable;
    hide ScalarOp;
    hide Column;
    hide ScalarVec;
    hide NegatedVec;
    forall t ensures Column(ScalarTable(f, tab), t) == NegatedVec(Column(tab, t)) {
      NegationOfSample(env.lib, p, Column(tab, t));
    }
    forall t | t in steps ensures Denote(env, UnaryExpr(true, inner), t) == Some(Column(ScalarTable(f, tab), t)) {
      UnaryDenotes(env, inner, t);
    }
  }

  // ---- The theorem ----

  ghost predicate Preserved(env: Env, e: Expr, steps: seq<int>)
    requires ValidEnv(env)
  {
    var p := Translate(env.config, e);
    && p.Some?
    && !p.value.isScalar
    && Means(env, e, steps, PlanTable(env, p.value, steps))
    && (!Negated(e) ==> KeepsMath(env, p.value, steps))
  }

  lemma SpinePreserved(env: Env, e: Expr, steps: seq<int>)
    requires ValidEnv(env) && StepsInQuery(env, steps) && Spine(e) && FetchFaithful(env, e)
    ensures Preserved(env, e, steps)
  {
    hide Means;
    hide PlanTable;
    SpineMeans(env, e, steps);
  }

  lemma MathPreserved(env: Env, e: Expr, steps: seq<int>)
    requires ValidEnv(env) && StepsInQuery(env, steps)
    requires e.Call? && IsMath(e.fn, e.args) && !Negated(e.args[0]) && Preserved(env, e.args[0], steps)
    ensures Preserved(env, e, steps)
  {
    var p := Translate(env.config, e.args[0]).value;
    var s := MathStepOf(e.fn, e.args).value;
    MathOnPlan(env, p, s, steps);
    MathMeaning(env, e.fn, e.args, steps, PlanTable(env, p, steps));
    hide PlanTable;
    hide Means;
    hide RangeCallOf;
    hide LiteralCall;
    hide MathStepOf;
    assert Translate(env.config, e) == Some(p.(mathChain := p.mathChain + [s]));
  }

  /** The two sides of a binary plan that are plans themselves. */
  lemma SidesOfPlan(env: Env, e: Expr, steps: seq<int>)
    requires ValidEnv(env) && e.BinaryExpr?
    requires LiteralOf(e.lhs).Some? || Preserved(env, e.lhs, steps)
    requires LiteralOf(e.rhs).Some? || Preserved(env, e.rhs, steps)
    requires LiteralOf(e.lhs).None? || LiteralOf(e.rhs).None?
    ensures var l, r := Translate(env.config, e.lhs), Translate(env.config, e.rhs);
            && l.Some? && r.Some?
            && Translate(env.config, e) == Some(BinaryPlan(env.config, e.op, e.returnBool, e.matching, l.value, r.value))
            && (LiteralOf(e.lhs).Some? ==> l.value == NumberPlan(LiteralOf(e.lhs).value))
            && (LiteralOf(e.rhs).Some? ==> r.value == NumberPlan(LiteralOf(e.rhs).value))
            && (Preserved(env, e.lhs, steps) ==> !l.value.isScalar)
            && (Preserved(env, e.rhs, steps) ==> !r.value.isScalar)
  {
    hide Means;
    hide PlanTable;
    if LiteralOf(e.lhs).Some? {
      LiteralPlan(env.config, e.lhs);
    }
    if LiteralOf(e.rhs).Some? {
      LiteralPlan(env.config, e.rhs);
    }
  }

  lemma NumberOnTheRight(env: Env, e: Expr, steps: seq<int>)
    requires ValidEnv(env) && e.BinaryExpr? && Preserved(env, e.lhs, steps)
    requires LiteralOf(e.rhs).Some? && LiteralOf(e.lhs).None?
    ensures Preserved(env, e, steps)
  {
    SidesOfPlan(env, e, steps);
    var p := Translate(env.config, e).value;
    var side := PlanTable(env, Translate(env.config, e.lhs).value, steps);
    var scalar := LiteralOf(e.rhs).value;
    assert PlanTable(env, p, steps) == OneSided(env, p, side, scalar, false);
    hide PlanTable;
    hide OneSided;
    hide Means;
    ScalarMeans(env, p, e, e.lhs, scalar, false, steps, side);
  }

  lemma NumberOnTheLeft(env: Env, e: Expr, steps: seq<int>)
    requires ValidEnv(env) && e.BinaryExpr? && Preserved(env, e.rhs, steps)
    requires LiteralOf(e.lhs).Some? && LiteralOf(e.rhs).None?
    ensures Preserved(env, e, steps)
  {
    SidesOfPlan(env, e, steps);
    var p := Translate(env.config, e).value;
    var side := PlanTable(env, Translate(env.config, e.rhs).value, steps);
    var scalar := LiteralOf(e.lhs).value;
    assert PlanTable(env, p, steps) == OneSided(env, p, side, scalar, true);
    hide PlanTable;
    hide OneSided;
    hide Means;
    ScalarMeans(env, p, e, e.rhs, scalar, true, steps, side);
  }

  lemma VectorLook(env: Env, e: Expr, steps: seq<int>)
    requires ValidEnv(env) && Preserved(env, e, steps) && !ScalarLooking(env, e, steps)
    ensures VectorSide(env, Translate(env.config, e), steps)
  {
    var result := PlanTable(env, Translate(env.config, e).value, steps);
    hide ScalarLooking;
    hide PlanTable;
    if result.Some? {
      ScalarLookMeaning(env, e, steps, result.value);
    }
  }

  lemma VectorsPreserved(env: Env, e: Expr, steps: seq<int>)
    requires ValidEnv(env) && StepsInQuery(env, steps) && e.BinaryExpr?
    requires LiteralOf(e.lhs).None? && LiteralOf(e.rhs).None?
    requires Preserved(env, e.lhs, steps) && Preserved(env, e.rhs, steps)
    requires !ScalarLooking(env, e.lhs, steps) && !ScalarLooking(env, e.rhs, steps)
    ensures Preserved(env, e, steps)
  {
    SidesOfPlan(env, e, steps);
    VectorLook(env, e.lhs, steps);
    VectorLook(env, e.rhs, steps);
    TwoSidedPlan(env, e, steps);
    PreservedMeans(env, e.lhs, steps);
    PreservedMeans(env, e.rhs, steps);
    hide *;
    var l, r := Translate(env.config, e.lhs).value, Translate(env.config, e.rhs).value;
    TwoSidedPreserved(env, e, BinaryPlan(env.config, e.op, e.returnBool, e.matching, l, r), l, r, steps);
  }

  lemma PreservedMeans(env: Env, e: Expr, steps: seq<int>)
    requires ValidEnv(env) && Preserved(env, e, steps)
    ensures Translate(env.config, e).Some?
    ensures Means(env, e, steps, PlanTable(env, Translate(env.config, e).value, steps))
  {
  }

  lemma BinaryDenotes(env: Env, e: Expr, t: int)
    requires ValidEnv(env) && e.BinaryExpr? && LiteralOf(e.lhs).None? && LiteralOf(e.rhs).None?
    ensures Denote(env, e, t)
         == BinaryMeaning(env.lib, e.op, e.returnBool, e.matching, Denote(env, e.lhs, t), Denote(env, e.rhs, t))
  {
    hide BinaryMeaning;
  }

  lemma TwoSidedPreserved(env: Env, e: Expr, p: Plan, l: Plan, r: Plan, steps: seq<int>)
    requires ValidEnv(env) && StepsInQuery(env, steps) && e.BinaryExpr?
    requires LiteralOf(e.lhs).None? && LiteralOf(e.rhs).None?
    requires p == BinaryPlan(env.config, e.op, e.returnBool, e.matching, l, r) && !l.isScalar && !r.isScalar
    requires Translate(env.config, e) == Some(p)
    requires PlanTable(env, p, steps) == TwoSided(env, p, PlanTable(env, l, steps), PlanTable(env, r, steps), steps)
    requires Means(env, e.lhs, steps, PlanTable(env, l, steps)) && Means(env, e.rhs, steps, PlanTable(env, r, steps))
    requires !ScalarLooking(env, e.lhs, steps) && !ScalarLooking(env, e.rhs, steps)
    requires VectorSide(env, Some(l), steps) && VectorSide(env, Some(r), steps)
    ensures Preserved(env, e, steps)
  {
    hide Denote;
    hide BinaryMeaning;
    forall t
      ensures Denote(env, e, t)
           == BinaryMeaning(env.lib, p.binaryOp, p.returnBool, p.matching, Denote(env, e.lhs, t), Denote(env, e.rhs, t))
    {
      BinaryDenotes(env, e, t);
    }
    hide PlanTable;
    hide TwoSided;
    hide Means;
    hide ScalarLooking;
    hide VectorSide;
    VectorsMean(env, p, e, e.lhs, e.rhs, steps, PlanTable(env, l, steps), PlanTable(env, r, steps));
  }

  /** The plan of a binary expression whose sides are both plans. */
  lemma TwoSidedPlan(env: Env, e: Expr, steps: seq<int>)
    requires ValidEnv(env) && e.BinaryExpr?
    requires var l, r := Translate(env.config, e.lhs), Translate(env.config, e.rhs);
             l.Some? && r.Some? && !l.value.isScalar && !r.value.isScalar
    ensures var l, r := Translate(env.config, e.lhs).value, Translate(env.config, e.rhs).value;
            var p := BinaryPlan(env.config, e.op, e.returnBool, e.matching, l, r);
            && Translate(env.config, e) == Some(p)
            && PlanTable(env, p, steps) == TwoSided(env, p, PlanTable(env, l, steps), PlanTable(env, r, steps), steps)
  {
    hide TwoSided;
    hide FlatVec;
  }

  lemma UnaryPreserved(env: Env, e: Expr, steps: seq<int>)
    requires ValidEnv(env) && e.UnaryExpr? && Preserved(env, e.expr, steps)
    requires e.negate ==> !ScalarLooking(env, e.expr, steps)
    ensures Preserved(env, e, steps)
  {
    var inner := Translate(env.config, e.expr).value;
    var side := PlanTable(env, inner, steps);
    if e.negate {
      var p := NegationPlan(inner);
      assert PlanTable(env, NumberPlan(0.0), steps) == Some(Literal(env, 0.0));
      assert PlanTable(env, p, steps) == TwoSided(env, p, Some(Literal(env, 0.0)), side, steps);
      hide PlanTable;
      hide TwoSided;
      hide Means;
      NegationMeans(env, e.expr, p, steps, side);
    } else {
      SameMeaning(env, e, e.expr, steps, side);
    }
  }

  lemma SameMeaning(env: Env, e: Expr, inner: Expr, steps: seq<int>, result: Option<Table>)
    requires ValidEnv(env) && forall t :: Denote(env, e, t) == Denote(env, inner, t)
    ensures Means(env, e, steps, result) <==> Means(env, inner, steps, result)
  {
    hide Denote;
  }

  /** For every expression in normal form whose operands are vectors and whose fetches are
      faithful, evaluating the plan over the fetched rows yields at every step the meaning of
      the expression over the whole history, and an error exactly when some step has no
      meaning. */
  lemma {:induction false} TranslationPreservesMeaning(env: Env, e: Expr, steps: seq<int>)
    requires ValidEnv(env) && StepsInQuery(env, steps)
    requires NormalForm(e) && VectorOperands(env, e, steps) && FetchFaithful(env, e)
    ensures Preserved(env, e, steps)
    decreases e
  {
    hide Preserved;
    hide Denote;
    hide ScalarLooking;
    if Spine(e) {
      SpinePreserved(env, e, steps);
    } else {
      match e
      case Call(fn, args) =>
        TranslationPreservesMeaning(env, args[0], steps);
        MathPreserved(env, e, steps);
      case BinaryExpr(_, _, _, lhs, rhs) =>
        if LiteralOf(rhs).Some? {
          TranslationPreservesMeaning(env, lhs, steps);
          NumberOnTheRight(env, e, steps);
        } else if LiteralOf(lhs).Some? {
          TranslationPreservesMeaning(env, rhs, steps);
          NumberOnTheLeft(env, e, steps);
        } else {
          TranslationPreservesMeaning(env, lhs, steps);
          TranslationPreservesMeaning(env, rhs, steps);
          VectorsPreserved(env, e, steps);
        }
      case UnaryExpr(_, inner) =>
        TranslationPreservesMeaning(env, inner, steps);
        UnaryPreserved(env, e, steps);
      case ParenExpr(inner) =>
        TranslationPreservesMeaning(env, inner, steps);
        ParenPreserved(env, e, steps);
    }
  }

  lemma ParenPreserved(env: Env, e: Expr, steps: seq<int>)
    requires ValidEnv(env) && e.ParenExpr? && Preserved(env, e.expr, steps)
    ensures Preserved(env, e, steps)
  {
    SameMeaning(env, e, e.expr, steps, PlanTable(env, Translate(env.config, e.expr).value, steps));
    hide Means;
    hide PlanTable;
  }

  /** The whole program: transpile, fetch and evaluate. */
  method RunQuery(env: Env, e: Expr, steps: seq<int>) returns (result: Result<Matrix>)
    requires ValidEnv(env) && StepsInQuery(env, steps)
    requires NormalForm(e) && VectorOperands(env, e, steps) && FetchFaithful(env, e)
    ensures result.Ok? ==> MatrixColumns.WellFormed(result.value) && IsTableOf(env, e, steps, TableOf(result.value))
    ensures result.Ok? <==> forall t :: t in steps ==> Denote(env, e, t).Some?
  {
    TranslationPreservesMeaning(env, e, steps);
    hide PlanTable;
    hide Denote;
    hide NormalForm;
    hide VectorOperands;
    hide FetchFaithful;
    var plan := Transpile(env.config, e);
    result := Evaluate(env, plan.value.Value(), steps);
  }
}

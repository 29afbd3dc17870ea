/** Evaluation of a whole plan over the steps of a range query (eval/evaluator.go:52-324):
    fetch and evaluate a flat plan, or evaluate the sides of a binary one and combine. */
module PlanEval {
  import opened Types
  import opened Columns
  import opened Plans
  import opened LabelKeys
  import opened Aggregation
  import opened InstantEval
  import opened MatrixColumns
  import opened BinaryVectors
  import opened BinaryEval
  import opened RangeQuery
  import opened FetchWindow
  import StepFirst
  import opened Translator

  /** Tells whether a matcher accepts a value. */
  type Engine = (Matcher, string) -> bool

  /** What a query runs against: the stored series of each metric, what a matcher means
      (a regular expression is about the whole value), and what the database makes of it
      (translator/plan.go:175 hands it the bare expression). */
  datatype Env = Env(lib: Lib, metrics: map<string, Db>, matches: Engine, searches: Engine, config: Config)

  /** What is fixed of a matcher: equality and inequality mean what they say. */
  predicate Meets(m: Matcher, v: string) {
    (m.op == "=" ==> v == m.value) && (m.op == "!=" ==> v != m.value)
  }

  predicate IsRegex(m: Matcher) { m.op != "=" && m.op != "!=" }

  ghost predicate SoundEngine(engine: Engine) {
    forall m, v :: !IsRegex(m) ==> (engine(m, v) <==> Meets(m, v))
  }

  /** What a regular expression accepts is left open, but an expression that matches a
      value as a whole is found in it. */
  ghost predicate SoundEngines(matches: Engine, searches: Engine) {
    && SoundEngine(matches) && SoundEngine(searches)
    && (forall m: Matcher, v :: m.op == "=~" && matches(m, v) ==> searches(m, v))
    && (forall m: Matcher, v :: m.op == "!~" && searches(m, v) ==> matches(m, v))
  }

  /** The metric name is not among the stored labels (proxy/clickhouse/writer.go:123-129). */
  ghost predicate Nameless(db: Db) {
    forall l :: l in db ==> "__name__" !in l
  }

  ghost predicate ValidEnv(env: Env) {
    && (forall name :: name in env.metrics ==> ValidDb(env.metrics[name]) && Nameless(env.metrics[name]))
    && SoundEngines(env.matches, env.searches)
    && 0 <= env.config.stalenessMs && env.config.stalenessMs % 1000 == 0
    && env.config.startMs <= env.config.endMs
  }

  function Stored(env: Env, name: string): Db {
    if name in env.metrics then env.metrics[name] else map[]
  }

  function Accepts(engine: Engine, ms: seq<Matcher>, l: Labels): bool {
    forall m :: m in ms ==> engine(m, Get(l, m.name))
  }

  /** The stored series of a metric that the database finds for the label matchers. */
  function Rows(env: Env, name: string, ms: seq<Matcher>): Db {
    map l | l in Stored(env, name) && Accepts(env.searches, ms, l) :: Stored(env, name)[l]
  }

  lemma RowsValid(env: Env, name: string, ms: seq<Matcher>)
    requires ValidEnv(env)
    ensures ValidDb(Rows(env, name, ms))
  {
    assert ValidDb(Stored(env, name));
  }

  /** The part of a plan that is evaluated after the fetch. */
  function Flat(p: Plan): EvalPlan {
    EvalPlan(p.funcName, p.aggParam, p.smoothing, p.rangeMs, p.offsetMs, p.aggChain, p.mathChain)
  }

  ghost function FetchedRows(env: Env, p: Plan): (db: Db)
    requires ValidEnv(env)
    ensures ValidDb(db)
  {
    RowsValid(env, p.metricName, p.matchers);
    FetchValid(Rows(env, p.metricName, p.matchers), p.data);
    Fetch(Rows(env, p.metricName, p.matchers), p.data)
  }

  ghost function FlatVec(env: Env, p: Plan, t: int): Vec
    requires ValidEnv(env)
  {
    StepVec(env.lib, MatrixMath(env.lib), Flat(p), FetchedRows(env, p), t, env.config.stalenessMs)
  }

  ghost function FlatColumns(env: Env, p: Plan): int -> Vec
    requires ValidEnv(env)
  {
    (t: int) => FlatVec(env, p, t)
  }

  /** A literal evaluates to one sample, without labels, at the start of the query. */
  function Literal(env: Env, val: real): Table {
    map[map[] := [Point(env.config.startMs, val)]]
  }

  function ScalarOp(lib: Lib, p: Plan, scalar: real, onLeft: bool): real -> Option<real> {
    v => WithScalar(lib, p.binaryOp, p.returnBool, onLeft, scalar, v)
  }

  /** isScalarResult: one series, and it has no labels. */
  ghost predicate LooksScalar(tab: Table) {
    tab.Keys == {map[]}
  }

  /** extractScalarValue. */
  function FirstValue(tab: Table): real {
    if map[] in tab && tab[map[]] != [] then tab[map[]][0].v else 0.0
  }

  /** One side is a number: the operator on every sample, then the math. */
  ghost function OneSided(env: Env, p: Plan, side: Option<Table>, scalar: real, onLeft: bool): Option<Table> {
    match side
    case Some(tab) => Some(MapTable(ChainFn(env.lib, p.mathChain), ScalarTable(ScalarOp(env.lib, p, scalar, onLeft), tab)))
    case None => None
  }

  ghost predicate NeverAmbiguous(env: Env, p: Plan, l: Table, r: Table, steps: seq<int>) {
    forall t :: t in steps ==> BinaryColumn(env.lib, p.binaryOp, p.returnBool, p.matching, l, r, t).Some?
  }

  ghost function Pointwise(env: Env, p: Plan, l: Table, r: Table, steps: seq<int>): Table {
    Columnwise(steps, BinaryColumns(env.lib, p.binaryOp, p.returnBool, p.matching, l, r))
  }

  /** Both sides are plans. A side that looks like a scalar is used as one, through its
      first sample, and the math of the plan is then forgotten. */
  ghost function TwoSided(env: Env, p: Plan, l: Option<Table>, r: Option<Table>, steps: seq<int>): Option<Table> {
    if l.None? || r.None? then None
    else if LooksScalar(r.value) then Some(ScalarTable(ScalarOp(env.lib, p, FirstValue(r.value), false), l.value))
    else if LooksScalar(l.value) then Some(ScalarTable(ScalarOp(env.lib, p, FirstValue(l.value), true), r.value))
    else if NeverAmbiguous(env, p, l.value, r.value, steps) then
      Some(MapTable(ChainFn(env.lib, p.mathChain), Pointwise(env, p, l.value, r.value, steps)))
    else None
  }

  /** The table that a plan evaluates to over the steps; None is an error. */
  ghost function PlanTable(env: Env, p: Plan, steps: seq<int>): Option<Table>
    requires ValidEnv(env)
    decreases p
  {
    if p.isScalar then Some(Literal(env, p.scalarVal))
    else if p.exprType != "binary" then Some(Columnwise(steps, FlatColumns(env, p)))
    else if p.scalarRHS.Some? && p.scalarLHS.Some? then
      OneSided(env, p, Some(Literal(env, p.scalarLHS.value)), p.scalarRHS.value, false)
    else
      var l := if p.lhs.Some? then PlanTable(env, p.lhs.value, steps) else None;
      var r := if p.rhs.Some? then PlanTable(env, p.rhs.value, steps) else None;
      if p.scalarRHS.Some? then OneSided(env, p, l, p.scalarRHS.value, false)
      else if p.scalarLHS.Some? then OneSided(env, p, r, p.scalarLHS.value, true)
      else TwoSided(env, p, l, r, steps)
  }

  // ---- Labels stay clean ----

  lemma ColumnsClean(tab: Table)
    requires Normal(tab) && forall t :: CleanVec(Column(tab, t))
    ensures CleanTable(tab)
  {
    forall l | l in tab ensures Clean(l) {
      PointAtHit(tab[l], 0);
      assert l in Column(tab, tab[l][0].ts);
    }
  }

  lemma {:induction false} AggregateChainClean(lib: Lib, m: Vec, chain: seq<AggStep>)
    requires CleanVec(m)
    ensures CleanVec(AggregateChain(lib, m, chain))
  {
    hide CleanVec;
    if chain != [] {
      AggregateChainClean(lib, m, chain[..|chain| - 1]);
      AggregateVecClean(lib, AggregateChain(lib, m, chain[..|chain| - 1]), chain[|chain| - 1]);
    }
  }

  lemma StepVecClean(lib: Lib, f: (MathStep, real) -> real, plan: EvalPlan, db: Db, t: int, staleness: int)
    requires ValidDb(db)
    ensures CleanVec(StepVec(lib, f, plan, db, t, staleness))
  {
    InstantVecClean(lib, plan, db, t, staleness);
    AggregateChainClean(lib, InstantVec(lib, plan, db, t, staleness), plan.aggChain);
  }

  lemma BinaryVecClean(lib: Lib, op: string, returnBool: bool, mt: Matching, l: Vec, r: Vec)
    requires CleanVec(l) && CleanVec(r)
    ensures CleanVec(OrEmpty(BinaryVec(lib, op, returnBool, mt, l, r)))
  {
    forall p | p in Shapes(mt, l) ensures Clean(p) {
      GroupLabelsClean(Owner(mt, l, p), mt.labels, !mt.on);
    }
  }

  /** A table built from clean vectors is well formed. */
  lemma ColumnwiseClean(steps: seq<int>, f: int -> Vec)
    requires IncreasingTimes(steps) && forall t :: CleanVec(f(t))
    ensures Normal(Columnwise(steps, f)) && CleanTable(Columnwise(steps, f))
  {
    ColumnwiseMeaning(steps, f);
    assert CleanVec(map[]);
    ColumnsClean(Columnwise(steps, f));
  }

  // ---- The program ----

  method NewLiteral(env: Env, val: real) returns (m: Matrix)
    ensures WellFormed(m) && TableOf(m) == Literal(env, val)
  {
    m := [Series(map[], [Point(env.config.startMs, val)])];
    assert m[..0] == [];
    assert Clean(map[]);
  }

  method EvalFlat(env: Env, p: Plan, steps: seq<int>) returns (m: Matrix)
    requires ValidEnv(env) && IncreasingTimes(steps)
    ensures WellFormed(m) && TableOf(m) == Columnwise(steps, FlatColumns(env, p))
  {
    ghost var f := FlatColumns(env, p);
    ghost var db := FetchedRows(env, p);
    RowsValid(env, p.metricName, p.matchers);
    FetchValid(Rows(env, p.metricName, p.matchers), p.data);
    m := BuildMatrix(env.lib, Flat(p), Fetch(Rows(env, p.metricName, p.matchers), p.data), steps, env.config.stalenessMs);
    forall t ensures CleanVec(f(t)) {
      StepVecClean(env.lib, MatrixMath(env.lib), Flat(p), db, t, env.config.stalenessMs);
    }
    ColumnwiseMeaning(steps, f);
    ColumnwiseClean(steps, f);
    StepFirst.RangeResultUnique(env.lib, MatrixMath(env.lib), Flat(p), db, steps, env.config.stalenessMs, TableOf(m), Columnwise(steps, f));
  }

  lemma NoMath(lib: Lib, tab: Table)
    ensures MapTable(ChainFn(lib, []), tab) == tab
  {
    forall l | l in tab ensures MapPoints(ChainFn(lib, []), tab[l]) == tab[l] {
    }
  }

  lemma ScalarLook(m: Matrix)
    requires WellFormed(m)
    ensures LooksScalar(TableOf(m)) <==> |m| == 1 && m[0].labels == map[]
    ensures LooksScalar(TableOf(m)) ==> m[0].points != [] && FirstValue(TableOf(m)) == m[0].points[0].v
  {
    TableOfElements(m);
    assert forall i :: 0 <= i < |m| ==> m[i].labels in TableOf(m).Keys;
  }

  lemma PointwiseResult(env: Env, p: Plan, l: Table, r: Table, steps: seq<int>, tab: Table)
    requires IncreasingTimes(steps) && CleanTable(l) && CleanTable(r) && NeverAmbiguous(env, p, l, r, steps)
    requires IsPointwise(env.lib, p.binaryOp, p.returnBool, p.matching, l, r, steps, tab)
    ensures tab == Pointwise(env, p, l, r, steps) && Normal(tab) && CleanTable(tab)
  {
    var f := BinaryColumns(env.lib, p.binaryOp, p.returnBool, p.matching, l, r);
    forall t ensures CleanVec(f(t)) {
      ColumnClean(l, t);
      ColumnClean(r, t);
      BinaryVecClean(env.lib, p.binaryOp, p.returnBool, p.matching, Column(l, t), Column(r, t));
    }
    ColumnwiseClean(steps, f);
    ColumnwiseMeaning(steps, f);
    hide BinaryColumn;
    hide Column;
    TableExtensionality(tab, Columnwise(steps, f));
  }

  /** Two sides that are both vectors. */
  method EvalVectors(env: Env, p: Plan, l: Matrix, r: Matrix, steps: seq<int>) returns (result: Result<Matrix>)
    requires IncreasingTimes(steps) && WellFormed(l) && WellFormed(r)
    ensures result.Ok? <==> NeverAmbiguous(env, p, TableOf(l), TableOf(r), steps)
    ensures result.Ok? ==>
              && WellFormed(result.value)
              && TableOf(result.value) == MapTable(ChainFn(env.lib, p.mathChain), Pointwise(env, p, TableOf(l), TableOf(r), steps))
  {
    hide IsPointwise;
    hide BinaryColumn;
    result := EvalBinaryMatrix(env.lib, l, r, steps, p.binaryOp, p.matching, p.returnBool);
    if result.Ok? {
      PointwiseResult(env, p, TableOf(l), TableOf(r), steps, TableOf(result.value));
      var m := EvalMath(env, result.value, p.mathChain);
      result := Ok(m);
    }
  }

  method EvalMath(env: Env, m: Matrix, chain: seq<MathStep>) returns (m': Matrix)
    requires DistinctMatrix(m) && CleanTable(TableOf(m))
    requires Normal(TableOf(m))
    ensures WellFormed(m') && TableOf(m') == MapTable(ChainFn(env.lib, chain), TableOf(m))
  {
    m' := ApplyMathChainMatrix(env.lib, m, chain);
    ImageTable(m, m', ChainFn(env.lib, chain));
    MapTableNormal(ChainFn(env.lib, chain), TableOf(m));
  }

  /** applyScalarBinary. */
  method EvalScalar(env: Env, p: Plan, side: Matrix, scalar: real, onLeft: bool) returns (m: Matrix)
    requires WellFormed(side)
    ensures WellFormed(m) && TableOf(m) == ScalarTable(ScalarOp(env.lib, p, scalar, onLeft), TableOf(side))
  {
    m := ApplyScalarMatrix(env.lib, side, scalar, p.binaryOp, p.returnBool, onLeft);
  }

  method EvalTwoSided(env: Env, p: Plan, l: Matrix, r: Matrix, steps: seq<int>) returns (result: Result<Matrix>)
    requires IncreasingTimes(steps) && WellFormed(l) && WellFormed(r)
    ensures result.Ok? <==> TwoSided(env, p, Some(TableOf(l)), Some(TableOf(r)), steps).Some?
    ensures result.Ok? ==>
              && WellFormed(result.value)
              && Some(TableOf(result.value)) == TwoSided(env, p, Some(TableOf(l)), Some(TableOf(r)), steps)
  {
    ScalarLook(l);
    ScalarLook(r);
    hide WellFormed;
    hide LooksScalar;
    hide FirstValue;
    hide NeverAmbiguous;
    if |r| == 1 && r[0].labels == map[] {
      var m := EvalScalar(env, p, l, r[0].points[0].v, false);
      return Ok(m);
    }
    if |l| == 1 && l[0].labels == map[] {
      var m := EvalScalar(env, p, r, l[0].points[0].v, true);
      return Ok(m);
    }
    result := EvalVectors(env, p, l, r, steps);
  }

  /** One side is a number. */
  method EvalOneSided(env: Env, p: Plan, side: Result<Matrix>, scalar: real, onLeft: bool) returns (result: Result<Matrix>)
    requires side.Ok? ==> WellFormed(side.value)
    ensures result.Ok? <==> side.Ok?
    ensures OneSided(env, p, None, scalar, onLeft) == None
    ensures result.Ok? ==>
              && WellFormed(result.value)
              && Some(TableOf(result.value)) == OneSided(env, p, Some(TableOf(side.value)), scalar, onLeft)
  {
    if side.Err? {
      return side;
    }
    var m := EvalScalar(env, p, side.value, scalar, onLeft);
    m := EvalMath(env, m, p.mathChain);
    return Ok(m);
  }

  /** A side of a binary plan; a missing side is the nil plan. */
  method EvalSide(env: Env, side: Option<Plan>, steps: seq<int>) returns (result: Result<Matrix>)
    requires ValidEnv(env) && IncreasingTimes(steps)
    ensures result.Ok? <==> side.Some? && PlanTable(env, side.value, steps).Some?
    ensures result.Ok? ==>
              WellFormed(result.value) && Some(TableOf(result.value)) == PlanTable(env, side.value, steps)
    decreases side, 0
  {
    if side.None? {
      return Err("nil plan");
    }
    result := Evaluate(env, side.value, steps);
  }

  /** EvalPlan and evalBinaryPlan for the steps of a range query. */
  method Evaluate(env: Env, p: Plan, steps: seq<int>) returns (result: Result<Matrix>)
    requires ValidEnv(env) && IncreasingTimes(steps)
    ensures result.Ok? <==> PlanTable(env, p, steps).Some?
    ensures result.Ok? ==> WellFormed(result.value) && Some(TableOf(result.value)) == PlanTable(env, p, steps)
    decreases p, 1
  {
    hide WellFormed;
    hide OneSided;
    hide NeverAmbiguous;
    hide FlatVec;
    hide Literal;
    if p.isScalar {
      var m := NewLiteral(env, p.scalarVal);
      return Ok(m);
    }
    if p.exprType != "binary" {
      var m := EvalFlat(env, p, steps);
      return Ok(m);
    }
    if p.scalarRHS.Some? && p.scalarLHS.Some? {
      var m := NewLiteral(env, p.scalarLHS.value);
      result := EvalOneSided(env, p, Ok(m), p.scalarRHS.value, false);
      return;
    }
    if p.scalarRHS.Some? {
      var side := EvalSide(env, p.lhs, steps);
      result := EvalOneSided(env, p, side, p.scalarRHS.value, false);
      return;
    }
    if p.scalarLHS.Some? {
      var side := EvalSide(env, p.rhs, steps);
      result := EvalOneSided(env, p, side, p.scalarLHS.value, true);
      return;
    }
    var l := EvalSide(env, p.lhs, steps);
    if l.Err? {
      return l;
    }
    result := EvalSide(env, p.rhs, steps);
    if result.Ok? {
      result := EvalTwoSided(env, p, l.value, result.value, steps);
    }
  }
}

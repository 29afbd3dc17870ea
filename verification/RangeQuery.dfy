/** The series-first range evaluation (eval/evaluator.go:466-542) and its agreement with
    the step-first one. */
module RangeQuery {
  import opened Types
  import opened Columns
  import opened Plans
  import opened RangeFunctions
  import opened InstantEval
  import opened StepFirst
  import opened MatrixColumns
  import MatrixAggregation
  import Trigonometry

  /** All samples of one computed series. */
  function SeriesPoints(lib: Lib, plan: EvalPlan, s: seq<Sample>, steps: seq<int>, staleness: int): seq<Point>
    requires Increasing(s)
  {
    if steps == [] then []
    else
      var t := steps[|steps| - 1];
      var value := ComputeValue(lib, plan, s, t, staleness);
      SeriesPoints(lib, plan, s, steps[..|steps| - 1], staleness) + if value.Some? then [Point(t, value.value)] else []
  }

  lemma {:induction false} SeriesPointsIncrease(lib: Lib, plan: EvalPlan, s: seq<Sample>, steps: seq<int>, staleness: int)
    requires Increasing(s) && IncreasingTimes(steps)
    ensures var ps := SeriesPoints(lib, plan, s, steps, staleness);
            IncreasingPoints(ps) && forall i :: 0 <= i < |ps| ==> ps[i].ts in steps
  {
    hide ComputeValue;
    if steps != [] {
      var n := |steps| - 1;
      var front, ps := steps[..n], SeriesPoints(lib, plan, s, steps[..n], staleness);
      assert steps == front + [steps[n]];
      SeriesPointsIncrease(lib, plan, s, front, staleness);
      forall i | 0 <= i < |ps| ensures ps[i].ts < steps[n] {
        assert ps[i].ts in front;
      }
    }
  }

  lemma {:induction false} SeriesPointsAt(lib: Lib, plan: EvalPlan, s: seq<Sample>, steps: seq<int>, staleness: int, t: int)
    requires Increasing(s) && IncreasingTimes(steps)
    ensures PointAt(SeriesPoints(lib, plan, s, steps, staleness), t)
         == if t in steps then ComputeValue(lib, plan, s, t, staleness) else None
  {
    hide ComputeValue;
    if steps != [] {
      var n := |steps| - 1;
      var front, ps := steps[..n], SeriesPoints(lib, plan, s, steps[..n], staleness);
      assert steps == front + [steps[n]];
      SeriesPointsIncrease(lib, plan, s, front, staleness);
      SeriesPointsAt(lib, plan, s, front, staleness, t);
      forall i | 0 <= i < |ps| ensures ps[i].ts < steps[n] {
        assert ps[i].ts in front;
      }
      var value := ComputeValue(lib, plan, s, steps[n], staleness);
      if value.Some? {
        PointAtSnoc(ps, Point(steps[n], value.value), t);
      } else {
        assert SeriesPoints(lib, plan, s, steps, staleness) == ps;
      }
    }
  }

  /** The series that have at least one sample. */
  function SelectedTable(lib: Lib, plan: EvalPlan, db: Db, steps: seq<int>, staleness: int): Table
    requires ValidDb(db)
  {
    map l | l in db && SeriesPoints(lib, plan, db[l], steps, staleness) != [] ::
      SeriesPoints(lib, plan, db[l], steps, staleness)
  }

  lemma SelectedColumn(lib: Lib, plan: EvalPlan, db: Db, steps: seq<int>, staleness: int, t: int)
    requires ValidDb(db) && IncreasingTimes(steps)
    ensures Column(SelectedTable(lib, plan, db, steps, staleness), t)
         == if t in steps then InstantVec(lib, plan, db, t, staleness) else map[]
  {
    hide ComputeValue;
    forall l | l in db
      ensures PointAt(SeriesPoints(lib, plan, db[l], steps, staleness), t)
           == if t in steps then ComputeValue(lib, plan, db[l], t, staleness) else None
    {
      SeriesPointsAt(lib, plan, db[l], steps, staleness, t);
    }
  }

  lemma SelectedNormal(lib: Lib, plan: EvalPlan, db: Db, steps: seq<int>, staleness: int)
    requires ValidDb(db) && IncreasingTimes(steps)
    ensures Normal(SelectedTable(lib, plan, db, steps, staleness))
    ensures CleanTable(SelectedTable(lib, plan, db, steps, staleness))
  {
    hide ComputeValue;
    forall l | l in db ensures IncreasingPoints(SeriesPoints(lib, plan, db[l], steps, staleness)) {
      SeriesPointsIncrease(lib, plan, db[l], steps, staleness);
    }
  }

  /** One series over all steps, the offset applied once per step. */
  method EvalSeries(lib: Lib, plan: EvalPlan, s: seq<Sample>, steps: seq<int>, staleness: int) returns (ps: seq<Point>)
    requires Increasing(s)
    ensures ps == SeriesPoints(lib, plan, s, steps, staleness)
  {
    hide ComputeValueNoOffset;
    ps := [];
    for k := 0 to |steps|
      invariant ps == SeriesPoints(lib, plan, s, steps[..k], staleness)
    {
      assert steps[..k + 1][..k] == steps[..k];
      var t := steps[k];
      if plan.offsetMs != 0 {
        t := t - plan.offsetMs;
      }
      var value := ComputeValueNoOffset(lib, plan, s, t, staleness);
      if value.Some? {
        ps := ps + [Point(steps[k], value.value)];
      }
    }
    assert steps[..|steps|] == steps;
  }

  method SelectMatrix(lib: Lib, plan: EvalPlan, db: Db, steps: seq<int>, staleness: int) returns (m: Matrix)
    requires ValidDb(db)
    ensures DistinctMatrix(m) && TableOf(m) == SelectedTable(lib, plan, db, steps, staleness)
  {
    hide SeriesPoints;
    ghost var all := SelectedTable(lib, plan, db, steps, staleness);
    m := [];
    var todo := db.Keys;
    OutsideEnds(all, todo);
    hide Outside;
    while todo != {}
      invariant todo <= db.Keys
      invariant DistinctMatrix(m)
      invariant forall i :: 0 <= i < |m| ==> m[i].labels !in todo
      invariant TableOf(m) == Outside(all, todo)
      decreases todo
    {
      var l :| l in todo;
      OutsideStep(all, todo, l);
      todo := todo - {l};
      var ps := EvalSeries(lib, plan, db[l], steps, staleness);
      if |ps| > 0 {
        TableOfSnoc(m, Series(l, ps));
        m := m + [Series(l, ps)];
      }
    }
  }

  // ---- Pointwise math on a matrix ----

  function MapPoints(f: real -> real, ps: seq<Point>): seq<Point> {
    seq(|ps|, i requires 0 <= i < |ps| => Point(ps[i].ts, f(ps[i].v)))
  }

  ghost predicate IsMatrixImage(m: Matrix, m': Matrix, f: real -> real) {
    |m'| == |m| && forall i :: 0 <= i < |m| ==> m'[i] == Series(m[i].labels, MapPoints(f, m[i].points))
  }

  function MapTable(f: real -> real, tab: Table): Table {
    map l | l in tab :: MapPoints(f, tab[l])
  }

  lemma {:induction false} ImageTable(m: Matrix, m': Matrix, f: real -> real)
    requires DistinctMatrix(m) && IsMatrixImage(m, m', f)
    ensures DistinctMatrix(m') && TableOf(m') == MapTable(f, TableOf(m))
  {
    hide MapPoints;
    if m != [] {
      ImageTable(m[..|m| - 1], m'[..|m| - 1], f);
    }
  }

  lemma {:induction false} MapPointsAt(f: real -> real, ps: seq<Point>, t: int)
    ensures PointAt(MapPoints(f, ps), t) == if PointAt(ps, t).Some? then Some(f(PointAt(ps, t).value)) else None
  {
    if ps != [] {
      assert MapPoints(f, ps)[1..] == MapPoints(f, ps[1..]);
      MapPointsAt(f, ps[1..], t);
    }
  }

  lemma MapTableColumn(f: real -> real, tab: Table, t: int)
    ensures Column(MapTable(f, tab), t) == map l | l in Column(tab, t) :: f(Column(tab, t)[l])
  {
    hide MapPoints;
    forall l | l in tab
      ensures PointAt(MapPoints(f, tab[l]), t) == if PointAt(tab[l], t).Some? then Some(f(PointAt(tab[l], t).value)) else None
    {
      MapPointsAt(f, tab[l], t);
    }
  }

  lemma MapTableNormal(f: real -> real, tab: Table)
    requires Normal(tab)
    ensures Normal(MapTable(f, tab))
  {
  }

  function ChainFn(lib: Lib, chain: seq<MathStep>): real -> real {
    v => Chain(MatrixMath(lib), chain, v)
  }

  lemma MapPointsStep(lib: Lib, chain: seq<MathStep>, k: nat, ps: seq<Point>, qs: seq<Point>)
    requires k < |chain| && qs == MapPoints(ChainFn(lib, chain[..k]), ps)
    ensures MapPoints(v => MathOp(lib, chain[k], v), qs) == MapPoints(ChainFn(lib, chain[..k + 1]), ps)
  {
    hide MathOp;
    assert chain[..k + 1][..k] == chain[..k];
  }

  lemma SortIsIdentity(lib: Lib, step: MathStep, ps: seq<Point>)
    requires step.fn == "sort" || step.fn == "sort_desc"
    ensures MapPoints(v => MathOp(lib, step, v), ps) == ps
  {
    var qs := MapPoints(v => MathOp(lib, step, v), ps);
    assert forall i :: 0 <= i < |ps| ==> qs[i] == ps[i];
  }

  method MapSeries(lib: Lib, step: MathStep, ps: seq<Point>) returns (qs: seq<Point>)
    ensures qs == MapPoints(v => MathOp(lib, step, v), ps)
  {
    hide MathOp;
    qs := ps;
    for j := 0 to |ps|
      invariant |qs| == |ps|
      invariant forall i :: 0 <= i < j ==> qs[i] == Point(ps[i].ts, MathOp(lib, step, ps[i].v))
      invariant forall i :: j <= i < |ps| ==> qs[i] == ps[i]
    {
      qs := qs[j := qs[j].(v := MathOp(lib, step, qs[j].v))];
    }
  }

  /** applyMathChainMatrix: sorting steps reorder the series, every other step rewrites all
      values in place. */
  method ApplyMathChainMatrix(lib: Lib, m: Matrix, chain: seq<MathStep>) returns (m': Matrix)
    ensures IsMatrixImage(m, m', ChainFn(lib, chain))
  {
    hide MathOp;
    m' := m;
    assert IsMatrixImage(m, m', ChainFn(lib, chain[..0])) by {
      forall i | 0 <= i < |m| ensures MapPoints(ChainFn(lib, chain[..0]), m[i].points) == m[i].points {
      }
    }
    hide MapPoints;
    hide ChainFn;
    for k := 0 to |chain|
      invariant IsMatrixImage(m, m', ChainFn(lib, chain[..k]))
    {
      var step := chain[k];
      forall i | 0 <= i < |m|
        ensures MapPoints(v => MathOp(lib, step, v), m'[i].points) == MapPoints(ChainFn(lib, chain[..k + 1]), m[i].points)
      {
        MapPointsStep(lib, chain, k, m[i].points, m'[i].points);
      }
      if step.fn == "sort" || step.fn == "sort_desc" {
        forall i | 0 <= i < |m| ensures m'[i].points == MapPoints(ChainFn(lib, chain[..k + 1]), m[i].points) {
          SortIsIdentity(lib, step, m'[i].points);
        }
        continue;
      }
      ghost var before := m';
      for i := 0 to |m|
        invariant |m'| == |m|
        invariant forall j :: 0 <= j < i ==> m'[j] == Series(m[j].labels, MapPoints(ChainFn(lib, chain[..k + 1]), m[j].points))
        invariant forall j :: i <= j < |m| ==> m'[j] == before[j]
      {
        var qs := MapSeries(lib, step, m'[i].points);
        m' := m'[i := m'[i].(points := qs)];
      }
    }
    assert chain[..|chain|] == chain;
  }

  // ---- The evaluator and the refinement ----

  lemma WholeResult(lib: Lib, plan: EvalPlan, db: Db, steps: seq<int>, staleness: int, agg: Table)
    requires ValidDb(db) && IncreasingTimes(steps)
    requires IsAggregated(lib, plan.aggChain, SelectedTable(lib, plan, db, steps, staleness), agg)
    ensures IsRangeResult(lib, MatrixMath(lib), plan, db, steps, staleness, MapTable(ChainFn(lib, plan.mathChain), agg))
  {
    var f := ChainFn(lib, plan.mathChain);
    var out := MapTable(f, agg);
    MapTableNormal(f, agg);
    forall t ensures Column(out, t) == if t in steps then StepVec(lib, MatrixMath(lib), plan, db, t, staleness) else map[] {
      MapTableColumn(f, agg, t);
      SelectedColumn(lib, plan, db, steps, staleness, t);
      AggregateChainNothing(lib, plan.aggChain);
    }
  }

  lemma NothingToAggregate(lib: Lib, tab: Table)
    requires Normal(tab)
    ensures IsAggregated(lib, [], tab, tab)
  {
  }

  /** buildMatrixSD: all steps of one series before the next series, then aggregation and
      math on the whole matrix. */
  method BuildMatrix(lib: Lib, plan: EvalPlan, db: Db, steps: seq<int>, staleness: int) returns (m: Matrix)
    requires ValidDb(db) && IncreasingTimes(steps)
    ensures DistinctMatrix(m)
    ensures IsRangeResult(lib, MatrixMath(lib), plan, db, steps, staleness, TableOf(m))
  {
    hide SelectedTable;
    hide MapTable;
    hide IsAggregated;
    hide IsRangeResult;
    m := SelectMatrix(lib, plan, db, steps, staleness);
    SelectedNormal(lib, plan, db, steps, staleness);
    if |plan.aggChain| > 0 {
      m := MatrixAggregation.AggregateMatrix(lib, m, plan.aggChain);
    } else {
      NothingToAggregate(lib, TableOf(m));
      assert plan.aggChain == [];
    }
    WholeResult(lib, plan, db, steps, staleness, TableOf(m));
    var m' := ApplyMathChainMatrix(lib, m, plan.mathChain);
    ImageTable(m, m', ChainFn(lib, plan.mathChain));
    m := m';
  }

  /** Refinement: on every plan whose trigonometric steps, if any, are harmless, the series-first
      evaluator and the step-first evaluator produce the same samples for the same labels. */
  lemma SeriesFirstEqualsStepFirst(lib: Lib, plan: EvalPlan, db: Db, steps: seq<int>, staleness: int,
                                   fast: Table, simple: Table)
    requires ValidDb(db) && Trigonometry.SafeChain(lib, plan.mathChain)
    requires IsRangeResult(lib, MatrixMath(lib), plan, db, steps, staleness, fast)
    requires IsRangeResult(lib, VectorMath(lib), plan, db, steps, staleness, simple)
    ensures fast == simple
  {
    forall t ensures Column(fast, t) == Column(simple, t) {
      SameStepVec(lib, plan, db, t, staleness);
    }
    TableExtensionality(fast, simple);
  }

  /** The same, for the two programs themselves. */
  method RunBothEvaluators(lib: Lib, plan: EvalPlan, db: Db, steps: seq<int>, staleness: int)
    returns (fast: Matrix, simple: Matrix)
    requires ValidDb(db) && IncreasingTimes(steps) && Trigonometry.SafeChain(lib, plan.mathChain)
    ensures DistinctMatrix(fast) && DistinctMatrix(simple) && TableOf(fast) == TableOf(simple)
  {
    hide IsRangeResult;
    fast := BuildMatrix(lib, plan, db, steps, staleness);
    simple := BuildMatrixStepFirst(lib, plan, db, steps, staleness);
    SeriesFirstEqualsStepFirst(lib, plan, db, steps, staleness, TableOf(fast), TableOf(simple));
  }
}

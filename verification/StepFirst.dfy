/** The simple range evaluation: one instant evaluation per step, regrouped by series
    (eval/evaluator.go:961-996). */
module StepFirst {
  import opened Types
  import opened Columns
  import opened Plans
  import opened InstantEval

  /** The range result that a plan means: at every step the vector of that step. */
  ghost predicate IsRangeResult(lib: Lib, f: (MathStep, real) -> real, plan: EvalPlan, db: Db, steps: seq<int>,
                                staleness: int, tab: Table)
    requires ValidDb(db)
  {
    && Normal(tab)
    && forall t :: Column(tab, t) == if t in steps then StepVec(lib, f, plan, db, t, staleness) else map[]
  }

  /** At most one table is the range result of a plan. */
  lemma RangeResultUnique(lib: Lib, f: (MathStep, real) -> real, plan: EvalPlan, db: Db, steps: seq<int>,
                          staleness: int, a: Table, b: Table)
    requires ValidDb(db)
    requires IsRangeResult(lib, f, plan, db, steps, staleness, a)
    requires IsRangeResult(lib, f, plan, db, steps, staleness, b)
    ensures a == b
  {
    hide StepVec;
    hide Column;
    TableExtensionality(a, b);
  }

  lemma AppendColumnStep(tab: Table, t: int, v: Vec, l: Labels, x: real)
    requires l !in v
    ensures AppendColumn(tab, t, v[l := x])
         == AppendColumn(tab, t, v)[l := Old(AppendColumn(tab, t, v), l) + [Point(t, x)]]
  {
    assert Old(tab, l) + [] == Old(tab, l);
    assert Old(AppendColumn(tab, t, v), l) == Old(tab, l);
  }

  lemma AppendNothing(tab: Table, t: int)
    ensures AppendColumn(tab, t, map[]) == tab
  {
    var tab' := AppendColumn(tab, t, map[]);
    forall l | l in tab ensures tab'[l] == tab[l] {
      assert Old(tab, l) + [] == tab[l];
    }
  }

  /** Appends the samples of one step to the accumulated series. */
  method AccumulateStep(tab: Table, t: int, vec: Vector) returns (tab': Table)
    requires DistinctVector(vec)
    ensures tab' == AppendColumn(tab, t, VecOf(vec))
  {
    tab' := tab;
    AppendNothing(tab, t);
    assert VecOf(vec[..0]) == map[];
    hide AppendColumn;
    hide VecOf;
    for i := 0 to |vec|
      invariant tab' == AppendColumn(tab, t, VecOf(vec[..i]))
    {
      var s := vec[i];
      VecOfStep(vec, i);
      AppendColumnStep(tab, t, VecOf(vec[..i]), s.labels, s.v);
      tab' := tab'[s.labels := Old(tab', s.labels) + [Point(t, s.v)]];
    }
    assert vec[..|vec|] == vec;
  }

  /** The accumulated series as a matrix, in any order. */
  method ToMatrix(tab: Table) returns (m: Matrix)
    ensures DistinctMatrix(m) && TableOf(m) == tab
  {
    m := [];
    var todo := tab.Keys;
    OutsideEnds(tab, todo);
    hide Outside;
    while todo != {}
      invariant todo <= tab.Keys
      invariant DistinctMatrix(m)
      invariant forall i :: 0 <= i < |m| ==> m[i].labels !in todo
      invariant TableOf(m) == Outside(tab, todo)
      decreases todo
    {
      var l :| l in todo;
      OutsideStep(tab, todo, l);
      todo := todo - {l};
      TableOfSnoc(m, Series(l, tab[l]));
      m := m + [Series(l, tab[l])];
    }
  }

  method BuildMatrixStepFirst(lib: Lib, plan: EvalPlan, db: Db, steps: seq<int>, staleness: int) returns (m: Matrix)
    requires ValidDb(db) && IncreasingTimes(steps)
    ensures DistinctMatrix(m)
    ensures IsRangeResult(lib, VectorMath(lib), plan, db, steps, staleness, TableOf(m))
  {
    ghost var f := (t: int) => StepVec(lib, VectorMath(lib), plan, db, t, staleness);
    var acc: Table := map[];
    for k := 0 to |steps|
      invariant acc == Columnwise(steps[..k], f)
    {
      assert steps[..k + 1][..k] == steps[..k];
      var vec := EvalInstant(lib, plan, db, steps[k], staleness);
      acc := AccumulateStep(acc, steps[k], vec);
    }
    assert steps[..|steps|] == steps;
    ColumnwiseMeaning(steps, f);
    m := ToMatrix(acc);
  }
}

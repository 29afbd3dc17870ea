/** Binary operators on whole results (eval/evaluator.go:247-345 and 1346-1412). */
module BinaryEval {
  import opened Types
  import opened Columns
  import opened Plans
  import Aggregation
  import opened BinaryVectors
  import opened MatrixColumns
  import BinaryJoin
  import StepFirst

  // ---- Splitting a matrix by step ----

  function VectorAt(split: map<int, Vector>, t: int): Vector {
    if t in split then split[t] else []
  }

  /** `split` holds, at every time, the vector of the samples of `tab` at that time. */
  ghost predicate IsSplit(tab: Table, split: map<int, Vector>) {
    forall t :: DistinctVector(VectorAt(split, t)) && VecOf(VectorAt(split, t)) == Column(tab, t)
  }

  lemma SplitStep(tab: Table, l: Labels, front: seq<Point>, p: Point, split: map<int, Vector>)
    requires l !in tab && IsSplit(tab[l := front], split)
    requires forall i :: 0 <= i < |front| ==> front[i].ts < p.ts
    ensures IsSplit(tab[l := front + [p]], split[p.ts := VectorAt(split, p.ts) + [InstantSample(l, p.ts, p.v)]])
  {
    var s := InstantSample(l, p.ts, p.v);
    var split' := split[p.ts := VectorAt(split, p.ts) + [s]];
    ColumnSnoc(tab, l, front, p.ts);
    PointAtMiss(front, p.ts);
    BinaryJoin.AppendDistinct(VectorAt(split, p.ts), s);
    hide VecOf;
    hide DistinctVector;
    forall t ensures DistinctVector(VectorAt(split', t)) && VecOf(VectorAt(split', t)) == Column(tab[l := front + [p]], t) {
      PointAtSnoc(front, p, t);
      ColumnSnoc(tab, l, front, t);
      ColumnSnoc(tab, l, front + [p], t);
      assert DistinctVector(VectorAt(split, t)) && VecOf(VectorAt(split, t)) == Column(tab[l := front], t);
    }
  }

  lemma SplitNothing(tab: Table, l: Labels, split: map<int, Vector>)
    requires l !in tab && IsSplit(tab, split)
    ensures IsSplit(tab[l := []], split)
  {
    hide VecOf;
    forall t ensures Column(tab[l := []], t) == Column(tab, t) {
      ColumnSnoc(tab, l, [], t);
    }
  }

  /** vecsByStep on a matrix. */
  method VecsByStep(m: Matrix) returns (split: map<int, Vector>)
    requires DistinctMatrix(m) && Normal(TableOf(m))
    ensures IsSplit(TableOf(m), split)
  {
    split := map[];
    MatrixSeriesIncrease(m);
    assert IsSplit(TableOf(m[..0]), split) by {
      assert Column(map[], 0) == map[];
    }
    hide IsSplit;
    hide TableOf;
    hide DistinctMatrix;
    hide Normal;
    hide IncreasingPoints;
    for i := 0 to |m|
      invariant IsSplit(TableOf(m[..i]), split)
    {
      TableOfStep(m, i);
      split := SplitSeries(TableOf(m[..i]), m[i].labels, m[i].points, split);
    }
    assert m[..|m|] == m;
  }

  /** The inner loop, over the samples of one series. */
  method SplitSeries(ghost tab: Table, l: Labels, ps: seq<Point>, before: map<int, Vector>) returns (split: map<int, Vector>)
    requires l !in tab && IncreasingPoints(ps) && IsSplit(tab, before)
    ensures IsSplit(tab[l := ps], split)
  {
    hide IsSplit;
    hide VectorAt;
    split := before;
    SplitNothing(tab, l, split);
    assert ps[..0] == [];
    for j := 0 to |ps|
      invariant IsSplit(tab[l := ps[..j]], split)
    {
      var p := ps[j];
      SplitStep(tab, l, ps[..j], p, split);
      assert ps[..j + 1] == ps[..j] + [p];
      split := split[p.ts := VectorAt(split, p.ts) + [InstantSample(l, p.ts, p.v)]];
    }
    assert ps[..|ps|] == ps;
  }

  lemma MatrixSeriesIncrease(m: Matrix)
    requires DistinctMatrix(m) && Normal(TableOf(m))
    ensures forall j :: 0 <= j < |m| ==> IncreasingPoints(m[j].points)
  {
    TableOfElements(m);
  }

  // ---- Vector-vector operators ----

  /** The dispatch on the operator for the vectors of one step. */
  method StepOperator(lib: Lib, lhs: Vector, rhs: Vector, op: string, mt: Matching, returnBool: bool)
    returns (r: Result<Vector>)
    requires DistinctVector(lhs) && DistinctVector(rhs) && Aggregation.CleanVec(VecOf(lhs)) && Aggregation.CleanVec(VecOf(rhs))
    ensures r.Ok? <==> BinaryVec(lib, op, returnBool, mt, VecOf(lhs), VecOf(rhs)).Some?
    ensures r.Ok? ==>
              && DistinctVector(r.value)
              && VecOf(r.value) == BinaryVec(lib, op, returnBool, mt, VecOf(lhs), VecOf(rhs)).value
  {
    hide AndVec;
    hide OrVec;
    hide UnlessVec;
    hide Joined;
    hide Unambiguous;
    hide VecOf;
    if op == "and" {
      var out := VectorAnd(lhs, rhs, mt);
      r := Ok(out);
    } else if op == "or" {
      var out := VectorOr(lhs, rhs, mt);
      r := Ok(out);
    } else if op == "unless" {
      var out := VectorUnless(lhs, rhs, mt);
      r := Ok(out);
    } else {
      r := BinaryJoin.VectorBinaryOp(lib, lhs, rhs, op, mt, returnBool);
    }
  }

  /** The operator on the two columns at `t`. */
  ghost function BinaryColumn(lib: Lib, op: string, returnBool: bool, mt: Matching, l: Table, r: Table, t: int): Option<Vec> {
    BinaryVec(lib, op, returnBool, mt, Column(l, t), Column(r, t))
  }

  /** The result table is, at every step, the operator on the two vectors of that step; its
      series are distinct and their timestamps increase. */
  ghost predicate IsPointwise(lib: Lib, op: string, returnBool: bool, mt: Matching, l: Table, r: Table, steps: seq<int>,
                              tab: Table) {
    && Normal(tab)
    && (forall t :: t in steps ==> BinaryColumn(lib, op, returnBool, mt, l, r, t) == Some(Column(tab, t)))
    && (forall t :: t !in steps ==> Column(tab, t) == map[])
  }

  lemma ColumnwiseIsPointwise(lib: Lib, op: string, returnBool: bool, mt: Matching, l: Table, r: Table, steps: seq<int>,
                              f: int -> Vec)
    requires IncreasingTimes(steps)
    requires forall t :: t in steps ==> BinaryColumn(lib, op, returnBool, mt, l, r, t) == Some(f(t))
    ensures IsPointwise(lib, op, returnBool, mt, l, r, steps, Columnwise(steps, f))
  {
    ColumnwiseMeaning(steps, f);
  }

  /** The operator at one step, on the vectors that the split provides. */
  method EvalStep(lib: Lib, ghost l: Table, ghost r: Table, lhsByStep: map<int, Vector>, rhsByStep: map<int, Vector>,
                  t: int, op: string, mt: Matching, returnBool: bool) returns (vec: Result<Vector>)
    requires CleanTable(l) && CleanTable(r) && IsSplit(l, lhsByStep) && IsSplit(r, rhsByStep)
    ensures vec.Ok? <==> BinaryColumn(lib, op, returnBool, mt, l, r, t).Some?
    ensures vec.Ok? ==> DistinctVector(vec.value) && Some(VecOf(vec.value)) == BinaryColumn(lib, op, returnBool, mt, l, r, t)
  {
    ColumnClean(l, t);
    ColumnClean(r, t);
    assert DistinctVector(VectorAt(lhsByStep, t)) && VecOf(VectorAt(lhsByStep, t)) == Column(l, t);
    assert DistinctVector(VectorAt(rhsByStep, t)) && VecOf(VectorAt(rhsByStep, t)) == Column(r, t);
    hide BinaryVec;
    hide VecOf;
    hide Column;
    vec := StepOperator(lib, VectorAt(lhsByStep, t), VectorAt(rhsByStep, t), op, mt, returnBool);
  }

  ghost function OrEmpty(v: Option<Vec>): Vec {
    match v
    case Some(x) => x
    case None => map[]
  }

  ghost function BinaryColumns(lib: Lib, op: string, returnBool: bool, mt: Matching, l: Table, r: Table): int -> Vec {
    (t: int) => OrEmpty(BinaryColumn(lib, op, returnBool, mt, l, r, t))
  }

  /** The loop of evalBinaryPlan over the steps. */
  method AccumulateBinary(lib: Lib, ghost l: Table, ghost r: Table, lhsByStep: map<int, Vector>,
                          rhsByStep: map<int, Vector>, steps: seq<int>, op: string, mt: Matching, returnBool: bool)
    returns (acc: Result<Table>)
    requires CleanTable(l) && CleanTable(r) && IsSplit(l, lhsByStep) && IsSplit(r, rhsByStep)
    ensures acc.Ok? <==> forall t :: t in steps ==> BinaryColumn(lib, op, returnBool, mt, l, r, t).Some?
    ensures acc.Ok? ==> acc.value == Columnwise(steps, BinaryColumns(lib, op, returnBool, mt, l, r))
  {
    ghost var f := BinaryColumns(lib, op, returnBool, mt, l, r);
    var tab: Table := map[];
    hide BinaryColumn;
    hide IsSplit;
    hide CleanTable;
    hide AppendColumn;
    for k := 0 to |steps|
      invariant forall i :: 0 <= i < k ==> BinaryColumn(lib, op, returnBool, mt, l, r, steps[i]).Some?
      invariant tab == Columnwise(steps[..k], f)
    {
      var t := steps[k];
      var vec := EvalStep(lib, l, r, lhsByStep, rhsByStep, t, op, mt, returnBool);
      if vec.Err? {
        assert t in steps;
        return Err(vec.error);
      }
      assert f(t) == VecOf(vec.value);
      ColumnwiseStep(steps, k, f);
      hide BinaryColumns;
      tab := StepFirst.AccumulateStep(tab, t, vec.value);
    }
    assert steps[..|steps|] == steps;
    return Ok(tab);
  }

  lemma ColumnwiseStep(steps: seq<int>, k: nat, f: int -> Vec)
    requires k < |steps|
    ensures Columnwise(steps[..k + 1], f) == AppendColumn(Columnwise(steps[..k], f), steps[k], f(steps[k]))
  {
    assert steps[..k + 1][..k] == steps[..k];
  }

  /** evalBinaryPlan for two series operands: an error exactly when some step is ambiguous,
      the pointwise result otherwise. */
  method EvalBinaryMatrix(lib: Lib, lhs: Matrix, rhs: Matrix, steps: seq<int>, op: string, mt: Matching, returnBool: bool)
    returns (result: Result<Matrix>)
    requires WellFormed(lhs) && WellFormed(rhs) && IncreasingTimes(steps)
    ensures result.Ok? <==>
            forall t :: t in steps ==> BinaryColumn(lib, op, returnBool, mt, TableOf(lhs), TableOf(rhs), t).Some?
    ensures result.Ok? ==>
              && DistinctMatrix(result.value)
              && IsPointwise(lib, op, returnBool, mt, TableOf(lhs), TableOf(rhs), steps, TableOf(result.value))
  {
    ghost var l, r := TableOf(lhs), TableOf(rhs);
    var lhsByStep := VecsByStep(lhs);
    var rhsByStep := VecsByStep(rhs);
    hide BinaryColumn;
    hide IsSplit;
    hide IsPointwise;
    hide TableOf;
    hide Columnwise;
    var acc := AccumulateBinary(lib, l, r, lhsByStep, rhsByStep, steps, op, mt, returnBool);
    if acc.Err? {
      return Err(acc.error);
    }
    ColumnwiseIsPointwise(lib, op, returnBool, mt, l, r, steps, BinaryColumns(lib, op, returnBool, mt, l, r));
    var m := StepFirst.ToMatrix(acc.value);
    return Ok(m);
  }

  // ---- Scalar operands ----

  /** The sample that a value and a scalar operand produce, if any. */
  function WithScalar(lib: Lib, op: string, returnBool: bool, onLeft: bool, scalar: real, v: real): Option<real> {
    if onLeft then Combine(lib, op, returnBool, scalar, v) else Combine(lib, op, returnBool, v, scalar)
  }

  function ScalarVec(f: real -> Option<real>, v: Vec): Vec {
    map l | l in v && f(v[l]).Some? :: f(v[l]).value
  }

  function ScalarPoints(f: real -> Option<real>, ps: seq<Point>): seq<Point> {
    if ps == [] then []
    else
      var p := ps[|ps| - 1];
      ScalarPoints(f, ps[..|ps| - 1]) + if f(p.v).Some? then [Point(p.ts, f(p.v).value)] else []
  }

  lemma {:induction false} ScalarPointsMeaning(f: real -> Option<real>, ps: seq<Point>, t: int)
    requires IncreasingPoints(ps)
    ensures IncreasingPoints(ScalarPoints(f, ps))
    ensures forall i :: 0 <= i < |ScalarPoints(f, ps)| ==>
              exists j :: 0 <= j < |ps| && ps[j].ts == ScalarPoints(f, ps)[i].ts
    ensures PointAt(ScalarPoints(f, ps), t)
         == match PointAt(ps, t) case Some(v) => f(v) case None => None
  {
    if ps != [] {
      var n := |ps| - 1;
      var front, p := ps[..n], ps[n];
      var out := ScalarPoints(f, front);
      ScalarPointsMeaning(f, front, t);
      assert ps == front + [p];
      PointAtSnoc(front, p, t);
      forall i | 0 <= i < |out| ensures out[i].ts < p.ts {
        var j :| 0 <= j < |front| && front[j].ts == out[i].ts;
        assert ps[j].ts < p.ts;
      }
      if f(p.v).Some? {
        PointAtSnoc(out, Point(p.ts, f(p.v).value), t);
      } else {
        assert ScalarPoints(f, ps) == out;
        if t == p.ts {
          PointAtMiss(out, t);
        }
      }
      forall i | 0 <= i < |ScalarPoints(f, ps)| ensures exists j :: 0 <= j < |ps| && ps[j].ts == ScalarPoints(f, ps)[i].ts {
        if i < |out| {
          var j :| 0 <= j < |front| && front[j].ts == out[i].ts;
          assert ps[j].ts == out[i].ts;
        } else {
          assert ps[n].ts == p.ts;
        }
      }
    }
  }

  /** Series that keep no sample disappear. */
  function ScalarTable(f: real -> Option<real>, tab: Table): Table {
    map l | l in tab && ScalarPoints(f, tab[l]) != [] :: ScalarPoints(f, tab[l])
  }

  lemma ScalarTableColumn(f: real -> Option<real>, tab: Table, t: int)
    requires Normal(tab)
    ensures Column(ScalarTable(f, tab), t) == ScalarVec(f, Column(tab, t))
  {
    forall l | l in tab
      ensures PointAt(ScalarPoints(f, tab[l]), t) == match PointAt(tab[l], t) case Some(v) => f(v) case None => None
    {
      ScalarPointsMeaning(f, tab[l], t);
    }
    hide ScalarPoints;
  }

  lemma ScalarTableNormal(f: real -> Option<real>, tab: Table)
    requires Normal(tab)
    ensures Normal(ScalarTable(f, tab))
  {
    forall l | l in tab ensures IncreasingPoints(ScalarPoints(f, tab[l])) {
      ScalarPointsMeaning(f, tab[l], 0);
    }
  }

  /** applyScalarBinary on a matrix: at every time, the operator between each sample and
      the scalar. */
  method ApplyScalarMatrix(lib: Lib, m: Matrix, scalar: real, op: string, returnBool: bool, onLeft: bool)
    returns (result: Matrix)
    requires DistinctMatrix(m) && Normal(TableOf(m))
    ensures DistinctMatrix(result) && Normal(TableOf(result))
    ensures TableOf(result) == ScalarTable(v => WithScalar(lib, op, returnBool, onLeft, scalar, v), TableOf(m))
    ensures forall t :: Column(TableOf(result), t)
                     == ScalarVec(v => WithScalar(lib, op, returnBool, onLeft, scalar, v), Column(TableOf(m), t))
  {
    ghost var f := (v: real) => WithScalar(lib, op, returnBool, onLeft, scalar, v);
    result := [];
    assert TableOf(m[..0]) == map[] == ScalarTable(f, map[]);
    hide WithScalar;
    hide TableOf;
    hide ScalarTable;
    hide ScalarPoints;
    for i := 0 to |m|
      invariant DistinctMatrix(result)
      invariant TableOf(result) == ScalarTable(f, TableOf(m[..i]))
    {
      TableOfStep(m, i);
      var out := ApplyScalarSeries(lib, m[i].points, scalar, op, returnBool, onLeft);
      ScalarTableStep(f, TableOf(m[..i]), m[i].labels, m[i].points);
      if |out| > 0 {
        TableOfSnoc(result, Series(m[i].labels, out));
        NewSeries(result, m[i].labels);
        result := result + [Series(m[i].labels, out)];
      }
    }
    assert m[..|m|] == m;
    ScalarTableNormal(f, TableOf(m));
    forall t ensures Column(TableOf(result), t) == ScalarVec(f, Column(TableOf(m), t)) {
      ScalarTableColumn(f, TableOf(m), t);
    }
  }

  /** The inner loop, over the samples of one series. */
  method ApplyScalarSeries(lib: Lib, ps: seq<Point>, scalar: real, op: string, returnBool: bool, onLeft: bool)
    returns (out: seq<Point>)
    ensures out == ScalarPoints(v => WithScalar(lib, op, returnBool, onLeft, scalar, v), ps)
  {
    ghost var f := (v: real) => WithScalar(lib, op, returnBool, onLeft, scalar, v);
    hide WithScalar;
    out := [];
    for j := 0 to |ps|
      invariant out == ScalarPoints(f, ps[..j])
    {
      assert ps[..j + 1][..j] == ps[..j];
      var val := WithScalar(lib, op, returnBool, onLeft, scalar, ps[j].v);
      if val.Some? {
        out := out + [Point(ps[j].ts, val.value)];
      }
    }
    assert ps[..|ps|] == ps;
  }

  lemma ScalarTableStep(f: real -> Option<real>, tab: Table, l: Labels, ps: seq<Point>)
    requires l !in tab
    ensures l !in ScalarTable(f, tab)
    ensures ScalarTable(f, tab[l := ps])
         == if ScalarPoints(f, ps) != [] then ScalarTable(f, tab)[l := ScalarPoints(f, ps)] else ScalarTable(f, tab)
  {
    hide ScalarPoints;
  }

  lemma NewSeries(m: Matrix, l: Labels)
    requires DistinctMatrix(m) && l !in TableOf(m)
    ensures forall i :: 0 <= i < |m| ==> m[i].labels != l
  {
    TableOfElements(m);
  }
}

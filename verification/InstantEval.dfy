/** Evaluation of a flat plan at one time (eval/evaluator.go:360-462), its meaning as a
    map from labels, and the step-first range evaluation built on it
    (eval/evaluator.go:961-996). */
module InstantEval {
  import opened Types
  import opened Columns
  import opened Plans
  import LabelKeys
  import opened Aggregation
  import opened VectorAggregation
  import opened RangeFunctions
  import Trigonometry

  /** The fetched series, one per label map. */
  type Db = map<Labels, seq<Sample>>

  ghost predicate ValidDb(db: Db) {
    forall l :: l in db ==> Increasing(db[l]) && LabelKeys.Clean(l)
  }

  // ---- Meaning ----

  /** The series that have a value at `t`, with their values. */
  function InstantVec(lib: Lib, plan: EvalPlan, db: Db, t: int, staleness: int): Vec
    requires ValidDb(db)
  {
    map l | l in db && ComputeValue(lib, plan, db[l], t, staleness).Some? ::
      ComputeValue(lib, plan, db[l], t, staleness).value
  }

  function MathVec(f: (MathStep, real) -> real, chain: seq<MathStep>, v: Vec): Vec {
    map l | l in v :: Chain(f, chain, v[l])
  }

  /** Select, then aggregate, then apply the pointwise math `f`. */
  ghost function StepVec(lib: Lib, f: (MathStep, real) -> real, plan: EvalPlan, db: Db, t: int, staleness: int): Vec
    requires ValidDb(db)
  {
    MathVec(f, plan.mathChain, AggregateChain(lib, InstantVec(lib, plan, db, t, staleness), plan.aggChain))
  }

  /** On plans whose trigonometric steps are harmless the two kinds of math agree. */
  lemma SameStepVec(lib: Lib, plan: EvalPlan, db: Db, t: int, staleness: int)
    requires ValidDb(db) && Trigonometry.SafeChain(lib, plan.mathChain)
    ensures StepVec(lib, MatrixMath(lib), plan, db, t, staleness) == StepVec(lib, VectorMath(lib), plan, db, t, staleness)
  {
    var v := AggregateChain(lib, InstantVec(lib, plan, db, t, staleness), plan.aggChain);
    forall l | l in v ensures Chain(MatrixMath(lib), plan.mathChain, v[l]) == Chain(VectorMath(lib), plan.mathChain, v[l]) {
      Trigonometry.SafeChainsAgree(lib, plan.mathChain, v[l]);
    }
  }

  // ---- The program ----

  lemma EmptyVec(v: Vector)
    requires DistinctVector(v)
    ensures VecOf(v) == map[] <==> v == []
  {
    VecOfElements(v);
  }

  lemma AggregateNothing(lib: Lib, step: AggStep)
    ensures AggregateVec(lib, map[], step) == map[]
  {
  }

  lemma AggregateKeepsTime(lib: Lib, v: Vector, step: AggStep, r: Vector, t: int)
    requires DistinctVector(v) && DistinctVector(r) && VecOf(r) == AggregateVec(lib, VecOf(v), step)
    requires AllAt(v, t) && AllAt(r, SampleTime(v))
    ensures AllAt(r, t)
  {
    hide AggregateVec;
    EmptyVec(v);
    EmptyVec(r);
    if v == [] {
      AggregateNothing(lib, step);
    } else {
      SampleTimeOfStep(v, t);
    }
  }

  /** applyAggChain: innermost step first. */
  method ApplyAggChain(lib: Lib, vec: Vector, chain: seq<AggStep>, ghost t: int) returns (result: Vector)
    requires DistinctVector(vec) && CleanVec(VecOf(vec)) && AllAt(vec, t)
    ensures DistinctVector(result) && CleanVec(VecOf(result)) && AllAt(result, t)
    ensures VecOf(result) == AggregateChain(lib, VecOf(vec), chain)
  {
    hide AggregateVec;
    hide VecOf;
    hide CleanVec;
    hide DistinctVector;
    hide AllAt;
    result := vec;
    for i := 0 to |chain|
      invariant DistinctVector(result) && CleanVec(VecOf(result)) && AllAt(result, t)
      invariant VecOf(result) == AggregateChain(lib, VecOf(vec), chain[..i])
    {
      assert chain[..i + 1][..i] == chain[..i];
      var next := AggregateVector(lib, result, chain[i]);
      AggregateVecClean(lib, VecOf(result), chain[i]);
      AggregateKeepsTime(lib, result, chain[i], next, t);
      result := next;
    }
    assert chain[..|chain|] == chain;
  }

  /** Elementwise image of a vector. */
  ghost predicate IsImage(v: Vector, w: Vector, f: real -> real) {
    |w| == |v| && forall i :: 0 <= i < |v| ==> w[i] == v[i].(v := f(v[i].v))
  }

  lemma {:induction false} ImageVec(v: Vector, w: Vector, f: real -> real)
    requires IsImage(v, w, f) && DistinctVector(v)
    ensures DistinctVector(w) && VecOf(w) == map l | l in VecOf(v) :: f(VecOf(v)[l])
  {
    if v != [] {
      ImageVec(v[..|v| - 1], w[..|v| - 1], f);
    }
  }

  /** applyMathChain: every step rewrites the values in place. */
  method ApplyMathChain(lib: Lib, vec: Vector, chain: seq<MathStep>, ghost t: int) returns (result: Vector)
    requires DistinctVector(vec) && AllAt(vec, t)
    ensures DistinctVector(result) && AllAt(result, t)
    ensures VecOf(result) == MathVec(VectorMath(lib), chain, VecOf(vec))
  {
    hide VectorMathOp;
    result := vec;
    for k := 0 to |chain|
      invariant IsImage(vec, result, v => Chain(VectorMath(lib), chain[..k], v))
    {
      var step := chain[k];
      assert chain[..k + 1][..k] == chain[..k];
      ghost var before := result;
      for i := 0 to |result|
        invariant |result| == |vec|
        invariant forall j :: 0 <= j < i ==> result[j] == vec[j].(v := Chain(VectorMath(lib), chain[..k + 1], vec[j].v))
        invariant forall j :: i <= j < |vec| ==> result[j] == vec[j].(v := Chain(VectorMath(lib), chain[..k], vec[j].v))
      {
        result := result[i := result[i].(v := VectorMathOp(lib, step, result[i].v))];
      }
    }
    assert chain[..|chain|] == chain;
    ImageVec(vec, result, v => Chain(VectorMath(lib), chain, v));
  }

  /** The values at one time, collected over the series in any order. */
  method SelectInstant(lib: Lib, plan: EvalPlan, db: Db, t: int, staleness: int) returns (vec: Vector)
    requires ValidDb(db)
    ensures DistinctVector(vec) && AllAt(vec, t)
    ensures VecOf(vec) == InstantVec(lib, plan, db, t, staleness)
  {
    hide ComputeValue;
    ghost var all := InstantVec(lib, plan, db, t, staleness);
    vec := [];
    var todo := db.Keys;
    OutsideEnds(all, todo);
    hide Outside;
    while todo != {}
      invariant todo <= db.Keys
      invariant DistinctVector(vec) && AllAt(vec, t)
      invariant forall i :: 0 <= i < |vec| ==> vec[i].labels !in todo
      invariant VecOf(vec) == Outside(all, todo)
      decreases todo
    {
      var l :| l in todo;
      OutsideStep(all, todo, l);
      todo := todo - {l};
      var value := ComputeValue(lib, plan, db[l], t, staleness);
      if value.Some? {
        VecOfSnoc(vec, InstantSample(l, t, value.value));
        vec := vec + [InstantSample(l, t, value.value)];
      }
    }
  }

  lemma InstantVecClean(lib: Lib, plan: EvalPlan, db: Db, t: int, staleness: int)
    requires ValidDb(db)
    ensures CleanVec(InstantVec(lib, plan, db, t, staleness))
  {
  }

  /** evalInstantSD for the plans without absent, scalar, histogram or label functions. */
  method EvalInstant(lib: Lib, plan: EvalPlan, db: Db, t: int, staleness: int) returns (vec: Vector)
    requires ValidDb(db)
    ensures DistinctVector(vec) && AllAt(vec, t)
    ensures VecOf(vec) == StepVec(lib, VectorMath(lib), plan, db, t, staleness)
  {
    vec := SelectInstant(lib, plan, db, t, staleness);
    InstantVecClean(lib, plan, db, t, staleness);
    if |plan.aggChain| > 0 {
      vec := ApplyAggChain(lib, vec, plan.aggChain, t);
    }
    if |plan.mathChain| > 0 {
      vec := ApplyMathChain(lib, vec, plan.mathChain, t);
    }
  }
}

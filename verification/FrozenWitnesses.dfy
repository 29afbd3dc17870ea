/** Two small queries that are evaluated wrongly: a sum of sums over two steps, and the
    absolute value of a negation. */
module FrozenWitnesses {
  import opened Types
  import opened Columns
  import opened Plans
  import opened Aggregation
  import RangeFunctions
  import opened InstantEval
  import opened FetchWindow
  import Staleness
  import opened PointwiseLimits
  import opened Translator
  import opened PlanEval
  import opened Selectors
  import opened Meaning
  import opened Preservation
  import opened Hoisting
  import opened HoistingLimits
  import opened FrozenOperands
  import LabelKeys

  function X(): Selector { Selector("x", [], 0) }

  /** sum(x) */
  function SumX(): Expr { AggregateExpr(AggStep(Sum, [], false), VectorSelector(X())) }

  // ---- A sum that changes, added to itself ----

  function Twice(s: Expr): Expr { BinaryExpr("+", false, ONE_TO_ONE, s, s) }

  ghost predicate OneValue(env: Env, s: Expr, t: int, v: real)
    requires ValidEnv(env)
  {
    Denote(env, s, t) == Some(map[map[] := v])
  }

  lemma FirstOfChanging(env: Env, s: Expr, steps: seq<int>, t0: int, a: real, u: int, c: real)
    requires ValidEnv(env) && t0 in steps && OneValue(env, s, t0, a) && forall t :: t in steps ==> t0 <= t
    requires IsFirst(env, s, steps, u, c)
    ensures c == a
  {
    var none: Labels := map[];
    hide Denote;
    var one: Vec := map[none := a];
    assert none in one && one[none] == a && (map[none := c])[none] == c;
    assert Some(one) != Some(map[]);
  }

  /** An unlabelled series that changes, added to itself, is not twice itself. */
  lemma ChangingTwiceIsWrong(env: Env, s: Expr, steps: seq<int>, t0: int, t1: int, a: real, b: real)
    requires ValidEnv(env) && LiteralOf(s).None? && Preserved(env, s, steps) && Defined(env, s, steps)
    requires ScalarLooking(env, s, steps) && forall t :: t in steps ==> t0 <= t
    requires t0 in steps && t1 in steps && OneValue(env, s, t0, a) && OneValue(env, s, t1, b) && a != b
    ensures !Means(env, Twice(s), steps, PlanResult(env, Twice(s), steps))
  {
    assert "+" in ARITHMETIC;
    hide Denote;
    hide Preserved;
    hide ScalarLooking;
    hide Means;
    hide PlanResult;
    hide Defined;
    hide ARITHMETIC;
    var u, c := FrozenRightMeans(env, Twice(s), steps);
    FirstOfChanging(env, s, steps, t0, a, u, c);
    hide IsFirst;
    var none: Labels := map[];
    var now: Vec := map[none := b];
    InjectiveAgrees(env.lib, "+", now, now, a);
    assert now[none] != (map[none := a])[none];
    assert none in now;
    hide Agrees;
  }

  /** One series without labels: 1 at the first step and 2 a second later. */
  function Growing(): seq<Sample> { [Sample(0, 1.0, false), Sample(1000, 2.0, false)] }

  function GrowingDb(): Db { map[map[] := Growing()] }

  function GrowingEnv(): Env {
    Env(PLAIN, map["x" := GrowingDb()], Seeing(), Seeing(), Config(0, 1000, STALENESS))
  }

  function ValueAt(t: int): real { if t == 0 then 1.0 else 2.0 }

  lemma GrowingLookup(t: int)
    requires t == 0 || t == 1000
    ensures Increasing(Growing()) && RangeFunctions.ComputeValue(PLAIN, InstantCore(X()), Growing(), t, STALENESS) == Some(ValueAt(t))
    ensures !LostAtBoundary(Growing(), 0, 0, STALENESS)
  {
    var s := Growing();
    var i := if t == 0 then 0 else 1;
    assert Staleness.LatestAt(s, t, s[i]);
    LookupLatest(s, t, STALENESS, s[i]);
    InstantCoreValue(PLAIN, X(), s, t, STALENESS);
    hide RangeFunctions.ComputeValue;
    assert Staleness.LatestAt(s, 0, s[0]);
    OnlyLatest(s, 0, s[0]);
  }

  lemma GrowingIsValid()
    ensures ValidDb(GrowingDb()) && ValidEnv(GrowingEnv()) && StepsInQuery(GrowingEnv(), [0, 1000])
  {
    GrowingDbIsValid();
    hide GrowingDb;
    hide ValidDb;
    hide Nameless;
  }

  lemma GrowingDbIsValid()
    ensures ValidDb(GrowingDb()) && Nameless(GrowingDb())
  {
    GrowingLookup(0);
    hide LostAtBoundary;
    hide RangeFunctions.ComputeValue;
    hide Growing;
    assert LabelKeys.Clean(map[]);
  }

  lemma GrowingSelected()
    ensures ValidEnv(GrowingEnv()) && Selected(GrowingEnv(), X()) == GrowingDb()
    ensures FetchFaithful(GrowingEnv(), SumX())
  {
    GrowingIsValid();
    GrowingCompiled();
    hide ValidEnv;
    hide Growing;
    RegexFreeReadsAlike(GrowingEnv(), X());
    CompiledMeans(GrowingEnv(), X());
    GrowingLookup(0);
    hide LostAtBoundary;
    hide Selected;
    hide ReadsAlike;
    hide Compiled;
  }

  lemma GrowingCompiled()
    ensures NamesItsMetric(X()) && RegexFree(X()) && Compiled(GrowingEnv(), X()) == GrowingDb()
  {
    hide Growing;
  }

  lemma GrowingVec(t: int)
    requires t == 0 || t == 1000
    ensures ValidDb(GrowingDb()) && InstantVec(PLAIN, InstantCore(X()), GrowingDb(), t, STALENESS) == map[map[] := ValueAt(t)]
  {
    GrowingIsValid();
    GrowingLookup(t);
    hide RangeFunctions.ComputeValue;
    hide LostAtBoundary;
    hide Growing;
    hide ValueAt;
    hide InstantCore;
  }

  lemma SumOfOne(lib: Lib, v: real)
    ensures AggregateVec(lib, map[map[] := v], AggStep(Sum, [], false)) == map[map[] := v]
  {
    var none: Labels := map[];
    var m: Vec := map[none := v];
    GroupOfOne(lib, AggStep(Sum, [], false), m, none);
    AggregateOfOne(lib, Sum, m, none);
    hide AggregateVec;
    hide Aggregate;
  }

  lemma SumMeaning(env: Env, t: int, v: real)
    requires ValidEnv(env)
    requires InstantVec(env.lib, InstantCore(X()), Selected(env, X()), t, env.config.stalenessMs) == map[map[] := v]
    ensures OneValue(env, SumX(), t, v)
  {
    hide InstantVec;
    hide Selected;
    hide InstantCore;
    hide X;
    SumOfOne(env.lib, v);
    hide AggregateVec;
  }

  lemma GrowingSum(t: int)
    requires t == 0 || t == 1000
    ensures ValidEnv(GrowingEnv()) && OneValue(GrowingEnv(), SumX(), t, ValueAt(t))
  {
    GrowingSelected();
    GrowingVec(t);
    assert GrowingEnv().lib == PLAIN && GrowingEnv().config.stalenessMs == STALENESS;
    hide *;
    SumMeaning(GrowingEnv(), t, ValueAt(t));
  }

  lemma OneValuesLookScalar(env: Env, s: Expr, steps: seq<int>, t0: int, v: real)
    requires ValidEnv(env) && t0 in steps && OneValue(env, s, t0, v)
    requires forall t :: t in steps ==> exists w :: OneValue(env, s, t, w)
    ensures Defined(env, s, steps) && ScalarLooking(env, s, steps)
  {
    hide Denote;
    var none: Labels := map[];
    assert none in (map[none := v]);
    forall t | t in steps ensures Denote(env, s, t).Some? && Denote(env, s, t).value.Keys <= {map[]} {
      var w :| OneValue(env, s, t, w);
    }
  }

  /** sum(x) + sum(x) over two steps, of a series that is 1 and then 2, is not 2 and
      then 4. */
  lemma SumOfSumsIsWrong()
    ensures ValidEnv(GrowingEnv()) && StepsInQuery(GrowingEnv(), [0, 1000])
    ensures NormalForm(Twice(SumX())) && FetchFaithful(GrowingEnv(), Twice(SumX()))
    ensures !Means(GrowingEnv(), Twice(SumX()), [0, 1000], PlanResult(GrowingEnv(), Twice(SumX()), [0, 1000]))
  {
    GrowingIsValid();
    GrowingSelected();
    GrowingSum(0);
    GrowingSum(1000);
    assert Spine(SumX()) && LiteralOf(SumX()) == None && ValueAt(0) != ValueAt(1000);
    hide *;
    assert 0 in [0, 1000] && 1000 in [0, 1000] && forall t :: t in [0, 1000] ==> t == 0 || t == 1000;
    SpinePreserved(GrowingEnv(), SumX(), [0, 1000]);
    OneValuesLookScalar(GrowingEnv(), SumX(), [0, 1000], 0, ValueAt(0));
    ChangingTwiceIsWrong(GrowingEnv(), SumX(), [0, 1000], 0, 1000, ValueAt(0), ValueAt(1000));
    TwiceIsNormal(GrowingEnv(), SumX());
  }

  lemma TwiceIsNormal(env: Env, s: Expr)
    requires ValidEnv(env) && Spine(s) && LiteralOf(s) == None && FetchFaithful(env, s)
    ensures NormalForm(Twice(s)) && FetchFaithful(env, Twice(s))
  {
  }

  // ---- The absolute value of a negation ----

  function AbsMinus(x: Expr): Expr { Call("abs", [UnaryExpr(true, x)]) }

  lemma AbsWraps(x: Expr)
    ensures Wrapped(AbsMinus(x)) == UnaryExpr(true, x) && Wraps(AbsMinus(x)) == [MathStep("abs", 0.0, 0.0)]
  {
    var args := [UnaryExpr(true, x)];
    assert IsWrap("abs", args) && MathStepOf("abs", args) == Some(MathStep("abs", 0.0, 0.0));
    assert Wraps(args[0]) == [];
  }

  lemma AbsOfNegative(lib: Lib, v: real)
    requires v < 0.0
    ensures Chain(VectorMath(lib), [MathStep("abs", 0.0, 0.0)], v) == -v
  {
    ChainSnoc(VectorMath(lib), [], MathStep("abs", 0.0, 0.0), v);
    assert [] + [MathStep("abs", 0.0, 0.0)] == [MathStep("abs", 0.0, 0.0)];
  }

  lemma NegationDefined(env: Env, x: Expr, steps: seq<int>)
    requires ValidEnv(env) && Defined(env, x, steps)
    ensures Defined(env, UnaryExpr(true, x), steps)
  {
  }

  lemma ResultOfPlan(env: Env, e: Expr, steps: seq<int>)
    requires ValidEnv(env) && Translate(env.config, e).Some?
    ensures PlanResult(env, e, steps) == PlanTable(env, Translate(env.config, e).value, steps)
  {
    hide PlanTable;
    hide Translate;
  }

  lemma NegationForgets(env: Env, x: Expr, steps: seq<int>)
    requires ValidEnv(env) && Preserved(env, x, steps) && Defined(env, x, steps) && !ScalarLooking(env, x, steps)
    ensures var core := UnaryExpr(true, x);
            && Forgets(env, core, steps) && Defined(env, core, steps)
            && Means(env, core, steps, PlanResult(env, core, steps))
  {
    var core := UnaryExpr(true, x);
    assert Forgets(env, core, steps);
    hide *;
    NegationDefined(env, x, steps);
    UnaryPreserved(env, core, steps);
    PreservedMeans(env, core, steps);
    ResultOfPlan(env, core, steps);
  }

  lemma NegationDenotes(env: Env, x: Expr, t: int, l: Labels)
    requires ValidEnv(env) && Denote(env, x, t).Some? && l in Denote(env, x, t).value
    ensures var v := Denote(env, UnaryExpr(true, x), t);
            v.Some? && l in v.value && v.value[l] == -Denote(env, x, t).value[l]
  {
    hide ValidEnv;
    assert Denote(env, UnaryExpr(true, x), t) == Some(NegatedVec(Denote(env, x, t).value));
    hide Denote;
  }

  /** The absolute value of a negation is wrong wherever the value is positive. */
  lemma AbsoluteNegationIsWrong(env: Env, x: Expr, steps: seq<int>, t: int, l: Labels)
    requires ValidEnv(env) && Preserved(env, x, steps) && Defined(env, x, steps) && !ScalarLooking(env, x, steps)
    requires t in steps && l in Denote(env, x, t).value && Denote(env, x, t).value[l] > 0.0
    ensures !Means(env, AbsMinus(x), steps, PlanResult(env, AbsMinus(x), steps))
  {
    hide *;
    NegationForgets(env, x, steps);
    AbsWraps(x);
    ForgottenMath(env, AbsMinus(x), steps);
    NegatedChanges(env, x, steps, t, l);
  }

  lemma NegatedChanges(env: Env, x: Expr, steps: seq<int>, t: int, l: Labels)
    requires ValidEnv(env) && Defined(env, x, steps) && t in steps
    requires l in Denote(env, x, t).value && Denote(env, x, t).value[l] > 0.0
    ensures Denote(env, UnaryExpr(true, x), t).Some?
    ensures !UnchangedBy(VectorMath(env.lib), [MathStep("abs", 0.0, 0.0)], Denote(env, UnaryExpr(true, x), t).value)
  {
    hide Denote;
    hide Chain;
    NegationDenotes(env, x, t, l);
    AbsOfNegative(env.lib, Denote(env, UnaryExpr(true, x), t).value[l]);
  }

  function Labelled(): Vec { map[map["a" := "b"] := 1.0] }

  function LabelledEnv(): Env { EnvOf(PLAIN, OneSample(Labelled(), 0), "x", LabelsOnly()) }

  /** abs(-x) of a labelled series of value 1 is -1. */
  lemma AbsoluteOfMinusOne()
    ensures ValidEnv(LabelledEnv()) && StepsInQuery(LabelledEnv(), [0]) && FetchFaithful(LabelledEnv(), VectorSelector(X()))
    ensures var e := AbsMinus(VectorSelector(X())); !Means(LabelledEnv(), e, [0], PlanResult(LabelledEnv(), e, [0]))
  {
    var l: Labels := map["a" := "b"];
    assert AllFit(X(), Labelled()) && AcceptsName(LabelsOnly(), X(), "x") && l in Labelled() && Labelled()[l] == 1.0 && "a" in l;
    assert X().offsetMs == 0 && Spine(VectorSelector(X()));
    hide *;
    assert 0 in [0];
    AnyVector(PLAIN, Labelled(), X(), "x");
    EnvIsLabelled();
    SpinePreserved(LabelledEnv(), VectorSelector(X()), [0]);
    LabelledIsVector(LabelledEnv(), VectorSelector(X()), Labelled(), l);
    AbsoluteNegationIsWrong(LabelledEnv(), VectorSelector(X()), [0], 0, l);
  }

  lemma EnvIsLabelled()
    ensures LabelledEnv() == EnvOf(PLAIN, OneSample(Labelled(), 0), "x", LabelsOnly())
  {
  }

  lemma LabelledIsVector(env: Env, e: Expr, m: Vec, l: Labels)
    requires ValidEnv(env) && Denote(env, e, 0) == Some(m) && l in m && l != map[]
    ensures Defined(env, e, [0]) && !ScalarLooking(env, e, [0])
  {
    hide Denote;
    assert 0 in [0] && l in m.Keys;
  }
}

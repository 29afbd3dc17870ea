/** What it takes to show that the plan of a nested expression is not always right: the
    aggregates of few series, and an environment that holds any given rows. */
module HoistingLimits {
  import opened Types
  import opened Columns
  import opened Plans
  import opened SetSum
  import opened Reals
  import opened Aggregation
  import opened InstantEval
  import opened FetchWindow
  import opened Translator
  import opened PlanEval
  import opened Selectors
  import Pointwise
  import opened Meaning
  import opened Preservation
  import opened Hoisting
  import opened LabelKeys
  import RangeFunctions
  import Staleness

  /** The plan of the expression is right in every environment with a regular math library
      whose fetches are faithful. */
  ghost predicate AlwaysCorrect(e: Expr) {
    forall env, steps ::
      ValidEnv(env) && Pointwise.RegularLib(env.lib) && StepsInQuery(env, steps) && FetchFaithful(env, e) ==>
        Means(env, e, steps, PlanResult(env, e, steps))
  }

  // ---- Series that are groups of their own ----

  /** The two label sets are of one group. */
  predicate AlikeIn(step: AggStep, k: Labels, l: Labels) {
    GroupLabels(k, step.grouping, step.without) == GroupLabels(l, step.grouping, step.without)
  }

  ghost predicate Apart(step: AggStep, m: Vec) {
    forall l, l' :: l in m && l' in m && AlikeIn(step, l, l') ==> l == l'
  }

  /** Nothing is dropped. */
  predicate DropsNothing(step: AggStep) {
    step.without && step.grouping == []
  }

  lemma NothingDropped(step: AggStep, m: Vec)
    requires DropsNothing(step)
    ensures Apart(step, m)
  {
    forall l ensures GroupLabels(l, step.grouping, step.without) == l {
    }
  }

  /** Of the series that a selector lets through, each is a group of its own: a label that is
      dropped is not stored, or the selector pins it. */
  predicate OwnGroup(step: AggStep, sel: Selector) {
    step.without && forall n :: n in step.grouping ==> !Loose(sel, n)
  }

  ghost predicate AllFit(sel: Selector, m: Vec) {
    forall l :: l in m ==> Fits(sel, l)
  }

  lemma SameValue(sel: Selector, l: Labels, l': Labels, n: string)
    requires Fits(sel, l) && Fits(sel, l') && !Loose(sel, n)
    ensures (n in l <==> n in l') && (n in l ==> l[n] == l'[n])
  {
    if NAME_END !in n && n != NAME {
      var m :| m in sel.matchers && m.name == n && m.op == "=";
      assert Meets(m, Get(l, n)) && Meets(m, Get(l', n));
    }
  }

  lemma FittingApart(step: AggStep, sel: Selector, m: Vec)
    requires OwnGroup(step, sel) && AllFit(sel, m)
    ensures Apart(step, m)
  {
    forall l, l' | l in m && l' in m && AlikeIn(step, l, l')
      ensures l == l'
    {
      forall n ensures (n in l <==> n in l') && (n in l ==> l[n] == l'[n]) {
        var g, g' := GroupLabels(l, step.grouping, step.without), GroupLabels(l', step.grouping, step.without);
        if n in step.grouping {
          SameValue(sel, l, l', n);
        } else {
          assert n in l <==> n in g;
          assert n in l' <==> n in g';
        }
      }
    }
  }

  // ---- Aggregates of one and of two series ----

  lemma Alone(m: Vec, l: Labels)
    requires l in m
    ensures SumOver(m, {l}) == m[l]
  {
    SumOverRemove(m, {l}, l);
    assert {l} - {l} == {};
  }

  function OwnAggregate(lib: Lib, op: AggOp, v: real): real {
    match op
    case Count | Group => 1.0
    case Stdvar => 0.0
    case Stddev => lib.sqrt(0.0)
    case _ => v
  }

  lemma AggregateOfOne(lib: Lib, op: AggOp, m: Vec, l: Labels)
    requires l in m
    ensures Aggregate(lib, op, m, {l}) == OwnAggregate(lib, op, m[l])
  {
    Alone(m, l);
    var mean := MeanOf(m, {l});
    assert mean == m[l];
    Alone(Deviations(m, mean), l);
    assert VarianceOf(m, {l}) == 0.0;
    AggregateUnique(lib, op, m, {l}, OwnAggregate(lib, op, m[l]));
  }

  lemma SumOfTwo(m: Vec, k: Labels, l: Labels)
    requires k in m && l in m && k != l
    ensures SumOver(m, {k, l}) == m[k] + m[l] && |{k, l}| == 2
  {
    Alone(m, k);
    SumOverAdd(m, {k}, l);
    assert {k} + {l} == {k, l};
  }

  lemma VarianceOfTwo(m: Vec, k: Labels, l: Labels)
    requires k in m && l in m && k != l
    ensures VarianceOf(m, {k, l}) == Square(m[k] - m[l]) / 4.0
  {
    SumOfTwo(m, k, l);
    var mean := MeanOf(m, {k, l});
    assert mean == (m[k] + m[l]) / 2.0;
    SumOfTwo(Deviations(m, mean), k, l);
    var d := (m[k] - m[l]) / 2.0;
    assert m[k] - mean == d && m[l] - mean == -d;
    assert Square(2.0 * d) == 4.0 * Square(d);
    assert Square(-d) == Square(d);
  }

  function PairAggregate(lib: Lib, op: AggOp, x: real, y: real): real {
    match op
    case Sum => x + y
    case Avg => (x + y) / 2.0
    case Min => MathMin(x, y)
    case Max => MathMax(x, y)
    case Stdvar => Square(x - y) / 4.0
    case Stddev => lib.sqrt(Square(x - y) / 4.0)
    case Count => 2.0
    case Group => 1.0
  }

  lemma AggregateOfTwo(lib: Lib, op: AggOp, m: Vec, k: Labels, l: Labels)
    requires k in m && l in m && k != l
    ensures Aggregate(lib, op, m, {k, l}) == PairAggregate(lib, op, m[k], m[l])
  {
    SumOfTwo(m, k, l);
    VarianceOfTwo(m, k, l);
    hide Square;
    hide VarianceOf;
    assert k in {k, l} && l in {k, l};
    AggregateUnique(lib, op, m, {k, l}, PairAggregate(lib, op, m[k], m[l]));
  }

  lemma OwnGroups(step: AggStep, m: Vec, g: Labels)
    requires Apart(step, m) && g in Groups(m, step)
    ensures exists l :: l in m && Members(m, step, g) == {l}
  {
    var l :| l in m && GroupLabels(l, step.grouping, step.without) == g;
    assert Members(m, step, g) == {l};
  }

  // ---- Series in one group ----

  lemma {:induction false} FreshName(names: seq<string>) returns (n: string)
    ensures NAME_END !in n && forall k :: k in names ==> |k| < |n|
  {
    if names == [] {
      n := "";
    } else {
      var front := names[..|names| - 1];
      var last := names[|names| - 1];
      assert names == front + [last];
      n := FreshName(front);
      n := n + seq(|last| + 1, _ => 'a');
    }
  }

  function MatcherNames(ms: seq<Matcher>): seq<string> {
    seq(|ms|, i requires 0 <= i < |ms| => ms[i].name)
  }

  /** A label that the step drops and that may vary. */
  lemma DroppedLabel(step: AggStep, sel: Selector) returns (n: string)
    requires !OwnGroup(step, sel)
    ensures Loose(sel, n) && (n in step.grouping) == step.without
  {
    if step.without {
      n :| n in step.grouping && Loose(sel, n);
    } else {
      n := FreshName(step.grouping + [NAME] + MatcherNames(sel.matchers));
      assert NAME in step.grouping + [NAME] + MatcherNames(sel.matchers);
      forall m | m in sel.matchers ensures |m.name| < |n| {
        var i :| 0 <= i < |sel.matchers| && sel.matchers[i] == m;
        assert MatcherNames(sel.matchers)[i] == m.name;
      }
      assert forall k :: k in step.grouping ==> k in step.grouping + [NAME] + MatcherNames(sel.matchers);
    }
  }

  /** The group of all label sets that differ in a dropped label only. */
  ghost function CommonGroup(step: AggStep, sel: Selector): Labels
    requires !Contradictory(sel)
  {
    GroupLabels(Base(sel), step.grouping, step.without)
  }

  lemma VariedGroup(step: AggStep, sel: Selector, n: string, i: nat)
    requires !Contradictory(sel) && (n in step.grouping) == step.without
    ensures GroupLabels(Varied(sel, n, i), step.grouping, step.without)
         == map k | k in Base(sel) && k != n && ((k in step.grouping) != step.without) :: Base(sel)[k]
  {
    hide Base;
    hide Fresh;
  }

  ghost predicate SameGroup(step: AggStep, k: Labels, l: Labels) {
    k != l && AlikeIn(step, k, l)
  }

  lemma TwoSeries(step: AggStep, sel: Selector) returns (k: Labels, l: Labels)
    requires !Contradictory(sel) && !OwnGroup(step, sel)
    ensures SameGroup(step, k, l) && Fits(sel, k) && Fits(sel, l)
  {
    var n := DroppedLabel(step, sel);
    k, l := Varied(sel, n, 0), Varied(sel, n, 1);
    VariedFits(sel, n, 0);
    VariedFits(sel, n, 1);
    VariedDiffer(sel, n, 0, 1);
    VariedGroup(step, sel, n, 0);
    VariedGroup(step, sel, n, 1);
    hide Varied;
    hide Fits;
  }

  lemma GroupOfTwo(lib: Lib, step: AggStep, m: Vec, k: Labels, l: Labels)
    requires SameGroup(step, k, l) && m.Keys == {k, l}
    ensures AggregateVec(lib, m, step) == map[GroupLabels(k, step.grouping, step.without) := Aggregate(lib, step.op, m, {k, l})]
  {
    var g := GroupLabels(k, step.grouping, step.without);
    assert k in m && l in m && forall j :: j in m ==> j == k || j == l;
    hide GroupLabels;
    assert Members(m, step, g) == {k, l};
    assert Groups(m, step) == {g};
  }

  lemma GroupOfOne(lib: Lib, step: AggStep, m: Vec, l: Labels)
    requires m.Keys == {l}
    ensures AggregateVec(lib, m, step) == map[GroupLabels(l, step.grouping, step.without) := Aggregate(lib, step.op, m, {l})]
  {
    var g := GroupLabels(l, step.grouping, step.without);
    assert l in m && forall j :: j in m ==> j == l;
    hide GroupLabels;
    assert Members(m, step, g) == {l};
    assert Groups(m, step) == {g};
  }

  // ---- An environment that holds any given rows ----

  const STALENESS: int := 1000

  /** A query at time zero, over one metric. */
  function EnvOf(lib: Lib, db: Db, metric: string, engine: Engine): Env {
    Env(lib, map[metric := db], engine, engine, Config(0, 0, STALENESS))
  }

  lemma EnvIs(lib: Lib, db: Db, metric: string, engine: Engine)
    ensures EnvOf(lib, db, metric, engine).lib == lib && EnvOf(lib, db, metric, engine).config == Config(0, 0, STALENESS)
  {
  }

  /** Regular expressions accept all label values. */
  ghost predicate SeesLabels(engine: Engine) {
    SoundEngine(engine) && forall m: Matcher, v :: m.name != NAME && Meets(m, v) ==> engine(m, v)
  }

  lemma EnginesSee()
    ensures SeesLabels(LabelsOnly()) && SeesLabels(Seeing())
  {
  }

  ghost predicate RowsFit(sel: Selector, db: Db) {
    ValidDb(db) && forall l :: l in db ==> Fits(sel, l)
  }

  lemma EnvOfValid(lib: Lib, db: Db, metric: string, engine: Engine, sel: Selector)
    requires RowsFit(sel, db) && SeesLabels(engine)
    ensures ValidEnv(EnvOf(lib, db, metric, engine)) && StepsInQuery(EnvOf(lib, db, metric, engine), [0])
  {
  }

  lemma EnvOfRows(lib: Lib, db: Db, metric: string, engine: Engine, sel: Selector)
    requires RowsFit(sel, db) && SeesLabels(engine)
    ensures var env := EnvOf(lib, db, metric, engine);
            && ValidEnv(env) && StepsInQuery(env, [0]) && ReadsAlike(env, sel)
            && Selected(env, sel) == (if AcceptsName(engine, sel, metric) then db else map[])
  {
    var env := EnvOf(lib, db, metric, engine);
    EnvOfValid(lib, db, metric, engine, sel);
    LabelMatchersMeaning(sel.matchers);
    forall l | l in db ensures AcceptsLabels(engine, sel, l) && Accepts(engine, LabelMatchers(sel.matchers), l) {
      FitsAccepted(sel, l, engine);
    }
    hide SeesLabels;
    forall name, l ensures Selects(env, sel, name, l) <==> name == metric && l in db && AcceptsName(engine, sel, metric) {
    }
    assert metric in env.metrics;
    assert StoredLabels(env) == db.Keys by {
      forall l | l in db.Keys ensures l in StoredLabels(env) {
        assert metric in env.metrics && l in env.metrics[metric];
      }
    }
    hide ValidEnv;
    hide Fits;
    forall l | l in db ensures AcceptsName(engine, sel, metric) ==> Selects(env, sel, metric, l) {
    }
    hide Selects;
    hide AcceptsName;
    hide AcceptsLabels;
    hide Accepts;
  }

  /** One sample per series, at the time that a query at zero looks up. */
  function OneSample(m: Vec, offset: int): Db {
    map l | l in m :: [Sample(-offset, m[l], false)]
  }

  lemma LookedUp(lib: Lib, sel: Selector, v: real)
    ensures InstantVecOfOne(lib, sel, v) == Some(v)
    ensures !LostAtBoundary([Sample(-sel.offsetMs, v, false)], 0, sel.offsetMs, STALENESS)
  {
    var x := Sample(-sel.offsetMs, v, false);
    assert Staleness.LatestAt([x], -sel.offsetMs, x);
    LookupLatest([x], -sel.offsetMs, STALENESS, x);
    InstantCoreValue(lib, sel, [x], 0, STALENESS);
  }

  function InstantVecOfOne(lib: Lib, sel: Selector, v: real): Option<real> {
    RangeFunctions.ComputeValue(lib, InstantCore(sel), [Sample(-sel.offsetMs, v, false)], 0, STALENESS)
  }

  lemma ValuesLookedUp(lib: Lib, m: Vec, sel: Selector)
    requires CleanVec(m)
    ensures var db := OneSample(m, sel.offsetMs);
            && ValidDb(db)
            && InstantVec(lib, InstantCore(sel), db, 0, STALENESS) == m
            && forall l :: l in db ==> !LostAtBoundary(db[l], 0, sel.offsetMs, STALENESS)
  {
    var db := OneSample(m, sel.offsetMs);
    hide RangeFunctions.ComputeValue;
    hide LostAtBoundary;
    forall l | l in m
      ensures RangeFunctions.ComputeValue(lib, InstantCore(sel), db[l], 0, STALENESS) == Some(m[l])
      ensures !LostAtBoundary(db[l], 0, sel.offsetMs, STALENESS)
    {
      LookedUp(lib, sel, m[l]);
    }
  }

  /** A vector whose label sets pass is what the selector means where it is stored under a
      name that passes, and otherwise the selector means nothing there. */
  lemma AnyVector(lib: Lib, m: Vec, sel: Selector, metric: string)
    requires AllFit(sel, m)
    ensures var env := EnvOf(lib, OneSample(m, sel.offsetMs), metric, LabelsOnly());
            && ValidEnv(env) && StepsInQuery(env, [0]) && FetchFaithful(env, VectorSelector(sel))
            && Denote(env, VectorSelector(sel), 0) == Some(if AcceptsName(LabelsOnly(), sel, metric) then m else map[])
  {
    var db := OneSample(m, sel.offsetMs);
    assert CleanVec(m) && db.Keys == m.Keys && forall l :: l in db ==> l in db.Keys;
    ValuesLookedUp(lib, m, sel);
    EnginesSee();
    EnvOfRows(lib, db, metric, LabelsOnly(), sel);
    hide *;
    SelectorThere(EnvOf(lib, db, metric, LabelsOnly()), sel, db, m);
    EnvIs(lib, db, metric, LabelsOnly());
  }

  lemma SelectorThere(env: Env, sel: Selector, db: Db, m: Vec)
    requires ValidEnv(env) && ReadsAlike(env, sel) && (Selected(env, sel) == db || Selected(env, sel) == map[])
    requires ValidDb(db) && env.config == Config(0, 0, STALENESS)
    requires InstantVec(env.lib, InstantCore(sel), db, 0, STALENESS) == m
    requires forall l :: l in db ==> !LostAtBoundary(db[l], 0, sel.offsetMs, STALENESS)
    ensures FetchFaithful(env, VectorSelector(sel))
    ensures Selected(env, sel) == db ==> Denote(env, VectorSelector(sel), 0) == Some(m)
    ensures Selected(env, sel) == map[] ==> Denote(env, VectorSelector(sel), 0) == Some(map[])
  {
    hide ReadsAlike;
    hide Selected;
    hide LostAtBoundary;
    hide RangeFunctions.ComputeValue;
    assert InstantVec(env.lib, InstantCore(sel), map[], 0, STALENESS) == map[];
    hide InstantVec;
    hide ValidEnv;
  }

  /** A chain that differs from its canonical form in the environment is evaluated wrongly
      there. */
  lemma WrongSomewhere(env: Env, e: Expr)
    requires ValidEnv(env) && Pointwise.RegularLib(env.lib)
    requires StepsInQuery(env, [0]) && IsChain(e) && FetchFaithful(env, e)
    requires Denote(env, e, 0) != Denote(env, Canonical(e), 0)
    ensures !AlwaysCorrect(e)
  {
    hide Denote;
    hide Canonical;
    hide Means;
    hide PlanResult;
    assert 0 in [0];
    ChainCorrect(env, e, [0]);
  }

  // ---- Selectors that are compiled to another name ----

  /** The selector that the plan stands for. */
  function Named(sel: Selector): Selector {
    Selector("", LabelMatchers(sel.matchers) + [Matcher(NAME, "=", MetricName(sel.name, sel.matchers))], sel.offsetMs)
  }

  lemma {:induction false} NoNameMatcher(ms: seq<Matcher>)
    requires forall m :: m in ms ==> m.name != NAME
    ensures MetricName("", ms) == "" && LabelMatchers(ms) == ms
  {
    if ms != [] {
      NoNameMatcher(ms[..|ms| - 1]);
      assert ms == ms[..|ms| - 1] + [ms[|ms| - 1]];
    }
  }

  lemma NamedMeaning(sel: Selector)
    ensures NamesItsMetric(Named(sel))
    ensures MetricName(Named(sel).name, Named(sel).matchers) == MetricName(sel.name, sel.matchers)
    ensures LabelMatchers(Named(sel).matchers) == LabelMatchers(sel.matchers)
  {
    var ms, m := LabelMatchers(sel.matchers), Matcher(NAME, "=", MetricName(sel.name, sel.matchers));
    LabelMatchersMeaning(sel.matchers);
    NoNameMatcher(ms);
    assert (ms + [m])[..|ms|] == ms;
    assert m in ms + [m];
    assert LabelMatchers(ms + [m]) == ms + [];
    forall m' | m' in ms + [m] && m'.name == NAME ensures m' == m {
    }
  }

  lemma NamedFits(sel: Selector, l: Labels)
    ensures Fits(sel, l) <==> Fits(Named(sel), l)
  {
    LabelMatchersMeaning(sel.matchers);
    var m := Matcher(NAME, "=", MetricName(sel.name, sel.matchers));
    assert forall m' :: m' in Named(sel).matchers <==> m' in LabelMatchers(sel.matchers) || m' == m;
    hide LabelMatchers;
    hide Meets;
  }

  /** An expression with the plan of a chain whose canonical form means something else is
      evaluated wrongly. */
  lemma WrongForAnother(env: Env, e: Expr, e': Expr)
    requires ValidEnv(env) && Pointwise.RegularLib(env.lib) && StepsInQuery(env, [0])
    requires Translate(env.config, e) == Translate(env.config, e') && IsChain(e')
    requires FetchFaithful(env, e) && FetchFaithful(env, e')
    requires Denote(env, e, 0) != Denote(env, Canonical(e'), 0)
    ensures !AlwaysCorrect(e)
  {
    hide Denote;
    hide Canonical;
    hide FetchFaithful;
    hide PlanTable;
    assert 0 in [0];
    PlanMeansCanonical(env, e', [0]);
    CanonicalDenotes(env, e', [0]);
    var result := PlanResult(env, e, [0]);
    assert result == PlanResult(env, e', [0]);
    hide PlanResult;
    hide Column;
    hide Normal;
    assert IsTableOf(env, Canonical(e'), [0], result.value);
    assert !Means(env, e, [0], result);
  }

  /** One whose canonical form means the same is evaluated correctly. */
  lemma RightForAnother(env: Env, e: Expr, e': Expr, steps: seq<int>)
    requires ValidEnv(env) && StepsInQuery(env, steps)
    requires Translate(env.config, e) == Translate(env.config, e') && IsChain(e') && FetchFaithful(env, e')
    requires forall t :: t in steps ==> Denote(env, e, t) == Denote(env, Canonical(e'), t)
    ensures Means(env, e, steps, PlanResult(env, e, steps))
  {
    hide Denote;
    hide Canonical;
    hide FetchFaithful;
    hide PlanTable;
    hide Column;
    hide Normal;
    PlanMeansCanonical(env, e', steps);
  }

  /** Nothing that passes is found, whatever the name. */
  lemma NothingThere(env: Env, sel: Selector, t: int)
    requires ValidEnv(env) && Contradictory(sel) && FetchFaithful(env, VectorSelector(sel))
    ensures FetchFaithful(env, VectorSelector(Named(sel))) && ReadsAlike(env, Named(sel))
    ensures Selected(env, sel) == map[] == Selected(env, Named(sel))
    ensures Denote(env, VectorSelector(sel), t) == Some(map[]) == Denote(env, VectorSelector(Named(sel)), t)
  {
    NamedReadsAlike(env, sel);
    NothingPasses(env, sel);
    NamedContradictory(sel);
    NothingPasses(env, Named(sel));
    hide Selected;
    hide ReadsAlike;
    hide LostAtBoundary;
    hide RangeFunctions.ComputeValue;
    hide Contradictory;
  }

  lemma NamedReadsAlike(env: Env, sel: Selector)
    ensures ReadsAlike(env, sel) <==> ReadsAlike(env, Named(sel))
  {
    NamedMeaning(sel);
    LabelMatchersMeaning(sel.matchers);
    LabelMatchersMeaning(Named(sel).matchers);
    hide LabelMatchers;
    hide Named;
    forall l ensures AcceptsLabels(env.matches, sel, l) <==> AcceptsLabels(env.matches, Named(sel), l) {
      assert forall m :: m in sel.matchers && m.name != NAME <==> m in LabelMatchers(sel.matchers);
      assert forall m :: m in Named(sel).matchers && m.name != NAME <==> m in LabelMatchers(sel.matchers);
    }
  }

  lemma NamedContradictory(sel: Selector)
    requires Contradictory(sel)
    ensures Contradictory(Named(sel))
  {
    LabelMatchersMeaning(sel.matchers);
    LabelMatchersMeaning(Named(sel).matchers);
    NamedMeaning(sel);
    hide LabelMatchers;
    hide Named;
    assert forall m :: m in Named(sel).matchers && m.name != NAME <==> m in LabelMatchers(sel.matchers);
    if m, m' :| m in sel.matchers && m' in sel.matchers && m.name != NAME && Exclude(m, m') {
      assert m in LabelMatchers(sel.matchers) && m' in LabelMatchers(sel.matchers);
    } else {
      var m :| m in sel.matchers && Unstorable(m);
      assert m in LabelMatchers(sel.matchers);
    }
  }
}

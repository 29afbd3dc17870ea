/** Aggregation of an instant vector (eval/aggregations.go:18-111). */
module Aggregation {
  import opened Types
  import opened Reals
  import opened SetSum
  import opened Columns
  import opened Plans
  import opened LabelKeys
  import Variance

  // ---- Meaning: one value per set of member series ----

  ghost predicate IsLeast(m: Vec, s: set<Labels>, v: real)
    requires s <= m.Keys
  {
    (exists l :: l in s && m[l] == v) && forall l :: l in s ==> v <= m[l]
  }

  ghost predicate IsGreatest(m: Vec, s: set<Labels>, v: real)
    requires s <= m.Keys
  {
    (exists l :: l in s && m[l] == v) && forall l :: l in s ==> m[l] <= v
  }

  function Squares(m: Vec): Vec {
    map l | l in m :: Square(m[l])
  }

  function Deviations(m: Vec, mean: real): Vec {
    map l | l in m :: Square(m[l] - mean)
  }

  ghost function MeanOf(m: Vec, s: set<Labels>): real
    requires s <= m.Keys && s != {}
  {
    SumOver(m, s) / |s| as real
  }

  /** Mean squared deviation from the mean. */
  ghost function VarianceOf(m: Vec, s: set<Labels>): real
    requires s <= m.Keys && s != {}
  {
    SumOver(Deviations(m, MeanOf(m, s)), s) / |s| as real
  }

  /** `v` is what aggregating the values of the members `s` with `op` means. */
  ghost predicate IsAggregate(lib: Lib, op: AggOp, m: Vec, s: set<Labels>, v: real)
    requires s <= m.Keys && s != {}
  {
    match op
    case Sum => v == SumOver(m, s)
    case Avg => v == MeanOf(m, s)
    case Min => IsLeast(m, s, v)
    case Max => IsGreatest(m, s, v)
    case Count => v == |s| as real
    case Group => v == 1.0
    case Stddev => v == lib.sqrt(VarianceOf(m, s))
    case Stdvar => v == VarianceOf(m, s)
  }

  lemma {:induction false} ExtremesExist(m: Vec, s: set<Labels>) returns (lo: real, hi: real)
    requires s <= m.Keys && s != {}
    ensures IsLeast(m, s, lo) && IsGreatest(m, s, hi)
    decreases s
  {
    var l :| l in s;
    lo, hi := m[l], m[l];
    if s != {l} {
      var rest := s - {l};
      assert s == rest + {l};
      var lo', hi' := ExtremesExist(m, rest);
      lo, hi := if lo' < lo then lo' else lo, if hi < hi' then hi' else hi;
    }
  }

  /** Every aggregate exists, so the definition below is one; see AggregateUnique. */
  ghost function Aggregate(lib: Lib, op: AggOp, m: Vec, s: set<Labels>): (v: real)
    requires s <= m.Keys && s != {}
    ensures IsAggregate(lib, op, m, s, v)
  {
    assert exists v :: IsAggregate(lib, op, m, s, v) by {
      AggregateExists(lib, op, m, s);
    }
    var v :| IsAggregate(lib, op, m, s, v);
    v
  }

  lemma AggregateExists(lib: Lib, op: AggOp, m: Vec, s: set<Labels>)
    requires s <= m.Keys && s != {}
    ensures exists v :: IsAggregate(lib, op, m, s, v)
  {
    var lo, hi := ExtremesExist(m, s);
    var v := match op
      case Sum => SumOver(m, s)
      case Avg => MeanOf(m, s)
      case Min => lo
      case Max => hi
      case Count => |s| as real
      case Group => 1.0
      case Stddev => lib.sqrt(VarianceOf(m, s))
      case Stdvar => VarianceOf(m, s);
    assert IsAggregate(lib, op, m, s, v);
  }

  lemma AggregateUnique(lib: Lib, op: AggOp, m: Vec, s: set<Labels>, v: real)
    requires s <= m.Keys && s != {} && IsAggregate(lib, op, m, s, v)
    ensures v == Aggregate(lib, op, m, s)
  {
    var w := Aggregate(lib, op, m, s);
    if op.Min? || op.Max? {
      var l :| l in s && m[l] == v;
      var k :| k in s && m[k] == w;
    }
  }

  ghost function Members(m: Vec, step: AggStep, g: Labels): set<Labels> {
    set l | l in m && GroupLabels(l, step.grouping, step.without) == g
  }

  ghost function Groups(m: Vec, step: AggStep): set<Labels> {
    set l | l in m :: GroupLabels(l, step.grouping, step.without)
  }

  lemma GroupHasMembers(m: Vec, step: AggStep, g: Labels)
    ensures g in Groups(m, step) <==> Members(m, step, g) != {}
  {
    if g in Groups(m, step) {
      var l :| l in m && GroupLabels(l, step.grouping, step.without) == g;
      assert l in Members(m, step, g);
    }
    if Members(m, step, g) != {} {
      var l :| l in Members(m, step, g);
      assert GroupLabels(l, step.grouping, step.without) in Groups(m, step);
    }
  }

  /** The aggregated vector: one element per group, labelled with the group labels. */
  ghost function AggregateVec(lib: Lib, m: Vec, step: AggStep): Vec {
    map g | g in Groups(m, step) ::
      (GroupHasMembers(m, step, g); Aggregate(lib, step.op, m, Members(m, step, g)))
  }

  ghost function AggregateChain(lib: Lib, m: Vec, chain: seq<AggStep>): Vec {
    if chain == [] then m
    else AggregateVec(lib, AggregateChain(lib, m, chain[..|chain| - 1]), chain[|chain| - 1])
  }

  ghost predicate CleanVec(m: Vec) {
    forall l :: l in m ==> Clean(l)
  }

  lemma AggregateVecClean(lib: Lib, m: Vec, step: AggStep)
    requires CleanVec(m)
    ensures CleanVec(AggregateVec(lib, m, step))
  {
    forall g | g in AggregateVec(lib, m, step) ensures Clean(g) {
      var l :| l in m && GroupLabels(l, step.grouping, step.without) == g;
      GroupLabelsClean(l, step.grouping, step.without);
    }
  }

  // ---- The accumulators of the loop ----

  /** The record kept per group; a None extreme is the initial NaN. */
  datatype Acc = Acc(labels: Labels, count: nat, sum: real, c: real, min: Option<real>, max: Option<real>,
                     mean: real, m2: real, wcount: nat)

  /** The record `g` is what the members `s` have contributed so far. */
  ghost predicate AccInv(op: AggOp, g: Acc, m: Vec, s: set<Labels>)
    requires s <= m.Keys
  {
    && g.count == |s|
    && (op.Sum? ==> g.sum == SumOver(m, s) && g.c == 0.0)
    && (op.Avg? ==> Times(g.mean, |s| as real) == SumOver(m, s))
    && (op.Min? ==> if s == {} then g.min == None else g.min.Some? && IsLeast(m, s, g.min.value))
    && (op.Max? ==> if s == {} then g.max == None else g.max.Some? && IsGreatest(m, s, g.max.value))
    && (op.Stddev? || op.Stdvar? ==>
          && g.wcount == |s|
          && Times(g.mean, |s| as real) == SumOver(m, s)
          && g.m2 == SumOver(Squares(m), s) - Times(g.mean, SumOver(m, s)))
  }

  function OnlineMean(mean: real, x: real, n: real): real
    requires n > 0.0
  {
    mean + (x / n - mean / n)
  }

  /** The body of the loop over the vector, for a group that exists. */
  function Update(op: AggOp, g: Acc, x: real): Acc {
    var g := g.(count := g.count + 1);
    match op
    case Sum =>
      var (sum, c) := KahanSumInc(x, g.sum, g.c);
      g.(sum := sum, c := c)
    case Avg =>
      g.(mean := OnlineMean(g.mean, x, g.count as real))
    case Min => if g.min.None? || x < g.min.value then g.(min := Some(x)) else g
    case Max => if g.max.None? || x > g.max.value then g.(max := Some(x)) else g
    case Stddev | Stdvar =>
      var wcount := g.wcount + 1;
      var mean := Variance.WelfordMean(g.mean, wcount as real, x);
      g.(wcount := wcount, mean := mean, m2 := Variance.WelfordM2(g.m2, g.mean, mean, x))
    case Count | Group => g
  }

  lemma MeanForms(mean: real, x: real, n: real)
    requires n > 0.0
    ensures OnlineMean(mean, x, n) == Variance.WelfordMean(mean, n, x)
  {
  }

  lemma ZeroTimes(a: real)
    ensures Times(a, 0.0) == 0.0 == Times(0.0, a)
  {
  }

  lemma AccStart(op: AggOp, labels: Labels, m: Vec)
    ensures AccInv(op, Acc(labels, 0, 0.0, 0.0, None, None, 0.0, 0.0, 0), m, {})
  {
    ZeroTimes(0.0);
  }

  lemma LeastAdd(m: Vec, s: set<Labels>, l: Labels, lo: real)
    requires s <= m.Keys && l in m && (s == {} || IsLeast(m, s, lo))
    ensures IsLeast(m, s + {l}, if s == {} || m[l] < lo then m[l] else lo)
  {
    assert l in s + {l};
    if s != {} && lo <= m[l] {
      var k :| k in s && m[k] == lo;
      assert k in s + {l};
    }
  }

  lemma GreatestAdd(m: Vec, s: set<Labels>, l: Labels, hi: real)
    requires s <= m.Keys && l in m && (s == {} || IsGreatest(m, s, hi))
    ensures IsGreatest(m, s + {l}, if s == {} || m[l] > hi then m[l] else hi)
  {
    assert l in s + {l};
    if s != {} && m[l] <= hi {
      var k :| k in s && m[k] == hi;
      assert k in s + {l};
    }
  }

  lemma AccUpdateExtreme(op: AggOp, g: Acc, m: Vec, s: set<Labels>, l: Labels)
    requires op.Min? || op.Max?
    requires s <= m.Keys && l in m && l !in s && AccInv(op, g, m, s)
    ensures AccInv(op, Update(op, g, m[l]), m, s + {l})
  {
    hide IsLeast;
    hide IsGreatest;
    if op.Min? {
      LeastAdd(m, s, l, if s == {} then 0.0 else g.min.value);
    } else {
      GreatestAdd(m, s, l, if s == {} then 0.0 else g.max.value);
    }
  }

  lemma AccUpdateMoments(op: AggOp, g: Acc, m: Vec, s: set<Labels>, l: Labels)
    requires !op.Min? && !op.Max?
    requires s <= m.Keys && l in m && l !in s && AccInv(op, g, m, s)
    ensures AccInv(op, Update(op, g, m[l]), m, s + {l})
  {
    hide Square;
    hide Times;
    hide Variance.WelfordMean;
    hide Variance.WelfordM2;
    hide OnlineMean;
    var x, n := m[l], |s| as real;
    assert |s + {l}| as real == n + 1.0;
    SumOverAdd(m, s, l);
    if op.Avg? {
      MeanForms(g.mean, x, n + 1.0);
      Variance.WelfordStep(g.mean, -Times(g.mean, SumOver(m, s)), n, SumOver(m, s), 0.0, x);
    } else if op.Stddev? || op.Stdvar? {
      SumOverAdd(Squares(m), s, l);
      Variance.WelfordStep(g.mean, g.m2, n, SumOver(m, s), SumOver(Squares(m), s), x);
    }
  }

  /** Adding one member keeps the record in step with the set of members. */
  lemma AccUpdate(op: AggOp, g: Acc, m: Vec, s: set<Labels>, l: Labels)
    requires s <= m.Keys && l in m && l !in s && AccInv(op, g, m, s)
    ensures AccInv(op, Update(op, g, m[l]), m, s + {l})
    ensures Update(op, g, m[l]).labels == g.labels
  {
    hide AccInv;
    if op.Min? || op.Max? {
      AccUpdateExtreme(op, g, m, s, l);
    } else {
      AccUpdateMoments(op, g, m, s, l);
    }
  }

  /** The value reported for a group. */
  function Report(lib: Lib, op: AggOp, g: Acc): real {
    match op
    case Sum => g.sum + g.c
    case Avg => g.mean
    case Min => if g.min.Some? then g.min.value else 0.0
    case Max => if g.max.Some? then g.max.value else 0.0
    case Count => g.count as real
    case Group => 1.0
    case Stdvar => if g.wcount == 0 then 0.0 else g.m2 / g.wcount as real
    case Stddev => if g.wcount == 0 then 0.0 else lib.sqrt(g.m2 / g.wcount as real)
  }

  lemma {:induction false} DeviationsExpand(m: Vec, s: set<Labels>, mean: real)
    requires s <= m.Keys
    ensures SumOver(Deviations(m, mean), s)
         == SumOver(Squares(m), s) - 2.0 * Times(mean, SumOver(m, s)) + Times(|s| as real, Square(mean))
    decreases s
  {
    hide Square;
    hide Times;
    if s == {} {
      ZeroTimes(mean);
      ZeroTimes(Square(mean));
    } else {
      var l :| l in s;
      var rest := s - {l};
      SumOverRemove(m, s, l);
      SumOverRemove(Squares(m), s, l);
      SumOverRemove(Deviations(m, mean), s, l);
      DeviationsExpand(m, rest, mean);
      Variance.DeviationStep(|rest| as real, mean, SumOver(m, rest), m[l]);
      TimesAdd(mean, m[l], SumOver(m, rest));
    }
  }

  lemma MeanTimes(sum: real, n: real)
    requires n > 0.0
    ensures Times(sum / n, n) == sum
  {
  }

  /** The record of a complete group reports the aggregate of its members. */
  lemma ReportIsAggregate(lib: Lib, op: AggOp, g: Acc, m: Vec, s: set<Labels>)
    requires s <= m.Keys && s != {} && AccInv(op, g, m, s)
    ensures Report(lib, op, g) == Aggregate(lib, op, m, s)
  {
    hide Square;
    hide Times;
    var n := |s| as real;
    MeanTimes(SumOver(m, s), n);
    if op.Avg? || op.Stddev? || op.Stdvar? {
      Variance.UniqueMean(g.mean, MeanOf(m, s), n);
    }
    if op.Stddev? || op.Stdvar? {
      DeviationsExpand(m, s, g.mean);
      Variance.MeanSquare(g.mean, n, SumOver(m, s));
    }
    AggregateUnique(lib, op, m, s, Report(lib, op, g));
  }
}

/** Exactly which aggregation of which pointwise function is evaluated correctly by a plan
    that applies the function after the aggregation. */
module MathLimits {
  import opened Types
  import opened Columns
  import opened Plans
  import opened Reals
  import SetSum
  import opened LabelKeys
  import opened Aggregation
  import opened InstantEval
  import opened Translator
  import opened PlanEval
  import opened Selectors
  import opened Meaning
  import opened Preservation
  import opened Hoisting
  import opened HoistingLimits
  import opened Pointwise
  import opened PointwiseLimits

  /** The aggregation and the function may trade places; `own` if every series is a group
      of its own. */
  predicate Trades(own: bool, op: AggOp, k: Kind) {
    match op
    case Sum => own || k.Identity? || IsLevelAt(k, 0.0)
    case Avg => own || k.Identity? || IsLevel(k)
    case Min | Max => own || Monotone(k)
    case Count => if own then FixesOne(k) else FixesNaturals(k)
    case Group => FixesOne(k)
    case Stddev | Stdvar => if own then FixesZero(k) else k.Identity? || IsLevelAt(k, 0.0)
  }

  ghost function Mapped(lib: Lib, k: Kind, m: Vec): Vec {
    map l | l in m :: ApplyKind(lib, k, m[l])
  }

  ghost predicate MovesOut(lib: Lib, k: Kind, step: AggStep, m: Vec) {
    AggregateVec(lib, Mapped(lib, k, m), step) == Mapped(lib, k, AggregateVec(lib, m, step))
  }

  /** The same for one group. */
  ghost predicate MovesOutOf(lib: Lib, k: Kind, op: AggOp, m: Vec, s: set<Labels>)
    requires s <= m.Keys && s != {}
  {
    s <= Mapped(lib, k, m).Keys
    && Aggregate(lib, op, Mapped(lib, k, m), s) == ApplyKind(lib, k, Aggregate(lib, op, m, s))
  }

  predicate KnownKind(k: Kind) { k.Library? ==> k.fn in TRANSCENDENTAL }

  // ---- Where it does ----

  lemma SameGroups(lib: Lib, k: Kind, step: AggStep, m: Vec)
    ensures Groups(Mapped(lib, k, m), step) == Groups(m, step)
    ensures forall g :: Members(Mapped(lib, k, m), step, g) == Members(m, step, g)
  {
    hide ApplyKind;
    var m' := Mapped(lib, k, m);
    assert forall l :: l in m' <==> l in m;
    assert Groups(m', step) == Groups(m, step);
    forall g ensures Members(m', step, g) == Members(m, step, g) {
    }
  }

  lemma EveryGroupMoves(lib: Lib, k: Kind, step: AggStep, m: Vec)
    requires forall g :: g in Groups(m, step) ==>
               Members(m, step, g) != {} && MovesOutOf(lib, k, step.op, m, Members(m, step, g))
    ensures MovesOut(lib, k, step, m)
  {
    SameGroups(lib, k, step, m);
    hide ApplyKind;
    hide Members;
    hide Groups;
    hide Aggregate;
  }

  lemma MappedElements(lib: Lib, k: Kind, m: Vec, s: set<Labels>)
    requires s <= m.Keys
    ensures s <= Mapped(lib, k, m).Keys
    ensures forall l :: l in s ==> l in m && Mapped(lib, k, m)[l] == ApplyKind(lib, k, m[l])
  {
    assert forall l :: l in s ==> l in m.Keys;
  }

  lemma ExtremeMoves(lib: Lib, k: Kind, op: AggOp, m: Vec, s: set<Labels>)
    requires RegularLib(lib) && KnownKind(k) && Monotone(k) && (op.Min? || op.Max?) && s <= m.Keys && s != {}
    ensures MovesOutOf(lib, k, op, m, s)
  {
    MappedElements(lib, k, m, s);
    var v := Aggregate(lib, op, m, s);
    forall l | l in s
      ensures v <= m[l] ==> ApplyKind(lib, k, v) <= ApplyKind(lib, k, m[l])
      ensures m[l] <= v ==> ApplyKind(lib, k, m[l]) <= ApplyKind(lib, k, v)
    {
      if v <= m[l] {
        MonotoneMeaning(lib, k, v, m[l]);
      }
      if m[l] <= v {
        MonotoneMeaning(lib, k, m[l], v);
      }
    }
    hide ApplyKind;
    AggregateUnique(lib, op, Mapped(lib, k, m), s, ApplyKind(lib, k, v));
  }

  lemma CountMoves(lib: Lib, k: Kind, m: Vec, s: set<Labels>)
    requires FixesNaturals(k) && s <= m.Keys && s != {}
    ensures MovesOutOf(lib, k, Count, m, s)
  {
    MappedElements(lib, k, m, s);
    FixedNatural(lib, k, |s|);
    hide ApplyKind;
    AggregateUnique(lib, Count, Mapped(lib, k, m), s, |s| as real);
    AggregateUnique(lib, Count, m, s, |s| as real);
  }

  lemma GroupMoves(lib: Lib, k: Kind, m: Vec, s: set<Labels>)
    requires RegularLib(lib) && FixesOne(k) && s <= m.Keys && s != {}
    ensures MovesOutOf(lib, k, Group, m, s)
  {
    MappedElements(lib, k, m, s);
    FixedOne(lib, k);
    hide ApplyKind;
    AggregateUnique(lib, Group, Mapped(lib, k, m), s, 1.0);
    AggregateUnique(lib, Group, m, s, 1.0);
  }

  lemma IdentityMoves(lib: Lib, k: Kind, op: AggOp, m: Vec, s: set<Labels>)
    requires k.Identity? && s <= m.Keys && s != {}
    ensures MovesOutOf(lib, k, op, m, s)
  {
    assert Mapped(lib, k, m) == m;
  }

  lemma {:induction false} LevelSum(m: Vec, s: set<Labels>, c: real)
    requires s <= m.Keys && forall l :: l in s ==> m[l] == c
    ensures SetSum.SumOver(m, s) == Times(|s| as real, c)
    decreases s
  {
    if s == {} {
      assert Times(0.0, c) == 0.0;
    } else {
      var l :| l in s;
      SetSum.SumOverRemove(m, s, l);
      LevelSum(m, s - {l}, c);
      OneMore(|s - {l}| as real, c);
    }
  }

  lemma OneMore(n: real, c: real)
    ensures Times(n + 1.0, c) == Times(n, c) + c
  {
  }

  lemma LevelMean(m: Vec, s: set<Labels>, c: real)
    requires s <= m.Keys && s != {} && forall l :: l in s ==> m[l] == c
    ensures MeanOf(m, s) == c
  {
    LevelSum(m, s, c);
    TimesCommute(|s| as real, c);
    MeanFromLevel(c, |s| as real);
    hide Times;
  }

  lemma MeanFromLevel(c: real, n: real)
    requires n > 0.0
    ensures Times(c, n) / n == c
  {
  }

  lemma LevelVariance(m: Vec, s: set<Labels>, c: real)
    requires s <= m.Keys && s != {} && forall l :: l in s ==> m[l] == c
    ensures VarianceOf(m, s) == 0.0
  {
    LevelMean(m, s, c);
    assert forall l :: l in s ==> Deviations(m, c)[l] == 0.0;
    SetSum.SumOverZero(Deviations(m, c), s);
  }

  lemma LevelMoves(lib: Lib, k: Kind, op: AggOp, m: Vec, s: set<Labels>)
    requires RegularLib(lib) && s <= m.Keys && s != {}
    requires (op.Avg? && IsLevel(k)) || ((op.Sum? || op.Stddev? || op.Stdvar?) && IsLevelAt(k, 0.0))
    ensures MovesOutOf(lib, k, op, m, s)
  {
    MappedElements(lib, k, m, s);
    var m' := Mapped(lib, k, m);
    assert forall l :: l in s ==> m'[l] == k.lo;
    LevelSum(m', s, k.lo);
    LevelMean(m', s, k.lo);
    LevelVariance(m', s, k.lo);
    assert k.lo == 0.0 ==> Times(|s| as real, k.lo) == 0.0;
    assert forall v :: ApplyKind(lib, k, v) == k.lo;
    hide ApplyKind;
    hide VarianceOf;
    hide MeanOf;
    hide Times;
    AggregateUnique(lib, op, m', s, k.lo);
  }

  lemma OwnMoves(lib: Lib, k: Kind, op: AggOp, m: Vec, l: Labels)
    requires RegularLib(lib) && l in m
    requires op.Count? || op.Group? ==> FixesOne(k)
    requires op.Stddev? || op.Stdvar? ==> FixesZero(k)
    ensures MovesOutOf(lib, k, op, m, {l})
  {
    MappedElements(lib, k, m, {l});
    AggregateOfOne(lib, op, m, l);
    AggregateOfOne(lib, op, Mapped(lib, k, m), l);
    if op.Count? || op.Group? {
      FixedOne(lib, k);
    } else if op.Stddev? || op.Stdvar? {
      FixedZero(lib, k);
    }
  }

  lemma TradesInGroup(lib: Lib, k: Kind, own: bool, op: AggOp, m: Vec, s: set<Labels>)
    requires RegularLib(lib) && KnownKind(k) && Trades(own, op, k) && s <= m.Keys && s != {}
    requires own ==> exists l :: s == {l}
    ensures MovesOutOf(lib, k, op, m, s)
  {
    hide ApplyKind;
    hide Aggregate;
    if own {
      var l :| s == {l};
      assert l in s;
      OwnMoves(lib, k, op, m, l);
    } else {
      match op
      case Min | Max => ExtremeMoves(lib, k, op, m, s);
      case Count => CountMoves(lib, k, m, s);
      case Group => GroupMoves(lib, k, m, s);
      case _ =>
        if k.Identity? {
          IdentityMoves(lib, k, op, m, s);
        } else {
          LevelMoves(lib, k, op, m, s);
        }
    }
  }

  /** Where the conditions allow it the two trade places. */
  lemma TradesMove(lib: Lib, k: Kind, own: bool, step: AggStep, m: Vec)
    requires RegularLib(lib) && KnownKind(k) && Trades(own, step.op, k) && (own ==> Apart(step, m))
    ensures MovesOut(lib, k, step, m)
  {
    forall g | g in Groups(m, step)
      ensures Members(m, step, g) != {} && MovesOutOf(lib, k, step.op, m, Members(m, step, g))
    {
      GroupHasMembers(m, step, g);
      if own {
        OwnGroups(step, m, g);
      }
      TradesInGroup(lib, k, own, step.op, m, Members(m, step, g));
    }
    hide Trades;
    hide MovesOutOf;
    hide Apart;
    EveryGroupMoves(lib, k, step, m);
  }

  // ---- Where it does not ----

  lemma MappedAt(lib: Lib, k: Kind, m: Vec, l: Labels)
    requires l in m
    ensures l in Mapped(lib, k, m) && Mapped(lib, k, m)[l] == ApplyKind(lib, k, m[l])
    ensures Mapped(lib, k, m).Keys == m.Keys
  {
  }

  /** One group on both sides, with different values. */
  lemma OneGroupFails(lib: Lib, k: Kind, step: AggStep, m: Vec, g: Labels, inner: real, outer: real)
    requires AggregateVec(lib, m, step) == map[g := inner]
    requires AggregateVec(lib, Mapped(lib, k, m), step) == map[g := outer]
    requires outer != ApplyKind(lib, k, inner)
    ensures !MovesOut(lib, k, step, m)
  {
    hide ApplyKind;
    hide AggregateVec;
    var agg: Vec := map[g := inner];
    MappedAt(lib, k, agg, g);
    assert Mapped(lib, k, agg)[g] != (map[g := outer])[g];
  }

  lemma PairDoesNotMove(lib: Lib, k: Kind, step: AggStep, l: Labels, l': Labels, x: real, y: real)
    requires SameGroup(step, l, l') && PairFails(lib, step.op, k, x, y)
    ensures !MovesOut(lib, k, step, map[l := x, l' := y])
  {
    var m: Vec := map[l := x, l' := y];
    assert l != l' && m.Keys == {l, l'} && m[l] == x && m[l'] == y;
    MappedAt(lib, k, m, l);
    MappedAt(lib, k, m, l');
    hide ApplyKind;
    hide AggregateVec;
    hide Aggregate;
    hide PairAggregate;
    hide Mapped;
    hide GroupLabels;
    var m' := Mapped(lib, k, m);
    GroupOfTwo(lib, step, m, l, l');
    GroupOfTwo(lib, step, m', l, l');
    AggregateOfTwo(lib, step.op, m, l, l');
    AggregateOfTwo(lib, step.op, m', l, l');
    hide SameGroup;
    OneGroupFails(lib, k, step, m, GroupLabels(l, step.grouping, step.without),
                  Aggregate(lib, step.op, m, {l, l'}), Aggregate(lib, step.op, m', {l, l'}));
  }

  /** An aggregate of one series that does not depend on its value. */
  lemma SingleDoesNotMove(lib: Lib, k: Kind, step: AggStep, l: Labels, v: real)
    requires OwnAggregate(lib, step.op, 0.0) == v == OwnAggregate(lib, step.op, ApplyKind(lib, k, 0.0))
    requires ApplyKind(lib, k, v) != v
    ensures !MovesOut(lib, k, step, map[l := 0.0])
  {
    var m: Vec := map[l := 0.0];
    MappedAt(lib, k, m, l);
    hide ApplyKind;
    hide AggregateVec;
    hide Aggregate;
    hide Mapped;
    hide OwnAggregate;
    hide GroupLabels;
    var m' := Mapped(lib, k, m);
    GroupOfOne(lib, step, m, l);
    GroupOfOne(lib, step, m', l);
    AggregateOfOne(lib, step.op, m, l);
    AggregateOfOne(lib, step.op, m', l);
    OneGroupFails(lib, k, step, m, GroupLabels(l, step.grouping, step.without), v, v);
  }

  // ---- Many series in one group ----

  ghost function Series(sel: Selector, n: string, count: nat): set<Labels>
    requires !Contradictory(sel)
  {
    set i | 0 <= i < count :: Varied(sel, n, i)
  }

  lemma SeriesStep(sel: Selector, n: string, count: nat)
    requires !Contradictory(sel)
    ensures Varied(sel, n, count) !in Series(sel, n, count)
    ensures Series(sel, n, count + 1) == Series(sel, n, count) + {Varied(sel, n, count)}
  {
    forall i | 0 <= i < count ensures Varied(sel, n, i) != Varied(sel, n, count) {
      VariedDiffer(sel, n, i, count);
    }
    hide Varied;
    hide Contradictory;
  }

  lemma NoSeries(sel: Selector, n: string)
    requires !Contradictory(sel)
    ensures Series(sel, n, 0) == {}
  {
    hide Varied;
    hide Contradictory;
  }

  lemma {:induction false} SeriesCount(sel: Selector, n: string, count: nat)
    requires !Contradictory(sel)
    ensures |Series(sel, n, count)| == count
  {
    hide *;
    if count > 0 {
      SeriesCount(sel, n, count - 1);
      SeriesStep(sel, n, count - 1);
    } else {
      NoSeries(sel, n);
    }
  }

  ghost predicate OneGroup(step: AggStep, s: set<Labels>, g: Labels) {
    forall l :: l in s ==> GroupLabels(l, step.grouping, step.without) == g
  }

  lemma SeriesFit(step: AggStep, sel: Selector, n: string, count: nat) returns (g: Labels)
    requires !Contradictory(sel) && Loose(sel, n) && (n in step.grouping) == step.without
    ensures OneGroup(step, Series(sel, n, count), g)
    ensures forall l :: l in Series(sel, n, count) ==> Fits(sel, l)
  {
    g := GroupLabels(Varied(sel, n, 0), step.grouping, step.without);
    VariedGroup(step, sel, n, 0);
    forall l | l in Series(sel, n, count) ensures GroupLabels(l, step.grouping, step.without) == g && Fits(sel, l) {
      var i :| 0 <= i < count && l == Varied(sel, n, i);
      VariedGroup(step, sel, n, i);
      VariedFits(sel, n, i);
    }
  }

  lemma ManyDoNotMove(step: AggStep, sel: Selector, k: Kind, lib: Lib, n: string, count: nat) returns (m: Vec)
    requires step.op == Count && count >= 1 && ApplyKind(lib, k, count as real) != count as real
    requires !Contradictory(sel) && Loose(sel, n) && (n in step.grouping) == step.without
    ensures AllFit(sel, m) && !MovesOut(lib, k, step, m)
  {
    var s := Series(sel, n, count);
    m := map l | l in s :: 0.0;
    SeriesCount(sel, n, count);
    var g := SeriesFit(step, sel, n, count);
    hide Series;
    hide Fits;
    hide Contradictory;
    assert s != {};
    CountOfAll(lib, step, m, s, g);
    hide ApplyKind;
    assert Mapped(lib, k, m).Keys == s;
    CountOfAll(lib, step, Mapped(lib, k, m), s, g);
    hide AggregateVec;
    hide OneGroup;
    OneGroupFails(lib, k, step, m, g, count as real, count as real);
  }

  lemma CountOfAll(lib: Lib, step: AggStep, m: Vec, s: set<Labels>, g: Labels)
    requires step.op == Count && m.Keys == s != {} && OneGroup(step, s, g)
    ensures AggregateVec(lib, m, step) == map[g := |s| as real]
  {
    hide GroupLabels;
    assert forall l :: l in m <==> l in s;
    assert Members(m, step, g) == s;
    var l :| l in s;
    assert Groups(m, step) == {g};
    AggregateUnique(lib, Count, m, s, |s| as real);
    hide Aggregate;
  }

  /** Values and a regular library for which the two may not trade places, wherever the
      conditions forbid it. */
  lemma DoesNotMove(step: AggStep, sel: Selector, k: Kind) returns (lib: Lib, m: Vec)
    requires !Contradictory(sel) && KnownKind(k) && !Trades(OwnGroup(step, sel), step.op, k)
    ensures RegularLib(lib) && AllFit(sel, m) && !MovesOut(lib, k, step, m)
  {
    hide MovesOut;
    hide ApplyKind;
    RegularWitnesses();
    BaseFits(sel);
    hide RegularLib;
    hide Contradictory;
    hide Base;
    hide Fits;
    var op, l := step.op, Base(sel);
    lib := LibFor(op, k);
    m := map[l := 0.0];
    if op.Group? || (op.Count? && OwnGroup(step, sel)) {
      NotFixedOne(op, k);
      SingleDoesNotMove(lib, k, step, l, 1.0);
    } else if op.Count? {
      var n := DroppedLabel(step, sel);
      NotFixedNatural(k);
      m := ManyDoNotMove(step, sel, k, lib, n, MovedNatural(k));
    } else if OwnGroup(step, sel) {
      NotFixedZero(op, k);
      SpreadOfOne(op, k);
      SingleDoesNotMove(lib, k, step, l, 0.0);
    } else {
      var k1, k2 := TwoSeries(step, sel);
      var x, y := FailingPair(op, k);
      m := map[k1 := x, k2 := y];
      PairDoesNotMove(lib, k, step, k1, k2, x, y);
    }
  }

  lemma SpreadOfOne(op: AggOp, k: Kind)
    requires op.Stddev? || op.Stdvar?
    ensures OwnAggregate(LibFor(op, k), op, 0.0) == 0.0
    ensures OwnAggregate(LibFor(op, k), op, ApplyKind(LibFor(op, k), k, 0.0)) == 0.0
  {
    hide ApplyKind;
  }

  lemma FailingPair(op: AggOp, k: Kind) returns (x: real, y: real)
    requires !op.Count? && !op.Group?
    requires match op
             case Sum => !k.Identity? && !IsLevelAt(k, 0.0)
             case Avg => !k.Identity? && !IsLevel(k)
             case Min | Max => !Monotone(k)
             case _ => !k.Identity? && !IsLevelAt(k, 0.0)
    ensures PairFails(LibFor(op, k), op, k, x, y)
  {
    hide PairFails;
    match op
    case Sum =>
      x, y := SumPair(k).0, SumPair(k).1;
      SumFails(k);
    case Avg =>
      x, y := AvgPair(k).0, AvgPair(k).1;
      AvgFails(k);
    case Min | Max =>
      x, y := -2.0, 1.0;
      ExtremeFails(op, k);
    case _ =>
      x, y := SpreadPair(k).0, SpreadPair(k).1;
      SpreadFails(op, k);
  }

  // ---- Expressions ----

  function MathKind(fn: string, args: seq<Expr>): Option<Kind> {
    match MathStepOf(fn, args)
    case Some(s) => KindOf(s)
    case None => None
  }

  lemma MathIsKnown(fn: string, args: seq<Expr>)
    requires IsMath(fn, args)
    ensures MathKind(fn, args).Some? && KnownKind(MathKind(fn, args).value)
  {
  }

  lemma OneStepMapped(lib: Lib, s: MathStep, v: Vec)
    requires KindOf(s).Some?
    ensures MathVec(VectorMath(lib), [s], v) == Mapped(lib, KindOf(s).value, v)
  {
    hide ApplyKind;
    hide VectorMathOp;
    forall x ensures Chain(VectorMath(lib), [s], x) == ApplyKind(lib, KindOf(s).value, x) {
      ChainSnoc(VectorMath(lib), [], s, x);
      assert [] + [s] == [s];
      KindMeaning(lib, s, x);
    }
  }

  lemma MathCallMeaning(env: Env, fn: string, args: seq<Expr>, t: int)
    requires ValidEnv(env) && IsMath(fn, args) && Denote(env, args[0], t).Some?
    ensures MathKind(fn, args).Some?
    ensures Denote(env, Call(fn, args), t) == Some(Mapped(env.lib, MathKind(fn, args).value, Denote(env, args[0], t).value))
  {
    MathIsKnown(fn, args);
    CallMeaning(env, fn, args, t);
    hide Denote;
    hide ValidEnv;
    hide RangeCallOf;
    hide MathStepOf;
    OneStepMapped(env.lib, MathStepOf(fn, args).value, Denote(env, args[0], t).value);
  }

  /** An aggregation of a pointwise function of a selector. */
  function MathUnder(step: AggStep, fn: string, args: seq<Expr>): Expr {
    AggregateExpr(step, Call(fn, args))
  }

  lemma MathIsChain(step: AggStep, fn: string, args: seq<Expr>)
    requires IsMath(fn, args) && args[0].VectorSelector? && NamesItsMetric(args[0].sel)
    ensures IsChain(MathUnder(step, fn, args))
  {
    assert |args| >= 1;
    hide IsMath;
    hide NamesItsMetric;
    assert IsChain(args[0]);
    assert IsChain(Call(fn, args));
  }

  lemma MathUnderCanonical(step: AggStep, fn: string, args: seq<Expr>)
    requires IsMath(fn, args) && args[0].VectorSelector? && NamesItsMetric(args[0].sel)
    ensures var outer := [AggregateExpr(step, args[0])] + args[1..];
            && IsChain(MathUnder(step, fn, args))
            && Canonical(MathUnder(step, fn, args)) == Call(fn, outer)
            && IsMath(fn, outer) && MathKind(fn, outer) == MathKind(fn, args)
  {
    MathIsChain(step, fn, args);
    HeadReplaced(fn, args, AggregateExpr(step, args[0]));
    hide IsMath;
    hide NamesItsMetric;
    hide IsChain;
    assert Canonical(args[0]) == args[0];
    assert [args[0]] + args[1..] == args;
    assert Canonical(Call(fn, args)) == Call(fn, args);
    assert AggregateInside(step, args[0]) == AggregateExpr(step, args[0]);
  }

  lemma MathUnderDenotes(env: Env, step: AggStep, fn: string, args: seq<Expr>, t: int)
    requires ValidEnv(env) && IsMath(fn, args) && args[0].VectorSelector?
    ensures MathKind(fn, args).Some? && Denote(env, args[0], t).Some?
    ensures var e, k, v := MathUnder(step, fn, args), MathKind(fn, args).value, Denote(env, args[0], t).value;
            && (FetchFaithful(env, e) <==> FetchFaithful(env, args[0]))
            && Denote(env, e, t) == Some(AggregateVec(env.lib, Mapped(env.lib, k, v), step))
  {
    hide InstantVec;
    hide AggregateVec;
    hide Mapped;
    hide Selected;
    hide MathKind;
    MathCallMeaning(env, fn, args, t);
  }

  lemma MathUnderMeaning(env: Env, step: AggStep, fn: string, args: seq<Expr>, t: int)
    requires ValidEnv(env) && IsMath(fn, args) && args[0].VectorSelector? && NamesItsMetric(args[0].sel)
    ensures MathKind(fn, args).Some? && Denote(env, args[0], t).Some?
    ensures var e, k, v := MathUnder(step, fn, args), MathKind(fn, args).value, Denote(env, args[0], t).value;
            && IsChain(e)
            && Denote(env, Canonical(e), t) == Some(Mapped(env.lib, k, AggregateVec(env.lib, v, step)))
  {
    hide InstantVec;
    hide AggregateVec;
    hide Mapped;
    hide Selected;
    hide MathKind;
    MathUnderCanonical(step, fn, args);
    MathIsKnown(fn, args);
    MathCallMeaning(env, fn, [AggregateExpr(step, args[0])] + args[1..], t);
    hide IsMath;
    hide NamesItsMetric;
  }

  /** An aggregation of a pointwise function of a selector is evaluated as the function of
      the aggregation. For all data, steps and regular libraries this is right exactly when
      the selector names its metric and the name and the parameters of the function meet the
      condition for the aggregation; or when nothing passes the selector. */
  lemma MathUnderAggregation(step: AggStep, fn: string, args: seq<Expr>)
    requires IsMath(fn, args) && args[0].VectorSelector?
    ensures MathKind(fn, args).Some?
    ensures var sel := args[0].sel;
            AlwaysCorrect(MathUnder(step, fn, args))
            <==> Contradictory(sel) || (NamesItsMetric(sel) && Trades(OwnGroup(step, sel), step.op, MathKind(fn, args).value))
  {
    MathIsKnown(fn, args);
    var sel, e, k := args[0].sel, MathUnder(step, fn, args), MathKind(fn, args).value;
    if Contradictory(sel) {
      forall env, steps | ValidEnv(env) && RegularLib(env.lib) && StepsInQuery(env, steps) && FetchFaithful(env, e)
        ensures Means(env, e, steps, PlanResult(env, e, steps))
      {
        MathUnderNothing(env, step, fn, args, steps);
      }
    } else if !NamesItsMetric(sel) {
      MathUnderMisnamed(step, fn, args);
    } else if Trades(OwnGroup(step, sel), step.op, k) {
      forall env, steps | ValidEnv(env) && RegularLib(env.lib) && StepsInQuery(env, steps) && FetchFaithful(env, e)
        ensures Means(env, e, steps, PlanResult(env, e, steps))
      {
        MathUnderRight(env, step, fn, args, steps);
      }
    } else {
      var lib, m := DoesNotMove(step, sel, k);
      MathUnderWrong(lib, m, step, fn, args);
    }
  }

  lemma SelectorFits(env: Env, sel: Selector, t: int)
    requires ValidEnv(env)
    ensures Denote(env, VectorSelector(sel), t).Some? && AllFit(sel, Denote(env, VectorSelector(sel), t).value)
  {
    SelectedFits(env, sel);
    hide Selected;
    hide Fits;
  }

  lemma MathUnderRight(env: Env, step: AggStep, fn: string, args: seq<Expr>, steps: seq<int>)
    requires ValidEnv(env) && RegularLib(env.lib) && StepsInQuery(env, steps)
    requires FetchFaithful(env, MathUnder(step, fn, args))
    requires IsMath(fn, args) && args[0].VectorSelector? && NamesItsMetric(args[0].sel)
    requires MathKind(fn, args).Some? && Trades(OwnGroup(step, args[0].sel), step.op, MathKind(fn, args).value)
    ensures var e := MathUnder(step, fn, args); Means(env, e, steps, PlanResult(env, e, steps))
  {
    var e, sel := MathUnder(step, fn, args), args[0].sel;
    MathIsKnown(fn, args);
    MathUnderMeaning(env, step, fn, args, 0);
    hide *;
    assert VectorSelector(sel) == args[0];
    forall t | t in steps ensures Denote(env, e, t) == Denote(env, Canonical(e), t) {
      MathUnderDenotes(env, step, fn, args, t);
      MathUnderMeaning(env, step, fn, args, t);
      SelectorFits(env, sel, t);
      var v := Denote(env, args[0], t).value;
      if OwnGroup(step, sel) {
        FittingApart(step, sel, v);
      }
      TradesMove(env.lib, MathKind(fn, args).value, OwnGroup(step, sel), step, v);
      MovesOutMeans(env.lib, MathKind(fn, args).value, step, v);
    }
    ChainCorrect(env, e, steps);
  }

  lemma MovesOutMeans(lib: Lib, k: Kind, step: AggStep, m: Vec)
    ensures MovesOut(lib, k, step, m) <==> AggregateVec(lib, Mapped(lib, k, m), step) == Mapped(lib, k, AggregateVec(lib, m, step))
  {
  }

  lemma DifferentMeanings(env: Env, step: AggStep, fn: string, args: seq<Expr>, m: Vec)
    requires ValidEnv(env) && IsMath(fn, args) && args[0].VectorSelector? && NamesItsMetric(args[0].sel)
    requires Denote(env, args[0], 0) == Some(m)
    requires MathKind(fn, args).Some? && !MovesOut(env.lib, MathKind(fn, args).value, step, m)
    ensures var e := MathUnder(step, fn, args);
            && IsChain(e) && (FetchFaithful(env, e) <==> FetchFaithful(env, args[0]))
            && Denote(env, e, 0) != Denote(env, Canonical(e), 0)
  {
    hide *;
    MathUnderDenotes(env, step, fn, args, 0);
    MathUnderMeaning(env, step, fn, args, 0);
    MovesOutMeans(env.lib, MathKind(fn, args).value, step, m);
  }

  lemma MathUnderWrong(lib: Lib, m: Vec, step: AggStep, fn: string, args: seq<Expr>)
    requires IsMath(fn, args) && args[0].VectorSelector? && NamesItsMetric(args[0].sel)
    requires AllFit(args[0].sel, m) && RegularLib(lib)
    requires MathKind(fn, args).Some? && !MovesOut(lib, MathKind(fn, args).value, step, m)
    ensures !AlwaysCorrect(MathUnder(step, fn, args))
  {
    var sel := args[0].sel;
    var metric := MetricName(sel.name, sel.matchers);
    var db := OneSample(m, sel.offsetMs);
    var env := EnvOf(lib, db, metric, LabelsOnly());
    hide *;
    assert args[0] == VectorSelector(sel);
    EnvIs(lib, db, metric, LabelsOnly());
    NamedAcceptsOne(sel);
    AnyVector(lib, m, sel, metric);
    DifferentMeanings(env, step, fn, args, m);
    WrongSomewhere(env, MathUnder(step, fn, args));
  }

  // ---- Selectors of another name, or of nothing ----

  function WithSelector(args: seq<Expr>, sel: Selector): seq<Expr>
    requires args != []
  {
    [VectorSelector(sel)] + args[1..]
  }

  lemma MathUnderNamed(c: Config, step: AggStep, fn: string, args: seq<Expr>)
    requires IsMath(fn, args) && args[0].VectorSelector?
    ensures var args' := WithSelector(args, Named(args[0].sel));
            && IsMath(fn, args') && MathKind(fn, args') == MathKind(fn, args)
            && Translate(c, MathUnder(step, fn, args)) == Translate(c, MathUnder(step, fn, args'))
  {
    var args' := WithSelector(args, Named(args[0].sel));
    HeadReplaced(fn, args, VectorSelector(Named(args[0].sel)));
    SelectorNamed(c, args[0].sel);
    assert args[0] == VectorSelector(args[0].sel);
    assert Translate(c, args[0]) == Translate(c, args'[0]) && Translate(c, args[0]).Some?;
    hide IsMath;
    MathPlan(c, fn, args);
    MathPlan(c, fn, args');
    hide Translate;
    AggregatedAlike(c, step, Call(fn, args), Call(fn, args'));
  }

  lemma SelectorNamed(c: Config, sel: Selector)
    ensures Translate(c, VectorSelector(sel)) == Translate(c, VectorSelector(Named(sel)))
  {
    NamedMeaning(sel);
  }

  lemma AggregatedAlike(c: Config, step: AggStep, e: Expr, e': Expr)
    requires Translate(c, e) == Translate(c, e')
    ensures Translate(c, AggregateExpr(step, e)) == Translate(c, AggregateExpr(step, e'))
  {
  }

  lemma NothingMapped(lib: Lib, k: Kind, step: AggStep)
    ensures Mapped(lib, k, map[]) == map[] && AggregateVec(lib, map[], step) == map[]
  {
    AggregateNothing(lib, step);
  }

  /** One series under the name that only one of the two means. */
  lemma MathUnderMisnamed(step: AggStep, fn: string, args: seq<Expr>)
    requires IsMath(fn, args) && args[0].VectorSelector?
    requires !Contradictory(args[0].sel) && !NamesItsMetric(args[0].sel)
    ensures !AlwaysCorrect(MathUnder(step, fn, args))
  {
    var sel := args[0].sel;
    var metric := Misnamed(sel);
    var l := Base(sel);
    BaseFits(sel);
    hide *;
    MisnamedSeries(step, fn, args, sel, metric, l, map[l := 0.0]);
  }

  lemma MisnamedSeries(step: AggStep, fn: string, args: seq<Expr>, sel: Selector, metric: string, l: Labels, m: Vec)
    requires IsMath(fn, args) && args[0] == VectorSelector(sel) && m == map[l := 0.0] && Fits(sel, l)
    requires AcceptsName(LabelsOnly(), sel, metric) != (metric == MetricName(sel.name, sel.matchers))
    ensures !AlwaysCorrect(MathUnder(step, fn, args))
  {
    var args' := WithSelector(args, Named(sel));
    var db := OneSample(m, sel.offsetMs);
    var env := EnvOf(PLAIN, db, metric, LabelsOnly());
    assert m.Keys == {l};
    FittingVec(sel, l, m);
    assert args'[0] == VectorSelector(Named(sel)) && Named(sel).offsetMs == sel.offsetMs;
    hide *;
    EnvIs(PLAIN, db, metric, LabelsOnly());
    RegularWitnesses();
    MathUnderNamed(env.config, step, fn, args);
    NamedMeaning(sel);
    NamedAcceptsOne(Named(sel));
    AnyVector(PLAIN, m, sel, metric);
    AnyVector(PLAIN, m, Named(sel), metric);
    MathUnderDenotes(env, step, fn, args, 0);
    MathUnderDenotes(env, step, fn, args', 0);
    MathUnderMeaning(env, step, fn, args', 0);
    NothingMapped(PLAIN, MathKind(fn, args).value, step);
    SomethingStays(PLAIN, MathKind(fn, args).value, step, m, l);
    WrongForAnother(env, MathUnder(step, fn, args), MathUnder(step, fn, args'));
  }

  lemma FittingVec(sel: Selector, l: Labels, m: Vec)
    requires Fits(sel, l) && m.Keys == {l}
    ensures AllFit(sel, m) && AllFit(Named(sel), m)
  {
    NamedFits(sel, l);
    hide Fits;
    assert forall k :: k in m ==> k in m.Keys;
  }

  lemma MathUnderNothing(env: Env, step: AggStep, fn: string, args: seq<Expr>, steps: seq<int>)
    requires ValidEnv(env) && StepsInQuery(env, steps)
    requires IsMath(fn, args) && args[0].VectorSelector? && Contradictory(args[0].sel)
    requires FetchFaithful(env, MathUnder(step, fn, args))
    ensures var e := MathUnder(step, fn, args); Means(env, e, steps, PlanResult(env, e, steps))
  {
    var sel := args[0].sel;
    var args' := WithSelector(args, Named(sel));
    MathUnderNamed(env.config, step, fn, args);
    NamedMeaning(sel);
    MathIsKnown(fn, args);
    var k := MathKind(fn, args).value;
    assert args[0] == VectorSelector(sel) && args'[0] == VectorSelector(Named(sel));
    hide *;
    MathUnderDenotes(env, step, fn, args, 0);
    MathUnderDenotes(env, step, fn, args', 0);
    MathUnderMeaning(env, step, fn, args', 0);
    NothingThere(env, sel, 0);
    NothingMapped(env.lib, k, step);
    forall t | t in steps
      ensures Denote(env, MathUnder(step, fn, args), t) == Denote(env, Canonical(MathUnder(step, fn, args')), t)
    {
      NothingThere(env, sel, t);
      MathUnderDenotes(env, step, fn, args, t);
      MathUnderMeaning(env, step, fn, args', t);
    }
    RightForAnother(env, MathUnder(step, fn, args), MathUnder(step, fn, args'), steps);
  }

  lemma SomethingStays(lib: Lib, k: Kind, step: AggStep, m: Vec, l: Labels)
    requires m.Keys == {l}
    ensures AggregateVec(lib, Mapped(lib, k, m), step) != map[] && Mapped(lib, k, AggregateVec(lib, m, step)) != map[]
  {
    hide ApplyKind;
    MappedAt(lib, k, m, l);
    GroupOfOne(lib, step, m, l);
    GroupOfOne(lib, step, Mapped(lib, k, m), l);
    hide AggregateVec;
    hide Aggregate;
    var g := GroupLabels(l, step.grouping, step.without);
    assert g in AggregateVec(lib, m, step) && g in AggregateVec(lib, Mapped(lib, k, m), step);
    assert g in Mapped(lib, k, AggregateVec(lib, m, step));
  }

  // ---- Any nesting ----

  /** All pointwise functions of a chain, from the inside out. */
  ghost function MathKinds(e: Expr): seq<Option<Kind>>
    decreases e
  {
    match e
    case Call(fn, args) => if IsMath(fn, args) then MathKinds(args[0]) + [MathKind(fn, args)] else []
    case AggregateExpr(_, inner) => MathKinds(inner)
    case ParenExpr(inner) => MathKinds(inner)
    case _ => []
  }

  /** The parameter of the core that an aggregation would lose. */
  ghost function CoreParam(e: Expr): real
    decreases e
  {
    match e
    case Call(fn, args) => if IsMath(fn, args) then CoreParam(args[0]) else Param(e)
    case ParenExpr(inner) => CoreParam(inner)
    case _ => 0.0
  }

  ghost predicate AllTradeWith(step: AggStep, kinds: seq<Option<Kind>>) {
    forall i :: 0 <= i < |kinds| ==> kinds[i].Some? && Trades(DropsNothing(step), step.op, kinds[i].value)
  }

  /** Every aggregation of the chain may trade places with all functions inside it, and
      loses no parameter. */
  ghost predicate AllTrade(e: Expr)
    decreases e
  {
    match e
    case Call(fn, args) => IsMath(fn, args) ==> AllTrade(args[0])
    case AggregateExpr(step, inner) => AllTrade(inner) && AllTradeWith(step, MathKinds(inner)) && CoreParam(inner) == 0.0
    case ParenExpr(inner) => AllTrade(inner)
    case _ => true
  }

  lemma DropNothing(e: Expr)
    requires Spine(e) && !e.ParenExpr? && Param(e) == 0.0
    ensures DropParam(e) == e
  {
    if e.Call? && e.fn == "quantile_over_time" {
      assert e.args[0 := NumberLiteral(0.0)] == e.args;
    } else if e.Call? && (e.fn == "predict_linear" || e.fn == "double_exponential_smoothing") {
      assert e.args[1 := NumberLiteral(0.0)] == e.args;
    }
  }

  lemma {:induction false} SpineHasNoMath(e: Expr)
    requires Spine(e)
    ensures MathKinds(e) == []
  {
    match e
    case AggregateExpr(_, inner) => SpineHasNoMath(inner);
    case ParenExpr(inner) => SpineHasNoMath(inner);
    case _ =>
  }

  /** Moving an aggregation inside keeps the functions, and keeps the meaning where they may
      trade places. */
  lemma {:induction false} AggregateInsideDenotes(env: Env, step: AggStep, e: Expr, t: int)
    requires ValidEnv(env) && RegularLib(env.lib) && Hoisted(e)
    requires AllTradeWith(step, MathKinds(e)) && CoreParam(e) == 0.0
    ensures Denote(env, e, t).Some? && NotParen(AggregateInside(step, e))
    ensures Denote(env, AggregateInside(step, e), t) == Some(AggregateVec(env.lib, Denote(env, e, t).value, step))
    decreases e
  {
    HoistedDenotes(env, e, t);
    AggregateInsidePlan(env.config, step, e);
    if IsMathCall(e) {
      AggregateInsideMath(env, step, e, t);
    } else {
      DropNothing(e);
      hide AggregateVec;
    }
  }

  lemma {:induction false} AggregateInsideMath(env: Env, step: AggStep, e: Expr, t: int)
    requires ValidEnv(env) && RegularLib(env.lib) && Hoisted(e) && IsMathCall(e)
    requires AllTradeWith(step, MathKinds(e)) && CoreParam(e) == 0.0
    ensures Denote(env, e, t).Some?
    ensures Denote(env, AggregateInside(step, e), t) == Some(AggregateVec(env.lib, Denote(env, e, t).value, step))
    decreases e, 0
  {
    var fn, args := e.fn, e.args;
    var kinds := MathKinds(args[0]);
    assert MathKinds(e) == kinds + [MathKind(fn, args)];
    assert AllTradeWith(step, kinds) by {
      assert forall i :: 0 <= i < |kinds| ==> kinds[i] == MathKinds(e)[i];
    }
    assert Trades(DropsNothing(step), step.op, MathKind(fn, args).value) by {
      assert MathKinds(e)[|kinds|] == MathKind(fn, args);
    }
    AggregateInsideDenotes(env, step, args[0], t);
    MathIsKnown(fn, args);
    HeadReplaced(fn, args, AggregateInside(step, args[0]));
    hide AllTradeWith;
    hide RegularLib;
    hide Trades;
    hide IsMath;
    hide AggregateVec;
    var k := MathKind(fn, args).value;
    MathCallMeaning(env, fn, args, t);
    MathCallMeaning(env, fn, [AggregateInside(step, args[0])] + args[1..], t);
    if DropsNothing(step) {
      NothingDropped(step, Denote(env, args[0], t).value);
    }
    TradesMove(env.lib, k, DropsNothing(step), step, Denote(env, args[0], t).value);
  }

  lemma {:induction false} AggregateInsideKinds(c: Config, step: AggStep, e: Expr)
    requires Hoisted(e)
    ensures MathKinds(AggregateInside(step, e)) == MathKinds(e) && CoreParam(AggregateInside(step, e)) == 0.0
    decreases e
  {
    if IsMathCall(e) {
      var head := AggregateInside(step, e.args[0]);
      AggregateInsideKinds(c, step, e.args[0]);
      AggregateInsidePlan(c, step, e.args[0]);
      HeadReplaced(e.fn, e.args, head);
    } else {
      SpineHasNoMath(e);
      DropParamPlan(c, e);
      SpineHasNoMath(DropParam(e));
    }
  }

  lemma {:induction false} CanonicalKinds(c: Config, e: Expr)
    requires IsChain(e)
    ensures MathKinds(Canonical(e)) == MathKinds(e) && CoreParam(Canonical(e)) == CoreParam(e)
    decreases e
  {
    match e
    case VectorSelector(_) =>
    case Call(fn, args) =>
      if IsMath(fn, args) {
        CanonicalKinds(c, args[0]);
        CanonicalPlan(c, args[0]);
        HeadReplaced(fn, args, Canonical(args[0]));
      }
    case AggregateExpr(step, inner) =>
      CanonicalKinds(c, inner);
      CanonicalPlan(c, inner);
      AggregateInsideKinds(c, step, Canonical(inner));
    case ParenExpr(inner) =>
      CanonicalKinds(c, inner);
  }

  lemma {:induction false} CanonicalMeansTheSame(env: Env, e: Expr, t: int)
    requires ValidEnv(env) && RegularLib(env.lib) && IsChain(e) && AllTrade(e)
    ensures Denote(env, Canonical(e), t) == Denote(env, e, t)
    decreases e
  {
    hide RegularLib;
    ChainDenotes(env, e, t);
    match e
    case VectorSelector(_) =>
    case Call(fn, args) =>
      if IsMath(fn, args) {
        CanonicalMeansTheSame(env, args[0], t);
        CanonicalPlan(env.config, args[0]);
        HeadReplaced(fn, args, Canonical(args[0]));
        ChainDenotes(env, args[0], t);
        MathCallMeaning(env, fn, args, t);
        MathCallMeaning(env, fn, [Canonical(args[0])] + args[1..], t);
      }
    case AggregateExpr(step, inner) =>
      CanonicalMeansTheSame(env, inner, t);
      CanonicalPlan(env.config, inner);
      CanonicalKinds(env.config, inner);
      AggregateInsideDenotes(env, step, Canonical(inner), t);
    case ParenExpr(inner) =>
      CanonicalMeansTheSame(env, inner, t);
  }

  /** Any nesting of aggregations and pointwise functions in which all of them may trade
      places is evaluated correctly. */
  lemma TradingChainIsCorrect(e: Expr)
    requires IsChain(e) && AllTrade(e)
    ensures AlwaysCorrect(e)
  {
    forall env, steps | ValidEnv(env) && RegularLib(env.lib) && StepsInQuery(env, steps) && FetchFaithful(env, e)
      ensures Means(env, e, steps, PlanResult(env, e, steps))
    {
      TradingChainMeans(env, e, steps);
    }
  }

  lemma TradingChainMeans(env: Env, e: Expr, steps: seq<int>)
    requires ValidEnv(env) && RegularLib(env.lib) && StepsInQuery(env, steps)
    requires IsChain(e) && AllTrade(e) && FetchFaithful(env, e)
    ensures Means(env, e, steps, PlanResult(env, e, steps))
  {
    hide RegularLib;
    hide Denote;
    hide Canonical;
    forall t | t in steps ensures Denote(env, e, t) == Denote(env, Canonical(e), t) {
      CanonicalMeansTheSame(env, e, t);
    }
    hide Means;
    ChainCorrect(env, e, steps);
  }
}

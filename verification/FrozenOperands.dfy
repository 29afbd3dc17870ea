/** What becomes of an operand that is one series without labels, and of the math around
    such an operator (eval/evaluator.go:226-235 and 1415-1434), and exactly when that is
    what the expression means. */
module FrozenOperands {
  import opened Types
  import opened Columns
  import opened Plans
  import opened InstantEval
  import opened BinaryVectors
  import opened BinaryEval
  import opened Translator
  import opened PlanEval
  import opened Meaning
  import opened Preservation
  import opened Hoisting

  /** The result is the operator between each sample of `side` and one number. */
  ghost predicate IsFrozen(env: Env, e: Expr, side: Expr, steps: seq<int>, onLeft: bool, c: real, result: Option<Table>)
    requires ValidEnv(env) && e.BinaryExpr?
  {
    && result.Some? && Normal(result.value)
    && (forall t :: t in steps ==>
          Some(Column(result.value, t)) == ScalarMeaning(env.lib, e.op, e.returnBool, onLeft, c, Denote(env, side, t)))
    && (forall t :: t !in steps ==> Column(result.value, t) == map[])
  }

  /** `c` is the value of the first sample of the expression. */
  ghost predicate IsFirst(env: Env, e: Expr, steps: seq<int>, t0: int, c: real)
    requires ValidEnv(env)
  {
    && t0 in steps && Denote(env, e, t0) == Some(map[map[] := c])
    && forall t :: t in steps && t < t0 ==> Denote(env, e, t) == Some(map[])
  }

  ghost predicate Defined(env: Env, e: Expr, steps: seq<int>)
    requires ValidEnv(env)
  {
    forall t :: t in steps ==> Denote(env, e, t).Some?
  }

  lemma FirstSampleOfScalar(tab: Table, steps: seq<int>) returns (t0: int)
    requires Normal(tab) && LooksScalar(tab) && forall t :: t !in steps ==> Column(tab, t) == map[]
    ensures t0 in steps && Column(tab, t0) == map[map[] := FirstValue(tab)]
    ensures forall t :: t < t0 ==> Column(tab, t) == map[]
  {
    var none: Labels := map[];
    assert none in tab.Keys;
    var ps := tab[none];
    t0 := ps[0].ts;
    PointAtHit(ps, 0);
    assert none in Column(tab, t0);
    forall t | t < t0 ensures Column(tab, t) == map[] {
      PointAtMiss(ps, t);
    }
  }

  lemma FirstOfExpression(env: Env, e: Expr, steps: seq<int>, tab: Table) returns (t0: int)
    requires ValidEnv(env) && IsTableOf(env, e, steps, tab) && ScalarLooking(env, e, steps)
    ensures LooksScalar(tab) && IsFirst(env, e, steps, t0, FirstValue(tab))
  {
    ScalarLookMeaning(env, e, steps, tab);
    hide ScalarLooking;
    t0 := FirstSampleOfScalar(tab, steps);
    hide Denote;
    hide Column;
    hide LooksScalar;
    hide FirstValue;
  }

  lemma FrozenTable(env: Env, e: Expr, p: Plan, side: Expr, steps: seq<int>, tab: Table, c: real, onLeft: bool)
    requires ValidEnv(env) && e.BinaryExpr? && p.binaryOp == e.op && p.returnBool == e.returnBool
    requires IsTableOf(env, side, steps, tab)
    ensures IsFrozen(env, e, side, steps, onLeft, c, Some(ScalarTable(ScalarOp(env.lib, p, c, onLeft), tab)))
  {
    var f := ScalarOp(env.lib, p, c, onLeft);
    ScalarTableMeaning(f, tab);
    hide Denote;
    hide ScalarTable;
    hide WithScalar;
    assert f == (x => WithScalar(env.lib, e.op, e.returnBool, onLeft, c, x));
  }

  lemma TableOfDefined(env: Env, e: Expr, steps: seq<int>) returns (tab: Table)
    requires ValidEnv(env) && Preserved(env, e, steps) && Defined(env, e, steps)
    ensures Translate(env.config, e).Some? && !Translate(env.config, e).value.isScalar
    ensures PlanTable(env, Translate(env.config, e).value, steps) == Some(tab) && IsTableOf(env, e, steps, tab)
  {
    hide Denote;
    hide PlanTable;
    var result := PlanTable(env, Translate(env.config, e).value, steps);
    tab := result.value;
  }

  /** A right operand that is one series without labels is used through its first sample,
      at every step. */
  lemma FrozenRight(env: Env, e: Expr, steps: seq<int>) returns (t0: int, c: real)
    requires ValidEnv(env) && e.BinaryExpr? && LiteralOf(e.lhs).None? && LiteralOf(e.rhs).None?
    requires Preserved(env, e.lhs, steps) && Preserved(env, e.rhs, steps) && Defined(env, e.lhs, steps)
    requires ScalarLooking(env, e.rhs, steps)
    ensures IsFirst(env, e.rhs, steps, t0, c)
    ensures IsFrozen(env, e, e.lhs, steps, false, c, PlanResult(env, e, steps))
  {
    assert Defined(env, e.rhs, steps);
    var l := TableOfDefined(env, e.lhs, steps);
    var r := TableOfDefined(env, e.rhs, steps);
    t0 := FirstOfExpression(env, e.rhs, steps, r);
    c := FirstValue(r);
    SidesOfPlan(env, e, steps);
    TwoSidedPlan(env, e, steps);
    var p := Translate(env.config, e).value;
    FrozenTable(env, e, p, e.lhs, steps, l, c, false);
    hide IsFrozen;
    hide Preserved;
    hide PlanTable;
    hide ScalarTable;
  }

  /** So is a left operand, unless the right one is. */
  lemma FrozenLeft(env: Env, e: Expr, steps: seq<int>) returns (t0: int, c: real)
    requires ValidEnv(env) && e.BinaryExpr? && LiteralOf(e.lhs).None? && LiteralOf(e.rhs).None?
    requires Preserved(env, e.lhs, steps) && Preserved(env, e.rhs, steps) && Defined(env, e.rhs, steps)
    requires ScalarLooking(env, e.lhs, steps) && !ScalarLooking(env, e.rhs, steps)
    ensures IsFirst(env, e.lhs, steps, t0, c)
    ensures IsFrozen(env, e, e.rhs, steps, true, c, PlanResult(env, e, steps))
  {
    assert Defined(env, e.lhs, steps);
    var l := TableOfDefined(env, e.lhs, steps);
    var r := TableOfDefined(env, e.rhs, steps);
    t0 := FirstOfExpression(env, e.lhs, steps, l);
    c := FirstValue(l);
    ScalarLookMeaning(env, e.rhs, steps, r);
    SidesOfPlan(env, e, steps);
    TwoSidedPlan(env, e, steps);
    var p := Translate(env.config, e).value;
    FrozenTable(env, e, p, e.rhs, steps, r, c, true);
    hide IsFrozen;
    hide Preserved;
    hide PlanTable;
    hide ScalarTable;
  }

  // ---- One step ----

  const ARITHMETIC: set<string> := {"+", "-", "*", "/", "%", "^", "atan2"}

  const SET_OPERATORS: set<string> := {"and", "or", "unless"}

  function Value(lib: Lib, op: string, x: real, y: real): real { ApplyBinaryOp(lib, x, y, op).0 }

  lemma ArithmeticKeeps(lib: Lib, op: string, x: real, y: real)
    requires op in ARITHMETIC
    ensures Combine(lib, op, false, x, y) == Some(Value(lib, op, x, y))
    ensures op !in SET_OPERATORS
  {
  }

  lemma UnlabelledShape(mt: Matching)
    ensures Shape(mt, map[]) == map[]
  {
  }

  lemma UnlabelledShapes(mt: Matching, v: Vec)
    requires v.Keys <= {map[]}
    ensures Unambiguous(mt, v)
    ensures forall p :: p in Shapes(mt, v) <==> p == map[] && map[] in v
    ensures map[] in v ==> map[] in Shapes(mt, v) && Owner(mt, v, map[]) == map[]
  {
    var none: Labels := map[];
    UnlabelledShape(mt);
    assert forall l :: l in v ==> l in v.Keys;
  }

  ghost function Frozen(lib: Lib, op: string, returnBool: bool, onLeft: bool, c: real, v: Vec): Vec {
    ScalarVec(x => WithScalar(lib, op, returnBool, onLeft, c, x), v)
  }

  /** What the kept operand gives with the value of the other one at the same step, for the
      one match that a series without labels can be part of. */
  ghost function AtTheStep(lib: Lib, op: string, returnBool: bool, mt: Matching, onLeft: bool, kept: Vec, frozen: Vec): Option<real> {
    if map[] in frozen && map[] in Shapes(mt, kept) then
      WithScalar(lib, op, returnBool, onLeft, frozen[map[]], kept[Owner(mt, kept, map[])])
    else None
  }

  /** At one step the frozen value is as good as the value of the step: no match is
      ambiguous, whatever has labels is dropped, and what has none fares alike. */
  ghost predicate FaresAlike(lib: Lib, op: string, returnBool: bool, mt: Matching, onLeft: bool, kept: Vec, frozen: Vec, c: real) {
    && Unambiguous(mt, kept)
    && (forall l :: l in kept && l != map[] ==> WithScalar(lib, op, returnBool, onLeft, c, kept[l]) == None)
    && (if map[] in kept then WithScalar(lib, op, returnBool, onLeft, c, kept[map[]]) else None)
       == AtTheStep(lib, op, returnBool, mt, onLeft, kept, frozen)
  }

  /** The vector with at most an unlabelled element. */
  function Unlabelled(v: Option<real>): Vec {
    match v
    case None => map[]
    case Some(x) => map[map[] := x]
  }

  lemma JoinIsUnlabelled(lib: Lib, op: string, returnBool: bool, mt: Matching, onLeft: bool, kept: Vec, frozen: Vec)
    requires frozen.Keys <= {map[]}
    ensures var l, r := if onLeft then frozen else kept, if onLeft then kept else frozen;
            Joined(lib, op, returnBool, mt, l, r) == Unlabelled(AtTheStep(lib, op, returnBool, mt, onLeft, kept, frozen))
  {
    UnlabelledShapes(mt, frozen);
    hide Shape;
    hide Shapes;
    hide Combine;
  }

  lemma FrozenIsUnlabelled(lib: Lib, op: string, returnBool: bool, onLeft: bool, c: real, v: Vec, o: Option<real>)
    ensures Frozen(lib, op, returnBool, onLeft, c, v) == Unlabelled(o)
            <==> && (forall l :: l in v && l != map[] ==> WithScalar(lib, op, returnBool, onLeft, c, v[l]) == None)
                 && (if map[] in v then WithScalar(lib, op, returnBool, onLeft, c, v[map[]]) else None) == o
  {
    hide WithScalar;
    var w := Frozen(lib, op, returnBool, onLeft, c, v);
    var none: Labels := map[];
    assert forall l :: l in w <==> l in v && WithScalar(lib, op, returnBool, onLeft, c, v[l]).Some?;
    if w == Unlabelled(o) {
      assert forall l :: l in w ==> l == none;
      assert none in w <==> o.Some?;
      if o.Some? {
        assert w[none] == o.value;
      }
    }
  }

  lemma FrozenJoinStep(lib: Lib, op: string, returnBool: bool, mt: Matching, onLeft: bool, kept: Vec, frozen: Vec, c: real)
    requires op !in SET_OPERATORS && frozen.Keys <= {map[]}
    ensures var l, r := if onLeft then frozen else kept, if onLeft then kept else frozen;
            BinaryVec(lib, op, returnBool, mt, l, r) == Some(Frozen(lib, op, returnBool, onLeft, c, kept))
            <==> FaresAlike(lib, op, returnBool, mt, onLeft, kept, frozen, c)
  {
    UnlabelledShapes(mt, frozen);
    JoinIsUnlabelled(lib, op, returnBool, mt, onLeft, kept, frozen);
    FrozenIsUnlabelled(lib, op, returnBool, onLeft, c, kept, AtTheStep(lib, op, returnBool, mt, onLeft, kept, frozen));
    hide Joined;
    hide Frozen;
    hide AtTheStep;
    hide Unlabelled;
    hide Unambiguous;
    hide WithScalar;
  }

  /** The condition for arithmetic at one step: where
      there is anything to combine, both sides are single unlabelled series, and the frozen
      value makes no difference. */
  ghost predicate Agrees(lib: Lib, op: string, onLeft: bool, kept: Vec, frozen: Vec, c: real) {
    kept == map[]
    || (kept.Keys == {map[]} && map[] in kept && map[] in frozen
        && if onLeft then Value(lib, op, c, kept[map[]]) == Value(lib, op, frozen[map[]], kept[map[]])
           else Value(lib, op, kept[map[]], c) == Value(lib, op, kept[map[]], frozen[map[]]))
  }

  lemma UnlabelledOnly(v: Vec)
    requires v.Keys <= {map[]}
    ensures v == map[] || (v.Keys == {map[]} && map[] in v)
  {
    if v != map[] {
      var l :| l in v;
      assert l in v.Keys;
    }
  }

  /** For arithmetic, which drops nothing, that is the condition above. */
  lemma ArithmeticFares(lib: Lib, op: string, mt: Matching, onLeft: bool, kept: Vec, frozen: Vec, c: real)
    requires op in ARITHMETIC && frozen.Keys <= {map[]}
    ensures FaresAlike(lib, op, false, mt, onLeft, kept, frozen, c) <==> Agrees(lib, op, onLeft, kept, frozen, c)
  {
    forall x, y ensures Combine(lib, op, false, x, y) == Some(Value(lib, op, x, y)) {
      ArithmeticKeeps(lib, op, x, y);
    }
    hide Combine;
    hide Value;
    hide Shape;
    if kept.Keys <= {map[]} {
      UnlabelledOnly(kept);
      UnlabelledShapes(mt, kept);
    } else {
      var l :| l in kept && l != map[];
      assert WithScalar(lib, op, false, onLeft, c, kept[l]).Some?;
      assert l in kept.Keys;
    }
  }

  // ---- The whole query ----

  lemma FrozenMeans(env: Env, e: Expr, side: Expr, steps: seq<int>, onLeft: bool, c: real)
    requires ValidEnv(env) && e.BinaryExpr?
    requires IsFrozen(env, e, side, steps, onLeft, c, PlanResult(env, e, steps))
    ensures Means(env, e, steps, PlanResult(env, e, steps))
            <==> forall t :: t in steps ==>
                   Denote(env, e, t) == ScalarMeaning(env.lib, e.op, e.returnBool, onLeft, c, Denote(env, side, t))
  {
    hide Denote;
    hide ScalarMeaning;
    hide PlanResult;
    hide Column;
  }

  lemma JoinMeaning(env: Env, e: Expr, side: Expr, t: int, onLeft: bool, c: real)
    requires ValidEnv(env) && e.BinaryExpr? && LiteralOf(e.lhs).None? && LiteralOf(e.rhs).None?
    requires side == if onLeft then e.rhs else e.lhs
    requires Denote(env, e.lhs, t).Some? && Denote(env, e.rhs, t).Some?
    ensures Denote(env, e, t)
         == BinaryVec(env.lib, e.op, e.returnBool, e.matching, Denote(env, e.lhs, t).value, Denote(env, e.rhs, t).value)
    ensures ScalarMeaning(env.lib, e.op, e.returnBool, onLeft, c, Denote(env, side, t))
         == Some(Frozen(env.lib, e.op, e.returnBool, onLeft, c, Denote(env, side, t).value))
  {
    hide BinaryVec;
    hide WithScalar;
  }

  /** A joining operator whose right operand is one series without labels means what is
      evaluated exactly when the first value fares alike at every step. */
  lemma FrozenRightExactly(env: Env, e: Expr, steps: seq<int>) returns (t0: int, c: real)
    requires ValidEnv(env) && e.BinaryExpr? && LiteralOf(e.lhs).None? && LiteralOf(e.rhs).None?
    requires e.op !in SET_OPERATORS
    requires Preserved(env, e.lhs, steps) && Preserved(env, e.rhs, steps) && Defined(env, e.lhs, steps)
    requires ScalarLooking(env, e.rhs, steps)
    ensures IsFirst(env, e.rhs, steps, t0, c)
    ensures Means(env, e, steps, PlanResult(env, e, steps))
            <==> forall t :: t in steps ==>
                   FaresAlike(env.lib, e.op, e.returnBool, e.matching, false, Denote(env, e.lhs, t).value, Denote(env, e.rhs, t).value, c)
  {
    t0, c := FrozenRight(env, e, steps);
    FrozenMeans(env, e, e.lhs, steps, false, c);
    assert forall t :: t in steps ==> Denote(env, e.rhs, t).Some? && Denote(env, e.rhs, t).value.Keys <= {map[]};
    hide Denote;
    hide Preserved;
    hide PlanResult;
    hide FaresAlike;
    forall t | t in steps
      ensures Denote(env, e, t) == ScalarMeaning(env.lib, e.op, e.returnBool, false, c, Denote(env, e.lhs, t))
              <==> FaresAlike(env.lib, e.op, e.returnBool, e.matching, false,
                              Denote(env, e.lhs, t).value, Denote(env, e.rhs, t).value, c)
    {
      JoinMeaning(env, e, e.lhs, t, false, c);
      FrozenJoinStep(env.lib, e.op, e.returnBool, e.matching, false, Denote(env, e.lhs, t).value, Denote(env, e.rhs, t).value, c);
    }
  }

  /** So with a left one, unless the right one is. */
  lemma FrozenLeftExactly(env: Env, e: Expr, steps: seq<int>) returns (t0: int, c: real)
    requires ValidEnv(env) && e.BinaryExpr? && LiteralOf(e.lhs).None? && LiteralOf(e.rhs).None?
    requires e.op !in SET_OPERATORS
    requires Preserved(env, e.lhs, steps) && Preserved(env, e.rhs, steps) && Defined(env, e.rhs, steps)
    requires ScalarLooking(env, e.lhs, steps) && !ScalarLooking(env, e.rhs, steps)
    ensures IsFirst(env, e.lhs, steps, t0, c)
    ensures Means(env, e, steps, PlanResult(env, e, steps))
            <==> forall t :: t in steps ==>
                   FaresAlike(env.lib, e.op, e.returnBool, e.matching, true, Denote(env, e.rhs, t).value, Denote(env, e.lhs, t).value, c)
  {
    t0, c := FrozenLeft(env, e, steps);
    FrozenMeans(env, e, e.rhs, steps, true, c);
    assert Defined(env, e.lhs, steps) && forall t :: t in steps ==> Denote(env, e.lhs, t).value.Keys <= {map[]};
    hide Denote;
    hide Preserved;
    hide PlanResult;
    hide FaresAlike;
    hide ScalarLooking;
    hide Means;
    hide IsFrozen;
    hide IsFirst;
    forall t | t in steps
      ensures Denote(env, e, t) == ScalarMeaning(env.lib, e.op, e.returnBool, true, c, Denote(env, e.rhs, t))
              <==> FaresAlike(env.lib, e.op, e.returnBool, e.matching, true,
                              Denote(env, e.rhs, t).value, Denote(env, e.lhs, t).value, c)
    {
      JoinMeaning(env, e, e.rhs, t, true, c);
      FrozenJoinStep(env.lib, e.op, e.returnBool, e.matching, true, Denote(env, e.rhs, t).value, Denote(env, e.lhs, t).value, c);
    }
  }

  // ---- Arithmetic ----

  /** With an arithmetic operator: at every step that has anything on the left, the left too
      is that one unlabelled series, the right is there, and the operator gives the same for
      its value as for its first value. */
  lemma FrozenRightMeans(env: Env, e: Expr, steps: seq<int>) returns (t0: int, c: real)
    requires ValidEnv(env) && e.BinaryExpr? && LiteralOf(e.lhs).None? && LiteralOf(e.rhs).None?
    requires e.op in ARITHMETIC && !e.returnBool
    requires Preserved(env, e.lhs, steps) && Preserved(env, e.rhs, steps) && Defined(env, e.lhs, steps)
    requires ScalarLooking(env, e.rhs, steps)
    ensures IsFirst(env, e.rhs, steps, t0, c)
    ensures Means(env, e, steps, PlanResult(env, e, steps))
            <==> forall t :: t in steps ==>
                   Agrees(env.lib, e.op, false, Denote(env, e.lhs, t).value, Denote(env, e.rhs, t).value, c)
  {
    ArithmeticKeeps(env.lib, e.op, 0.0, 0.0);
    t0, c := FrozenRightExactly(env, e, steps);
    assert forall t :: t in steps ==> Denote(env, e.rhs, t).value.Keys <= {map[]};
    hide Denote;
    hide Preserved;
    hide PlanResult;
    hide Agrees;
    hide FaresAlike;
    hide Means;
    hide IsFirst;
    forall t | t in steps
      ensures FaresAlike(env.lib, e.op, false, e.matching, false, Denote(env, e.lhs, t).value, Denote(env, e.rhs, t).value, c)
              <==> Agrees(env.lib, e.op, false, Denote(env, e.lhs, t).value, Denote(env, e.rhs, t).value, c)
    {
      ArithmeticFares(env.lib, e.op, e.matching, false, Denote(env, e.lhs, t).value, Denote(env, e.rhs, t).value, c);
    }
  }

  lemma LeftAgreesNowhere(env: Env, e: Expr, steps: seq<int>, c: real)
    requires ValidEnv(env) && e.BinaryExpr? && Defined(env, e.lhs, steps) && Defined(env, e.rhs, steps)
    requires !ScalarLooking(env, e.rhs, steps)
    ensures (forall t :: t in steps ==>
               Agrees(env.lib, e.op, true, Denote(env, e.rhs, t).value, Denote(env, e.lhs, t).value, c))
            <==> forall t :: t in steps ==> Denote(env, e.rhs, t) == Some(map[])
  {
    hide Denote;
    hide Value;
    if forall t :: t in steps ==>
         Agrees(env.lib, e.op, true, Denote(env, e.rhs, t).value, Denote(env, e.lhs, t).value, c) {
      forall t | t in steps ensures Denote(env, e.rhs, t).value.Keys <= {map[]} {
        assert Agrees(env.lib, e.op, true, Denote(env, e.rhs, t).value, Denote(env, e.lhs, t).value, c);
      }
      assert !exists t :: t in steps && Denote(env, e.rhs, t).value != map[];
    }
  }

  /** With a left operand that is one series without labels, and a right one that is not,
      arithmetic is right only when the right one has no element at any step. */
  lemma FrozenLeftMeans(env: Env, e: Expr, steps: seq<int>) returns (t0: int, c: real)
    requires ValidEnv(env) && e.BinaryExpr? && LiteralOf(e.lhs).None? && LiteralOf(e.rhs).None?
    requires e.op in ARITHMETIC && !e.returnBool
    requires Preserved(env, e.lhs, steps) && Preserved(env, e.rhs, steps) && Defined(env, e.rhs, steps)
    requires ScalarLooking(env, e.lhs, steps) && !ScalarLooking(env, e.rhs, steps)
    ensures IsFirst(env, e.lhs, steps, t0, c)
    ensures Means(env, e, steps, PlanResult(env, e, steps)) <==> forall t :: t in steps ==> Denote(env, e.rhs, t) == Some(map[])
  {
    ArithmeticKeeps(env.lib, e.op, 0.0, 0.0);
    t0, c := FrozenLeftExactly(env, e, steps);
    assert Defined(env, e.lhs, steps) && forall t :: t in steps ==> Denote(env, e.lhs, t).value.Keys <= {map[]};
    LeftAgreesNowhere(env, e, steps, c);
    hide Denote;
    hide Preserved;
    hide PlanResult;
    hide Agrees;
    hide FaresAlike;
    hide ScalarLooking;
    hide Means;
    hide IsFirst;
    forall t | t in steps
      ensures FaresAlike(env.lib, e.op, false, e.matching, true, Denote(env, e.rhs, t).value, Denote(env, e.lhs, t).value, c)
              <==> Agrees(env.lib, e.op, true, Denote(env, e.rhs, t).value, Denote(env, e.lhs, t).value, c)
    {
      ArithmeticFares(env.lib, e.op, e.matching, true, Denote(env, e.rhs, t).value, Denote(env, e.lhs, t).value, c);
    }
  }

  /** For plus and minus the value at the step is the first value. */
  lemma InjectiveAgrees(lib: Lib, op: string, kept: Vec, frozen: Vec, c: real)
    requires (op == "+" || op == "-") && frozen.Keys <= {map[]}
    ensures Agrees(lib, op, false, kept, frozen, c) <==> kept == map[] || (kept.Keys == {map[]} && frozen == map[map[] := c])
  {
    var none: Labels := map[];
    UnlabelledOnly(frozen);
    if kept.Keys == {none} {
      assert none in kept.Keys;
      assert kept != map[];
    }
    if none in frozen {
      assert frozen == map[none := frozen[none]];
      assert (map[none := c])[none] == c;
    }
  }

  // ---- Set operators ----

  lemma SetOperatorKeepsNothing(lib: Lib, op: string, onLeft: bool, c: real, v: Vec)
    requires op in SET_OPERATORS
    ensures Frozen(lib, op, false, onLeft, c, v) == map[]
  {
    forall x, y ensures Combine(lib, op, false, x, y) == None {
    }
    hide Combine;
  }

  /** What the set operators mean is nothing. */
  ghost predicate MeansNothing(op: string, mt: Matching, l: Vec, r: Vec) {
    if op == "and" then r == map[] || forall k :: k in l ==> Shape(mt, k) != map[]
    else if op == "or" then l == map[] && r == map[]
    else l == map[] || (r != map[] && forall k :: k in l ==> Shape(mt, k) == map[])
  }

  lemma SetOperatorStep(lib: Lib, op: string, mt: Matching, l: Vec, r: Vec)
    requires op in SET_OPERATORS && r.Keys <= {map[]}
    ensures BinaryVec(lib, op, false, mt, l, r) == Some(map[]) <==> MeansNothing(op, mt, l, r)
  {
    UnlabelledShapes(mt, r);
    UnlabelledOnly(r);
    hide Shape;
    hide Shapes;
    hide Joined;
    hide Unambiguous;
    if op == "and" {
      assert AndVec(mt, l, r) == map[] <==> forall k :: k in l ==> k !in AndVec(mt, l, r);
    } else if op == "or" {
      SetOperatorStepOr(mt, l, r);
    } else {
      assert UnlessVec(mt, l, r) == map[] <==> forall k :: k in l ==> k !in UnlessVec(mt, l, r);
    }
  }

  lemma NoShapes(mt: Matching, l: Vec)
    ensures l == map[] ==> Shapes(mt, l) == {}
  {
  }

  /** A set operator with such a right operand evaluates to nothing, which is what it means
      exactly when no step has anything to say. */
  lemma FrozenSetOperator(env: Env, e: Expr, steps: seq<int>)
    requires ValidEnv(env) && e.BinaryExpr? && LiteralOf(e.lhs).None? && LiteralOf(e.rhs).None?
    requires e.op in SET_OPERATORS && !e.returnBool
    requires Preserved(env, e.lhs, steps) && Preserved(env, e.rhs, steps) && Defined(env, e.lhs, steps)
    requires ScalarLooking(env, e.rhs, steps)
    ensures PlanResult(env, e, steps).Some?
    ensures forall t :: Column(PlanResult(env, e, steps).value, t) == map[]
    ensures Means(env, e, steps, PlanResult(env, e, steps))
            <==> forall t :: t in steps ==>
                   MeansNothing(e.op, e.matching, Denote(env, e.lhs, t).value, Denote(env, e.rhs, t).value)
  {
    var t0, c := FrozenRight(env, e, steps);
    FrozenMeans(env, e, e.lhs, steps, false, c);
    assert forall t :: t in steps ==> Denote(env, e.rhs, t).Some? && Denote(env, e.rhs, t).value.Keys <= {map[]};
    hide Denote;
    hide Preserved;
    hide PlanResult;
    hide MeansNothing;
    hide ScalarMeaning;
    hide Frozen;
    forall t | t in steps
      ensures ScalarMeaning(env.lib, e.op, e.returnBool, false, c, Denote(env, e.lhs, t)) == Some(map[])
      ensures Denote(env, e, t) == Some(map[])
              <==> MeansNothing(e.op, e.matching, Denote(env, e.lhs, t).value, Denote(env, e.rhs, t).value)
    {
      JoinMeaning(env, e, e.lhs, t, false, c);
      SetOperatorKeepsNothing(env.lib, e.op, false, c, Denote(env, e.lhs, t).value);
      SetOperatorStep(env.lib, e.op, e.matching, Denote(env, e.lhs, t).value, Denote(env, e.rhs, t).value);
    }
  }

  /** The same with the operand on the left. */
  ghost predicate LeftMeansNothing(op: string, mt: Matching, l: Vec, r: Vec) {
    if op == "and" then l == map[] || forall k :: k in r ==> Shape(mt, k) != map[]
    else if op == "or" then l == map[] && r == map[]
    else l == map[] || exists k :: k in r && Shape(mt, k) == map[]
  }

  lemma LeftSetOperatorStep(lib: Lib, op: string, mt: Matching, l: Vec, r: Vec)
    requires op in SET_OPERATORS && l.Keys <= {map[]}
    ensures BinaryVec(lib, op, false, mt, l, r) == Some(map[]) <==> LeftMeansNothing(op, mt, l, r)
  {
    UnlabelledShape(mt);
    UnlabelledOnly(l);
    hide Shape;
    hide Joined;
    hide Unambiguous;
    if op == "and" {
      assert AndVec(mt, l, r) == map[] <==> forall k :: k in l ==> k !in AndVec(mt, l, r);
    } else if op == "or" {
      SetOperatorStepOr(mt, l, r);
    } else {
      assert UnlessVec(mt, l, r) == map[] <==> forall k :: k in l ==> k !in UnlessVec(mt, l, r);
    }
  }

  lemma SetOperatorStepOr(mt: Matching, l: Vec, r: Vec)
    ensures OrVec(mt, l, r) == map[] <==> l == map[] && r == map[]
  {
    NoShapes(mt, l);
    hide Shape;
    hide Shapes;
    if l == map[] {
      assert OrVec(mt, l, r) == r;
    } else {
      var k :| k in l;
      assert k in OrVec(mt, l, r);
    }
  }

  /** A set operator with such a left operand, and a right one that has labels or nothing. */
  lemma FrozenLeftSetOperator(env: Env, e: Expr, steps: seq<int>)
    requires ValidEnv(env) && e.BinaryExpr? && LiteralOf(e.lhs).None? && LiteralOf(e.rhs).None?
    requires e.op in SET_OPERATORS && !e.returnBool
    requires Preserved(env, e.lhs, steps) && Preserved(env, e.rhs, steps) && Defined(env, e.rhs, steps)
    requires ScalarLooking(env, e.lhs, steps) && !ScalarLooking(env, e.rhs, steps)
    ensures PlanResult(env, e, steps).Some?
    ensures forall t :: Column(PlanResult(env, e, steps).value, t) == map[]
    ensures Means(env, e, steps, PlanResult(env, e, steps))
            <==> forall t :: t in steps ==>
                   LeftMeansNothing(e.op, e.matching, Denote(env, e.lhs, t).value, Denote(env, e.rhs, t).value)
  {
    var t0, c := FrozenLeft(env, e, steps);
    FrozenMeans(env, e, e.rhs, steps, true, c);
    assert forall t :: t in steps ==> Denote(env, e.lhs, t).Some? && Denote(env, e.lhs, t).value.Keys <= {map[]};
    hide Denote;
    hide Preserved;
    hide PlanResult;
    hide LeftMeansNothing;
    hide ScalarMeaning;
    hide ScalarLooking;
    hide Frozen;
    forall t | t in steps
      ensures ScalarMeaning(env.lib, e.op, e.returnBool, true, c, Denote(env, e.rhs, t)) == Some(map[])
      ensures Denote(env, e, t) == Some(map[])
              <==> LeftMeansNothing(e.op, e.matching, Denote(env, e.lhs, t).value, Denote(env, e.rhs, t).value)
    {
      JoinMeaning(env, e, e.rhs, t, true, c);
      SetOperatorKeepsNothing(env.lib, e.op, true, c, Denote(env, e.rhs, t).value);
      LeftSetOperatorStep(env.lib, e.op, e.matching, Denote(env, e.lhs, t).value, Denote(env, e.rhs, t).value);
    }
  }

  // ---- Negation ----

  /** The negation of one series without labels over the query is evaluated to one sample: at
      the start of the query, the negated first value. That is what it means exactly when
      the operand has a sample at the start and no other. */
  lemma FrozenNegation(env: Env, e: Expr, steps: seq<int>) returns (t0: int, c: real)
    requires ValidEnv(env) && StepsInQuery(env, steps) && e.UnaryExpr? && e.negate
    requires Preserved(env, e.expr, steps) && ScalarLooking(env, e.expr, steps)
    ensures IsFirst(env, e.expr, steps, t0, c)
    ensures PlanResult(env, e, steps) == Some(Literal(env, 0.0 - c))
    ensures Means(env, e, steps, PlanResult(env, e, steps))
            <==> t0 == env.config.startMs && forall t :: t in steps && t != t0 ==> Denote(env, e.expr, t) == Some(map[])
  {
    hide *;
    ScalarLookingDefined(env, e.expr, steps);
    var r := TableOfDefined(env, e.expr, steps);
    t0 := FirstOfExpression(env, e.expr, steps, r);
    c := FirstValue(r);
    NegationResult(env, e, steps, r);
    OneSampleMeans(env, e, steps, t0, c);
  }

  lemma ScalarLookingDefined(env: Env, e: Expr, steps: seq<int>)
    requires ValidEnv(env) && ScalarLooking(env, e, steps)
    ensures Defined(env, e, steps)
  {
    hide Denote;
  }

  lemma NegationSides(env: Env, inner: Plan, steps: seq<int>)
    requires ValidEnv(env)
    ensures PlanTable(env, NegationPlan(inner), steps)
         == TwoSided(env, NegationPlan(inner), Some(Literal(env, 0.0)), PlanTable(env, inner, steps), steps)
  {
    assert PlanTable(env, NumberPlan(0.0), steps) == Some(Literal(env, 0.0));
    hide TwoSided;
    hide FlatVec;
  }

  lemma ScalarOnTheRight(env: Env, p: Plan, l: Table, r: Table, steps: seq<int>)
    requires LooksScalar(r)
    ensures TwoSided(env, p, Some(l), Some(r), steps) == Some(ScalarTable(ScalarOp(env.lib, p, FirstValue(r), false), l))
  {
    hide ScalarTable;
    hide FirstValue;
    hide LooksScalar;
  }

  lemma NegationResult(env: Env, e: Expr, steps: seq<int>, r: Table)
    requires ValidEnv(env) && e.UnaryExpr? && e.negate && Translate(env.config, e.expr).Some?
    requires PlanTable(env, Translate(env.config, e.expr).value, steps) == Some(r) && LooksScalar(r)
    ensures PlanResult(env, e, steps) == Some(Literal(env, 0.0 - FirstValue(r)))
  {
    hide *;
    var inner := Translate(env.config, e.expr).value;
    var p := NegationPlan(inner);
    NegationTranslates(env.config, e);
    ResultIsTable(env, e, steps);
    NegationSides(env, inner, steps);
    ScalarOnTheRight(env, p, Literal(env, 0.0), r, steps);
    NegatedLiteral(env, p, FirstValue(r));
  }

  lemma NegationTranslates(c: Config, e: Expr)
    requires e.UnaryExpr? && e.negate && Translate(c, e.expr).Some?
    ensures var p := NegationPlan(Translate(c, e.expr).value);
            Translate(c, e) == Some(p) && p.binaryOp == "-" && !p.returnBool
  {
  }

  lemma ResultIsTable(env: Env, e: Expr, steps: seq<int>)
    requires ValidEnv(env) && Translate(env.config, e).Some?
    ensures PlanResult(env, e, steps) == PlanTable(env, Translate(env.config, e).value, steps)
  {
    hide PlanTable;
    hide Translate;
  }

  lemma NegatedLiteral(env: Env, p: Plan, c: real)
    requires p.binaryOp == "-" && !p.returnBool
    ensures ScalarTable(ScalarOp(env.lib, p, c, false), Literal(env, 0.0)) == Literal(env, 0.0 - c)
  {
    var f := ScalarOp(env.lib, p, c, false);
    var ps := [Point(env.config.startMs, 0.0)];
    assert ps[..0] == [];
    assert ScalarPoints(f, ps) == [Point(env.config.startMs, 0.0 - c)];
  }

  lemma LiteralColumn(env: Env, v: real, t: int)
    ensures Normal(Literal(env, v))
    ensures Column(Literal(env, v), t) == if t == env.config.startMs then map[map[] := v] else map[]
  {
    var ps := [Point(env.config.startMs, v)];
    assert Normal(Literal(env, v));
    if t == env.config.startMs {
      PointAtHit(ps, 0);
    } else {
      PointAtMiss(ps, t);
    }
  }

  function AtStart(start: int, one: Vec, t: int): Vec { if t == start then one else map[] }

  ghost predicate IsNegated(v: Vec, w: Vec) { NegatedVec(v) == w }

  lemma NegatedOne(v: Vec, c: real)
    ensures IsNegated(v, map[]) <==> v == map[]
    ensures IsNegated(map[map[] := c], map[map[] := 0.0 - c])
    ensures v != map[] ==> !IsNegated(map[], v)
  {
    if NegatedVec(v) == map[] {
      assert NegatedVec(v).Keys == v.Keys;
    }
  }

  lemma NegationAt(env: Env, e: Expr, t: int)
    requires ValidEnv(env) && e.UnaryExpr? && e.negate && Denote(env, e.expr, t).Some?
    ensures Denote(env, e, t).Some?
    ensures forall w :: IsNegated(Denote(env, e.expr, t).value, w) <==> Denote(env, e, t) == Some(w)
  {
    hide NegatedVec;
    hide ValidEnv;
  }

  lemma OneSampleMeans(env: Env, e: Expr, steps: seq<int>, t0: int, c: real)
    requires ValidEnv(env) && StepsInQuery(env, steps) && e.UnaryExpr? && e.negate
    requires ScalarLooking(env, e.expr, steps) && IsFirst(env, e.expr, steps, t0, c)
    ensures Means(env, e, steps, Some(Literal(env, 0.0 - c)))
            <==> t0 == env.config.startMs && forall t :: t in steps && t != t0 ==> Denote(env, e.expr, t) == Some(map[])
  {
    hide ValidEnv;
    hide Denote;
    hide Literal;
    hide Column;
    hide Normal;
    hide Means;
    hide NegatedVec;
    hide IsNegated;
    var none: Labels := map[];
    var neg: Vec := map[none := 0.0 - c];
    var start := env.config.startMs;
    assert none in neg;
    LiteralColumn(env, 0.0 - c, 0);
    forall t ensures Column(Literal(env, 0.0 - c), t) == AtStart(start, neg, t) {
      LiteralColumn(env, 0.0 - c, t);
    }
    forall t | t in steps
      ensures Denote(env, e, t) == Some(map[]) <==> Denote(env, e.expr, t) == Some(map[])
      ensures Denote(env, e, t).Some?
      ensures Denote(env, e.expr, t) == Some(map[none := c]) ==> Denote(env, e, t) == Some(neg)
    {
      NegationAt(env, e, t);
      NegatedOne(Denote(env, e.expr, t).value, c);
    }
    MeansOne(env, e, e.expr, steps, t0, Literal(env, 0.0 - c), neg);
  }

  /** A table with one sample at the start is what `e` means exactly when `e` has that one. */
  lemma MeansOne(env: Env, e: Expr, inner: Expr, steps: seq<int>, t0: int, tab: Table, one: Vec)
    requires ValidEnv(env) && one != map[] && t0 in steps && Normal(tab)
    requires forall t :: Column(tab, t) == AtStart(env.config.startMs, one, t)
    requires forall t :: t in steps ==> Denote(env, e, t).Some?
    requires forall t :: t in steps ==> (Denote(env, e, t) == Some(map[]) <==> Denote(env, inner, t) == Some(map[]))
    requires Denote(env, e, t0) == Some(one)
    ensures Means(env, e, steps, Some(tab))
            <==> t0 == env.config.startMs && forall t :: t in steps && t != t0 ==> Denote(env, inner, t) == Some(map[])
  {
    hide Denote;
    hide Column;
    hide Normal;
    hide ValidEnv;
  }

  // ---- Forgotten math ----

  /** Any pointwise function, trigonometric or not. */
  ghost predicate IsWrap(fn: string, args: seq<Expr>) {
    RangeCallOf(fn, args).None? && LiteralCall(fn, args).None? && MathStepOf(fn, args).Some?
  }

  /** The expression inside all math and parentheses. */
  ghost function Wrapped(e: Expr): Expr
    decreases e
  {
    match e
    case Call(fn, args) => if IsWrap(fn, args) then Wrapped(args[0]) else e
    case ParenExpr(inner) => Wrapped(inner)
    case _ => e
  }

  /** The functions around it, innermost first. */
  ghost function Wraps(e: Expr): seq<MathStep>
    decreases e
  {
    match e
    case Call(fn, args) => if IsWrap(fn, args) then Wraps(args[0]) + [MathStepOf(fn, args).value] else []
    case ParenExpr(inner) => Wraps(inner)
    case _ => []
  }

  lemma WrapPlan(c: Config, fn: string, args: seq<Expr>)
    requires IsWrap(fn, args) && Translate(c, args[0]).Some?
    ensures var p := Translate(c, args[0]).value;
            Translate(c, Call(fn, args)) == Some(p.(mathChain := p.mathChain + [MathStepOf(fn, args).value]))
  {
    hide RangeCallOf;
    hide LiteralCall;
    hide MathStepOf;
  }

  lemma {:induction false} WrappedPlan(c: Config, e: Expr)
    requires Translate(c, Wrapped(e)).Some?
    ensures var p := Translate(c, Wrapped(e)).value;
            Translate(c, e) == Some(p.(mathChain := p.mathChain + Wraps(e)))
    decreases e
  {
    var p := Translate(c, Wrapped(e)).value;
    assert p.mathChain + [] == p.mathChain;
    match e
    case Call(fn, args) =>
      if IsWrap(fn, args) {
        WrappedPlan(c, args[0]);
        WrapPlan(c, fn, args);
        hide IsWrap;
        assert p.mathChain + Wraps(args[0]) + [MathStepOf(fn, args).value] == p.mathChain + Wraps(e);
      }
    case ParenExpr(inner) => WrappedPlan(c, inner);
    case _ =>
  }

  lemma MathVecSnoc(f: (MathStep, real) -> real, chain: seq<MathStep>, s: MathStep, v: Vec)
    ensures MathVec(f, [s], MathVec(f, chain, v)) == MathVec(f, chain + [s], v)
  {
    forall x ensures Chain(f, [s], Chain(f, chain, x)) == Chain(f, chain + [s], x) {
      ChainConcat(f, chain, [s], x);
    }
    hide Chain;
  }

  lemma WrapDenotes(env: Env, fn: string, args: seq<Expr>, t: int)
    requires ValidEnv(env) && IsWrap(fn, args) && Denote(env, args[0], t).Some?
    ensures Denote(env, Call(fn, args), t)
         == Some(MathVec(VectorMath(env.lib), [MathStepOf(fn, args).value], Denote(env, args[0], t).value))
  {
    CallMeaning(env, fn, args, t);
    hide Denote;
    hide ValidEnv;
    hide RangeCallOf;
    hide LiteralCall;
    hide MathStepOf;
    hide MathVec;
  }

  lemma {:induction false} WrappedDenotes(env: Env, e: Expr, t: int)
    requires ValidEnv(env) && Denote(env, Wrapped(e), t).Some?
    ensures Denote(env, e, t) == Some(MathVec(VectorMath(env.lib), Wraps(e), Denote(env, Wrapped(e), t).value))
    decreases e
  {
    var v := Denote(env, Wrapped(e), t).value;
    assert Wraps(e) == [] ==> MathVec(VectorMath(env.lib), Wraps(e), v) == v;
    hide MathVec;
    match e
    case Call(fn, args) =>
      if IsWrap(fn, args) {
        WrappedDenotes(env, args[0], t);
        WrapDenotes(env, fn, args, t);
        hide IsWrap;
        MathVecSnoc(VectorMath(env.lib), Wraps(args[0]), MathStepOf(fn, args).value, v);
      }
    case ParenExpr(inner) => WrappedDenotes(env, inner, t);
    case _ =>
  }

  /** An operator whose math is forgotten: a negation, or one with an operand that is one
      series without labels. */
  ghost predicate Forgets(env: Env, e: Expr, steps: seq<int>)
    requires ValidEnv(env)
  {
    match e
    case UnaryExpr(negate, inner) => negate && Preserved(env, inner, steps)
    case BinaryExpr(_, _, _, lhs, rhs) =>
      && LiteralOf(lhs).None? && LiteralOf(rhs).None?
      && Preserved(env, lhs, steps) && Preserved(env, rhs, steps)
      && (ScalarLooking(env, lhs, steps) || ScalarLooking(env, rhs, steps))
    case _ => false
  }

  ghost predicate HasScalarSide(env: Env, p: Plan, steps: seq<int>)
    requires ValidEnv(env)
  {
    && !p.isScalar && p.exprType == "binary" && p.scalarLHS.None? && p.scalarRHS.None? && p.lhs.Some? && p.rhs.Some?
    && var l, r := PlanTable(env, p.lhs.value, steps), PlanTable(env, p.rhs.value, steps);
       l.None? || r.None? || LooksScalar(l.value) || LooksScalar(r.value)
  }

  lemma ScalarSideForgets(env: Env, p: Plan, chain: seq<MathStep>, steps: seq<int>)
    requires ValidEnv(env) && HasScalarSide(env, p, steps)
    ensures PlanTable(env, p.(mathChain := chain), steps) == PlanTable(env, p, steps)
  {
    hide ScalarTable;
    hide FirstValue;
    hide LooksScalar;
    hide FlatVec;
  }

  lemma ForgetsMeans(env: Env, e: Expr, steps: seq<int>)
    requires ValidEnv(env) && Forgets(env, e, steps)
    ensures Translate(env.config, e).Some? && HasScalarSide(env, Translate(env.config, e).value, steps)
  {
    if e.UnaryExpr? {
      LiteralLooksScalar(env, 0.0);
      assert PlanTable(env, NumberPlan(0.0), steps) == Some(Literal(env, 0.0));
    } else {
      SidesOfPlan(env, e, steps);
      ScalarSide(env, e.lhs, steps);
      ScalarSide(env, e.rhs, steps);
    }
    hide PlanTable;
    hide LooksScalar;
    hide Means;
    hide ScalarLooking;
  }

  lemma ScalarSide(env: Env, e: Expr, steps: seq<int>)
    requires ValidEnv(env) && Preserved(env, e, steps)
    ensures var result := PlanTable(env, Translate(env.config, e).value, steps);
            ScalarLooking(env, e, steps) ==> result.Some? && LooksScalar(result.value)
  {
    var result := PlanTable(env, Translate(env.config, e).value, steps);
    hide PlanTable;
    if ScalarLooking(env, e, steps) && result.Some? {
      ScalarLookMeaning(env, e, steps, result.value);
    }
  }

  ghost predicate UnchangedBy(f: (MathStep, real) -> real, chain: seq<MathStep>, v: Vec) {
    forall l :: l in v ==> Chain(f, chain, v[l]) == v[l]
  }

  lemma UnchangedMeans(f: (MathStep, real) -> real, chain: seq<MathStep>, v: Vec)
    ensures MathVec(f, chain, v) == v <==> UnchangedBy(f, chain, v)
  {
    hide Chain;
    if MathVec(f, chain, v) == v {
      forall l | l in v ensures Chain(f, chain, v[l]) == v[l] {
        assert MathVec(f, chain, v)[l] == v[l];
      }
    }
  }

  /** Math around such an operator is not evaluated at all. Where the operator itself is
      evaluated correctly, the whole is so exactly when the math changes none of the
      values. */
  lemma ForgottenMath(env: Env, e: Expr, steps: seq<int>)
    requires ValidEnv(env) && Forgets(env, Wrapped(e), steps)
    ensures PlanResult(env, e, steps) == PlanResult(env, Wrapped(e), steps)
    ensures Defined(env, Wrapped(e), steps) && Means(env, Wrapped(e), steps, PlanResult(env, Wrapped(e), steps)) ==>
              (Means(env, e, steps, PlanResult(env, e, steps))
               <==> forall t :: t in steps ==> UnchangedBy(VectorMath(env.lib), Wraps(e), Denote(env, Wrapped(e), t).value))
  {
    var core := Wrapped(e);
    ForgetsMeans(env, core, steps);
    var p := Translate(env.config, core).value;
    WrappedPlan(env.config, e);
    ScalarSideForgets(env, p, p.mathChain + Wraps(e), steps);
    hide Forgets;
    hide HasScalarSide;
    hide PlanTable;
    if Defined(env, core, steps) && Means(env, core, steps, PlanResult(env, core, steps)) {
      forall t | t in steps
        ensures Denote(env, e, t) == Denote(env, core, t)
                <==> UnchangedBy(VectorMath(env.lib), Wraps(e), Denote(env, core, t).value)
      {
        WrappedDenotes(env, e, t);
        UnchangedMeans(VectorMath(env.lib), Wraps(e), Denote(env, core, t).value);
      }
      hide Denote;
      hide Column;
      hide UnchangedBy;
      hide Wrapped;
    }
  }
}

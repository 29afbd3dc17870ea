/** What the flat plan of a nested expression computes: all pointwise math is applied
    after all aggregations, and the parameter of the range function is lost under one. */
module Hoisting {
  import opened Types
  import Columns
  import Plans
  import opened Translator
  import opened PlanEval
  import Selectors
  import opened Meaning
  import opened Preservation

  /** Pointwise math and aggregations, in any order, around one selector or range
      function. */
  ghost predicate IsChain(e: Expr)
    decreases e
  {
    match e
    case VectorSelector(sel) => Selectors.NamesItsMetric(sel)
    case Call(fn, args) => IsRangeCall(fn, args) || (IsMath(fn, args) && IsChain(args[0]))
    case AggregateExpr(_, inner) => IsChain(inner)
    case ParenExpr(inner) => IsChain(inner)
    case _ => false
  }

  /** The range function with zero for its first parameter. */
  function DropParam(e: Expr): Expr {
    match e
    case Call(fn, args) =>
      if fn == "quantile_over_time" && |args| >= 1 then Call(fn, args[0 := NumberLiteral(0.0)])
      else if (fn == "predict_linear" || fn == "double_exponential_smoothing") && |args| >= 2 then
        Call(fn, args[1 := NumberLiteral(0.0)])
      else e
    case _ => e
  }

  ghost predicate IsMathCall(e: Expr) {
    e.Call? && IsMath(e.fn, e.args)
  }

  /** The aggregation inside all the math of `e`. */
  ghost function AggregateInside(step: Plans.AggStep, e: Expr): Expr
    decreases e
  {
    if IsMathCall(e) then Call(e.fn, [AggregateInside(step, e.args[0])] + e.args[1..])
    else AggregateExpr(step, DropParam(e))
  }

  /** The expression that the plan of a chain really stands for. */
  ghost function Canonical(e: Expr): Expr
    decreases e
  {
    match e
    case Call(fn, args) => if IsMath(fn, args) then Call(fn, [Canonical(args[0])] + args[1..]) else e
    case AggregateExpr(step, inner) => AggregateInside(step, Canonical(inner))
    case ParenExpr(inner) => Canonical(inner)
    case _ => e
  }

  /** Math around aggregations around a core, without parentheses. */
  ghost predicate Hoisted(e: Expr)
    decreases e
  {
    if IsMathCall(e) then Hoisted(e.args[0])
    else Spine(e) && !e.ParenExpr?
  }

  lemma HeadReplaced(fn: string, args: seq<Expr>, head: Expr)
    requires IsMath(fn, args) && (head.Call? || head.AggregateExpr? || head.VectorSelector?)
    ensures IsMath(fn, [head] + args[1..])
    ensures MathStepOf(fn, [head] + args[1..]) == MathStepOf(fn, args)
  {
    var args' := [head] + args[1..];
    assert |args'| == |args| && forall i :: 1 <= i < |args| ==> args'[i] == args[i];
  }

  lemma DropParamOfCall(fn: string, args: seq<Expr>)
    requires RangeCallOf(fn, args).Some?
    ensures var e := DropParam(Call(fn, args));
            && e.Call? && e.fn == fn
            && RangeCallOf(fn, e.args) == Some((RangeCallOf(fn, args).value.0, 0.0, RangeCallOf(fn, args).value.2))
  {
  }

  lemma DropParamPlan(c: Config, e: Expr)
    requires Spine(e) && !e.ParenExpr?
    ensures Spine(DropParam(e)) && !DropParam(e).ParenExpr? && Param(DropParam(e)) == 0.0
    ensures Translate(c, e).Some? && Translate(c, DropParam(e)) == Some(Translate(c, e).value.(aggParam := 0.0))
  {
    match e
    case Call(fn, args) =>
      DropParamOfCall(fn, args);
      hide RangeCallOf;
      hide DropParam;
    case AggregateExpr(_, inner) =>
      SpineTranslates(c, inner);
    case VectorSelector(_) =>
  }

  lemma {:induction false} SpineTranslates(c: Config, e: Expr)
    requires Spine(e)
    ensures Translate(c, e).Some?
  {
    match e
    case AggregateExpr(_, inner) => SpineTranslates(c, inner);
    case ParenExpr(inner) => SpineTranslates(c, inner);
    case _ =>
  }

  lemma MathPlan(c: Config, fn: string, args: seq<Expr>)
    requires IsMath(fn, args) && Translate(c, args[0]).Some?
    ensures var p := Translate(c, args[0]).value;
            Translate(c, Call(fn, args)) == Some(p.(mathChain := p.mathChain + [MathStepOf(fn, args).value]))
  {
    hide RangeCallOf;
    hide LiteralCall;
    hide MathStepOf;
  }

  ghost predicate NotParen(e: Expr) {
    e.Call? || e.AggregateExpr? || e.VectorSelector?
  }

  /** An aggregation moves inside one function without a change to the plan. */
  lemma AggregationInside(c: Config, step: Plans.AggStep, fn: string, args: seq<Expr>, head: Expr)
    requires IsMath(fn, args) && IsMath(fn, [head] + args[1..])
    requires MathStepOf(fn, [head] + args[1..]) == MathStepOf(fn, args)
    requires Translate(c, AggregateExpr(step, args[0])).Some?
    requires Translate(c, head) == Translate(c, AggregateExpr(step, args[0]))
    ensures Translate(c, AggregateExpr(step, Call(fn, args))).Some?
    ensures Translate(c, Call(fn, [head] + args[1..])) == Translate(c, AggregateExpr(step, Call(fn, args)))
  {
    AggregatedPlan(c, step, args[0]);
    hide MathStepOf;
    MathPlan(c, fn, args);
    MathPlan(c, fn, [head] + args[1..]);
    AggregatedPlan(c, step, Call(fn, args));
    hide IsMath;
    hide Translate;
  }

  lemma AggregatedPlan(c: Config, step: Plans.AggStep, e: Expr)
    ensures Translate(c, AggregateExpr(step, e))
         == match Translate(c, e)
            case Some(p) => Some(p.(aggChain := p.aggChain + [step], aggParam := 0.0, exprType := "aggregate"))
            case None => None
  {
  }

  lemma HoistedHead(fn: string, args: seq<Expr>)
    requires IsMath(fn, args)
    ensures Hoisted(Call(fn, args)) <==> Hoisted(args[0])
    ensures NotParen(Call(fn, args))
  {
    hide IsMath;
  }

  lemma InsideMath(step: Plans.AggStep, e: Expr)
    requires IsMathCall(e)
    ensures e.Call? && IsMath(e.fn, e.args) && e == Call(e.fn, e.args) && |e.args| >= 1
    ensures AggregateInside(step, e) == Call(e.fn, [AggregateInside(step, e.args[0])] + e.args[1..])
  {
  }

  lemma InsideCore(c: Config, step: Plans.AggStep, e: Expr)
    requires Hoisted(e) && !IsMathCall(e)
    ensures Hoisted(AggregateInside(step, e)) && NotParen(AggregateInside(step, e))
    ensures Translate(c, AggregateExpr(step, e)).Some?
    ensures Translate(c, AggregateInside(step, e)) == Translate(c, AggregateExpr(step, e))
  {
    DropParamPlan(c, e);
  }

  lemma {:induction false} AggregateInsidePlan(c: Config, step: Plans.AggStep, e: Expr)
    requires Hoisted(e)
    ensures Hoisted(AggregateInside(step, e)) && NotParen(AggregateInside(step, e))
    ensures Translate(c, AggregateExpr(step, e)).Some?
    ensures Translate(c, AggregateInside(step, e)) == Translate(c, AggregateExpr(step, e))
    decreases e
  {
    hide *;
    if IsMathCall(e) {
      InsideMath(step, e);
      HoistedHead(e.fn, e.args);
      AggregateInsidePlan(c, step, e.args[0]);
      var head := AggregateInside(step, e.args[0]);
      NotParenHead(head);
      HeadReplaced(e.fn, e.args, head);
      HoistedHead(e.fn, [head] + e.args[1..]);
      AggregationInside(c, step, e.fn, e.args, head);
    } else {
      InsideCore(c, step, e);
    }
  }

  lemma NotParenHead(e: Expr)
    requires NotParen(e)
    ensures e.Call? || e.AggregateExpr? || e.VectorSelector?
  {
  }

  /** The canonical form is hoisted and has the very same plan. */
  lemma {:induction false} CanonicalPlan(c: Config, e: Expr)
    requires IsChain(e)
    ensures Hoisted(Canonical(e)) && NotParen(Canonical(e))
    ensures Translate(c, e).Some? && Translate(c, Canonical(e)) == Translate(c, e)
    decreases e
  {
    match e
    case VectorSelector(_) =>
    case Call(fn, args) =>
      if IsMath(fn, args) {
        CanonicalPlan(c, args[0]);
        var head := Canonical(args[0]);
        HeadReplaced(fn, args, head);
        MathPlan(c, fn, args);
        MathPlan(c, fn, [head] + args[1..]);
        hide IsMath;
      }
    case AggregateExpr(step, inner) =>
      CanonicalPlan(c, inner);
      AggregateInsidePlan(c, step, Canonical(inner));
    case ParenExpr(inner) =>
      CanonicalPlan(c, inner);
  }

  // ---- What the plan of a chain computes ----

  lemma {:induction false} HoistedNormal(env: Env, e: Expr, steps: seq<int>)
    requires ValidEnv(env) && Hoisted(e)
    ensures NormalForm(e) && VectorOperands(env, e, steps)
    decreases e
  {
    if IsMathCall(e) {
      HoistedNormal(env, e.args[0], steps);
    } else {
      SpineVectors(env, e, steps);
    }
  }

  lemma {:induction false} SpineVectors(env: Env, e: Expr, steps: seq<int>)
    requires ValidEnv(env) && Spine(e)
    ensures VectorOperands(env, e, steps)
  {
    match e
    case AggregateExpr(_, inner) => SpineVectors(env, inner, steps);
    case ParenExpr(inner) => SpineVectors(env, inner, steps);
    case _ =>
  }

  lemma {:induction false} AggregateInsideLost(env: Env, step: Plans.AggStep, e: Expr)
    requires ValidEnv(env) && Hoisted(e)
    ensures FetchFaithful(env, AggregateInside(step, e)) <==> FetchFaithful(env, e)
    decreases e
  {
    if IsMathCall(e) {
      AggregateInsideLost(env, step, e.args[0]);
      AggregateInsidePlan(env.config, step, e.args[0]);
      HeadReplaced(e.fn, e.args, AggregateInside(step, e.args[0]));
    } else if e.Call? {
      DropParamOfCall(e.fn, e.args);
    }
  }

  lemma {:induction false} CanonicalLost(env: Env, e: Expr)
    requires ValidEnv(env) && IsChain(e)
    ensures FetchFaithful(env, Canonical(e)) <==> FetchFaithful(env, e)
    decreases e
  {
    match e
    case VectorSelector(_) =>
    case Call(fn, args) =>
      if IsMath(fn, args) {
        CanonicalLost(env, args[0]);
        CanonicalPlan(env.config, args[0]);
        HeadReplaced(fn, args, Canonical(args[0]));
      }
    case AggregateExpr(step, inner) =>
      CanonicalLost(env, inner);
      CanonicalPlan(env.config, inner);
      AggregateInsideLost(env, step, Canonical(inner));
    case ParenExpr(inner) =>
      CanonicalLost(env, inner);
  }

  ghost function PlanResult(env: Env, e: Expr, steps: seq<int>): Option<Columns.Table>
    requires ValidEnv(env)
  {
    match Translate(env.config, e)
    case Some(p) => PlanTable(env, p, steps)
    case None => None
  }

  /** The plan of a chain computes the meaning of the canonical form of the chain. */
  lemma PlanMeansCanonical(env: Env, e: Expr, steps: seq<int>)
    requires ValidEnv(env) && StepsInQuery(env, steps) && IsChain(e) && FetchFaithful(env, e)
    ensures Means(env, Canonical(e), steps, PlanResult(env, e, steps))
  {
    CanonicalPlan(env.config, e);
    CanonicalLost(env, e);
    HoistedNormal(env, Canonical(e), steps);
    hide Means;
    TranslationPreservesMeaning(env, Canonical(e), steps);
  }

  lemma CallDenotes(env: Env, fn: string, args: seq<Expr>, t: int)
    requires ValidEnv(env)
    requires IsRangeCall(fn, args) || (IsMath(fn, args) && Denote(env, args[0], t).Some?)
    ensures Denote(env, Call(fn, args), t).Some?
  {
    CallMeaning(env, fn, args, t);
    hide Denote;
    hide RangeCallOf;
    hide MathStepOf;
    hide ValidEnv;
  }

  lemma {:induction false} ChainDenotes(env: Env, e: Expr, t: int)
    requires ValidEnv(env) && IsChain(e)
    ensures Denote(env, e, t).Some?
    decreases e
  {
    hide ValidEnv;
    match e
    case VectorSelector(_) =>
    case Call(fn, args) =>
      hide Denote;
      hide RangeCallOf;
      if IsMath(fn, args) {
        ChainDenotes(env, args[0], t);
      }
      CallDenotes(env, fn, args, t);
    case AggregateExpr(_, inner) =>
      ChainDenotes(env, inner, t);
    case ParenExpr(inner) =>
      ChainDenotes(env, inner, t);
  }

  /** A chain is evaluated correctly exactly when, at every step, it means what its
      canonical form means. */
  lemma ChainCorrect(env: Env, e: Expr, steps: seq<int>)
    requires ValidEnv(env) && StepsInQuery(env, steps) && IsChain(e) && FetchFaithful(env, e)
    ensures Means(env, e, steps, PlanResult(env, e, steps))
            <==> forall t :: t in steps ==> Denote(env, e, t) == Denote(env, Canonical(e), t)
  {
    PlanMeansCanonical(env, e, steps);
    forall t ensures Denote(env, e, t).Some? {
      ChainDenotes(env, e, t);
    }
    hide Denote;
    hide Canonical;
    var result := PlanResult(env, e, steps);
    hide PlanResult;
    hide Columns.Column;
    hide Columns.Normal;
    if Means(env, e, steps, result) && result.Some? {
      assert IsTableOf(env, e, steps, result.value);
    }
    if result.None? {
      CanonicalDenotes(env, e, steps);
    }
  }

  lemma CanonicalDenotes(env: Env, e: Expr, steps: seq<int>)
    requires ValidEnv(env) && IsChain(e)
    ensures forall t :: t in steps ==> Denote(env, Canonical(e), t).Some?
  {
    CanonicalPlan(env.config, e);
    forall t | t in steps ensures Denote(env, Canonical(e), t).Some? {
      HoistedDenotes(env, Canonical(e), t);
    }
  }

  lemma {:induction false} HoistedDenotes(env: Env, e: Expr, t: int)
    requires ValidEnv(env) && Hoisted(e)
    ensures Denote(env, e, t).Some?
    decreases e
  {
    hide ValidEnv;
    hide Denote;
    hide RangeCallOf;
    if IsMathCall(e) {
      HoistedDenotes(env, e.args[0], t);
      CallDenotes(env, e.fn, e.args, t);
    } else {
      SpineIsChain(e);
      ChainDenotes(env, e, t);
    }
  }

  lemma {:induction false} SpineIsChain(e: Expr)
    requires Spine(e)
    ensures IsChain(e)
  {
    match e
    case AggregateExpr(_, inner) => SpineIsChain(inner);
    case ParenExpr(inner) => SpineIsChain(inner);
    case _ =>
  }
}

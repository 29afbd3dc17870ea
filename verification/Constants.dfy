/** Expressions made of numbers: the evaluator computes them once, at the start of the query
    (translator/functions.go:50-65, 241-244, translator/binary.go:38-48,
    eval/evaluator.go:63-71, 151-185, 226-236). */
module Constants {
  import opened Types
  import opened Plans
  import opened BinaryEval
  import opened RangeQuery
  import opened Translator
  import opened PlanEval
  import opened BinaryVectors

  /** A truth as the number that the comparisons with `bool` give. */
  function Truth(b: bool): Option<real> { Some(if b then 1.0 else 0.0) }

  /** Arithmetic on two numbers; a division by zero and the functions of the math library
      are left to the library. */
  function Arithmetic(op: string, x: real, y: real): Option<real> {
    match op
    case "+" => Some(x + y)
    case "-" => Some(x - y)
    case "*" => Some(x * y)
    case "/" => if y == 0.0 then None else Some(x / y)
    case _ => None
  }

  function Comparison(op: string, x: real, y: real): Option<real> {
    match op
    case "==" => Truth(x == y)
    case "!=" => Truth(x != y)
    case ">" => Truth(y < x)
    case "<" => Truth(x < y)
    case ">=" => Truth(y <= x)
    case "<=" => Truth(x <= y)
    case _ => None
  }

  /** The number that an expression of numbers stands for. */
  function Number(e: Expr): Option<real>
    decreases e
  {
    match e
    case NumberLiteral(val) => Some(val)
    case ParenExpr(inner) => Number(inner)
    case Call(fn, args) =>
      if fn == "pi" && args == [] then Some(3.141592653589793)
      else if fn == "vector" && |args| == 1 && args[0].NumberLiteral? then Some(args[0].val)
      else None
    case UnaryExpr(negate, inner) =>
      (match Number(inner)
       case Some(x) => Some(if negate then -x else x)
       case None => None)
    case BinaryExpr(op, returnBool, _, lhs, rhs) =>
      var l, r := Number(lhs), Number(rhs);
      if l.None? || r.None? then None
      else if returnBool then Comparison(op, l.value, r.value)
      else Arithmetic(op, l.value, r.value)
    case _ => None
  }

  lemma OnNumbers(lib: Lib, op: string, returnBool: bool, onLeft: bool, scalar: real, v: real)
    ensures var x, y := if onLeft then scalar else v, if onLeft then v else scalar;
            var r := if returnBool then Comparison(op, x, y) else Arithmetic(op, x, y);
            r.Some? ==> WithScalar(lib, op, returnBool, onLeft, scalar, v) == r
  {
    var x, y := if onLeft then scalar else v, if onLeft then v else scalar;
    if returnBool {
      assert Comparison(op, x, y).Some? ==> Combine(lib, op, true, x, y) == Comparison(op, x, y);
    } else {
      assert Arithmetic(op, x, y).Some? ==> Combine(lib, op, false, x, y) == Arithmetic(op, x, y);
    }
  }

  lemma LiteralLooks(env: Env, val: real)
    ensures LooksScalar(Literal(env, val)) && FirstValue(Literal(env, val)) == val
  {
  }

  lemma ScalarOnLiteral(env: Env, f: real -> Option<real>, val: real)
    requires f(val).Some?
    ensures ScalarTable(f, Literal(env, val)) == Literal(env, f(val).value)
  {
    var ps := [Point(env.config.startMs, val)];
    assert ps[..0] == [];
    assert ScalarPoints(f, ps[..0]) == [];
    assert ScalarPoints(f, ps) == [Point(env.config.startMs, f(val).value)];
  }

  lemma NoMath(lib: Lib, env: Env, val: real)
    ensures MapTable(ChainFn(lib, []), Literal(env, val)) == Literal(env, val)
  {
    var ps := [Point(env.config.startMs, val)];
    assert MapPoints(ChainFn(lib, []), ps[..0]) == [];
    assert MapPoints(ChainFn(lib, []), ps) == ps;
  }

  /** The plan evaluates to a number. */
  ghost predicate IsNumber(env: Env, p: Plan, steps: seq<int>, val: real)
    requires ValidEnv(env)
  {
    PlanTable(env, p, steps) == Some(Literal(env, val))
  }

  lemma ScalarPlanIsNumber(env: Env, p: Plan, steps: seq<int>)
    requires ValidEnv(env) && p.isScalar
    ensures IsNumber(env, p, steps, p.scalarVal)
  {
  }

  lemma LiteralsDiffer(env: Env, x: real, y: real)
    requires Literal(env, x) == Literal(env, y)
    ensures x == y
  {
    assert Literal(env, x)[map[]] == Literal(env, y)[map[]];
  }

  /** A binary plan over two numbers, in each of the forms that the translator gives it. */
  lemma BinaryOfNumbers(env: Env, op: string, returnBool: bool, mt: Matching, l: Plan, r: Plan, steps: seq<int>, x: real, y: real)
    requires ValidEnv(env) && IsNumber(env, l, steps, x) && IsNumber(env, r, steps, y)
    requires (if returnBool then Comparison(op, x, y) else Arithmetic(op, x, y)).Some?
    ensures IsNumber(env, BinaryPlan(env.config, op, returnBool, mt, l, r), steps,
                     (if returnBool then Comparison(op, x, y) else Arithmetic(op, x, y)).value)
  {
    var p := BinaryPlan(env.config, op, returnBool, mt, l, r);
    OperandValue(env, l, steps, x);
    OperandValue(env, r, steps, y);
    OnNumbers(env.lib, op, returnBool, false, y, x);
    OnNumbers(env.lib, op, returnBool, true, x, y);
    LiteralLooks(env, x);
    LiteralLooks(env, y);
    ScalarOnLiteral(env, ScalarOp(env.lib, p, y, false), x);
    ScalarOnLiteral(env, ScalarOp(env.lib, p, x, true), y);
    hide WithScalar;
    hide Literal;
    hide LooksScalar;
    hide FirstValue;
    NoMath(env.lib, env, (if returnBool then Comparison(op, x, y) else Arithmetic(op, x, y)).value);
    hide Comparison;
    hide Arithmetic;
    hide ScalarTable;
    hide MapTable;
  }

  lemma OperandValue(env: Env, p: Plan, steps: seq<int>, x: real)
    requires ValidEnv(env) && IsNumber(env, p, steps, x)
    ensures ScalarOf(p).Some? ==> ScalarOf(p).value == x
  {
    if p.isScalar {
      LiteralsDiffer(env, p.scalarVal, x);
    }
  }

  /** The expression is translated, and its plan evaluates to its number. */
  ghost predicate Folded(env: Env, e: Expr, steps: seq<int>)
    requires ValidEnv(env) && Number(e).Some?
  {
    Translate(env.config, e).Some? && IsNumber(env, Translate(env.config, e).value, steps, Number(e).value)
  }

  lemma NumberIsFolded(env: Env, e: Expr, steps: seq<int>)
    requires ValidEnv(env) && Number(e).Some? && (e.NumberLiteral? || e.Call?)
    ensures Folded(env, e, steps)
  {
    NumberPlans(env.config, e);
    hide Translate;
    ScalarPlanIsNumber(env, NumberPlan(Number(e).value), steps);
  }

  lemma NumberPlans(c: Config, e: Expr)
    requires Number(e).Some? && (e.NumberLiteral? || e.Call?)
    ensures Translate(c, e) == Some(NumberPlan(Number(e).value))
  {
  }

  lemma NegationIsNumber(env: Env, inner: Plan, steps: seq<int>, x: real)
    requires ValidEnv(env) && IsNumber(env, inner, steps, x)
    ensures IsNumber(env, NegationPlan(inner), steps, -x)
  {
    var p := NegationPlan(inner);
    var zero := NumberPlan(0.0);
    ScalarPlanIsNumber(env, zero, steps);
    OnNumbers(env.lib, "-", false, false, x, 0.0);
    LiteralLooks(env, x);
    ScalarOnLiteral(env, ScalarOp(env.lib, p, x, false), 0.0);
    hide WithScalar;
    hide Literal;
    hide LooksScalar;
    hide FirstValue;
    hide ScalarTable;
  }

  lemma SignIsFolded(env: Env, e: Expr, steps: seq<int>)
    requires ValidEnv(env) && e.UnaryExpr? && Number(e.expr).Some? && Folded(env, e.expr, steps)
    ensures Folded(env, e, steps)
  {
    hide IsNumber;
    hide NegationPlan;
    if e.negate {
      NegationIsNumber(env, Translate(env.config, e.expr).value, steps, Number(e.expr).value);
    }
  }

  lemma OperatorIsFolded(env: Env, e: Expr, steps: seq<int>)
    requires ValidEnv(env) && e.BinaryExpr? && Number(e).Some?
    requires Folded(env, e.lhs, steps) && Folded(env, e.rhs, steps)
    ensures Folded(env, e, steps)
  {
    BinaryOfNumbers(env, e.op, e.returnBool, e.matching, Translate(env.config, e.lhs).value, Translate(env.config, e.rhs).value,
                    steps, Number(e.lhs).value, Number(e.rhs).value);
    hide BinaryPlan;
    hide IsNumber;
    hide Comparison;
    hide Arithmetic;
  }

  lemma ParenIsFolded(env: Env, e: Expr, steps: seq<int>)
    requires ValidEnv(env) && e.ParenExpr? && Number(e.expr).Some? && Folded(env, e.expr, steps)
    ensures Folded(env, e, steps)
  {
    hide IsNumber;
  }

  lemma {:induction false} AllFolded(env: Env, e: Expr, steps: seq<int>)
    requires ValidEnv(env) && Number(e).Some?
    ensures Folded(env, e, steps)
    decreases e
  {
    match e
    case ParenExpr(inner) =>
      AllFolded(env, inner, steps);
      hide Folded;
      ParenIsFolded(env, e, steps);
    case UnaryExpr(negate, inner) =>
      AllFolded(env, inner, steps);
      hide Folded;
      SignIsFolded(env, e, steps);
    case BinaryExpr(op, returnBool, mt, lhs, rhs) =>
      AllFolded(env, lhs, steps);
      AllFolded(env, rhs, steps);
      hide Folded;
      OperatorIsFolded(env, e, steps);
    case Call(_, _) => NumberIsFolded(env, e, steps);
    case NumberLiteral(_) => NumberIsFolded(env, e, steps);
  }

  /** An expression of numbers evaluates to one sample without labels, at the start of the
      query and nowhere else, whose value is that of ordinary arithmetic. */
  lemma NumbersAreFolded(env: Env, e: Expr, steps: seq<int>)
    requires ValidEnv(env) && Number(e).Some?
    ensures Translate(env.config, e).Some?
    ensures PlanTable(env, Translate(env.config, e).value, steps)
         == Some(map[map[] := [Point(env.config.startMs, Number(e).value)]])
  {
    AllFolded(env, e, steps);
    hide PlanTable;
    hide Translate;
    hide Number;
  }
}

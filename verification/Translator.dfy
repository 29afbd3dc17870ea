/** The translator: one pass over the syntax tree that patches fields of the plan it got
    for the inner expression (translator/translator.go, functions.go, aggregations.go,
    binary.go, matrix_selector.go, vector_selector.go). */
module Translator {
  import opened Types
  import opened Plans
  import opened BinaryVectors
  import FetchWindow

  datatype Matcher = Matcher(name: string, op: string, value: string)

  /** A selector as parsed; matchers on `__name__` are still in the list. */
  datatype Selector = Selector(name: string, matchers: seq<Matcher>, offsetMs: int)

  datatype Expr =
    | VectorSelector(sel: Selector)
    | MatrixSelector(sel: Selector, rangeMs: int)
    | Call(fn: string, args: seq<Expr>)
    | AggregateExpr(step: AggStep, expr: Expr)
    | BinaryExpr(op: string, returnBool: bool, matching: Matching, lhs: Expr, rhs: Expr)
    | UnaryExpr(negate: bool, expr: Expr)
    | ParenExpr(expr: Expr)
    | NumberLiteral(val: real)
    | SubqueryExpr(expr: Expr)

  /** The range of the query and the staleness window, in milliseconds. */
  datatype Config = Config(startMs: int, endMs: int, stalenessMs: int)

  /** The value of a finished plan. */
  datatype Plan = Plan(
    metricName: string,
    matchers: seq<Matcher>,
    data: (int, int),
    exprType: string,
    funcName: string,
    rangeMs: int,
    offsetMs: int,
    aggChain: seq<AggStep>,
    aggParam: real,
    smoothing: real,
    mathChain: seq<MathStep>,
    isScalar: bool,
    scalarVal: real,
    binaryOp: string,
    returnBool: bool,
    matching: Matching,
    scalarLHS: Option<real>,
    scalarRHS: Option<real>,
    lhs: Option<Plan>,
    rhs: Option<Plan>)

  const ONE_TO_ONE: Matching := Matching([], false)

  const EMPTY: Plan := Plan("", [], (0, 0), "", "", 0, 0, [], 0.0, 0.0, [], false, 0.0, "", false, ONE_TO_ONE,
                            None, None, None, None)

  /** Functions of one range vector and nothing else. */
  const SIMPLE_RANGE_FUNCTIONS: set<string> := {
    "rate", "irate", "increase", "delta", "idelta", "deriv", "resets", "changes",
    "avg_over_time", "min_over_time", "max_over_time", "sum_over_time", "count_over_time",
    "stddev_over_time", "stdvar_over_time", "last_over_time", "present_over_time", "mad_over_time"
  }

  const MATH_FUNCTIONS: set<string> :=
    {"abs", "ceil", "floor", "sqrt", "exp", "ln", "log2", "log10", "sgn", "sort", "sort_desc"} + TRIG

  // ---- What the translation is ----

  /** The matchers without those on the metric name. */
  function LabelMatchers(ms: seq<Matcher>): seq<Matcher> {
    if ms == [] then []
    else LabelMatchers(ms[..|ms| - 1]) + if ms[|ms| - 1].name == "__name__" then [] else [ms[|ms| - 1]]
  }

  /** The given name, or else the value of the first non-empty matcher on the name. */
  function MetricName(name: string, ms: seq<Matcher>): string {
    if ms == [] then name
    else
      var front, m := MetricName(name, ms[..|ms| - 1]), ms[|ms| - 1];
      if m.name == "__name__" && front == "" then m.value else front
  }

  function InstantSelectorPlan(c: Config, sel: Selector): Plan {
    EMPTY.(metricName := MetricName(sel.name, sel.matchers), matchers := LabelMatchers(sel.matchers),
           data := FetchWindow.InstantData(c.startMs, c.endMs, sel.offsetMs, c.stalenessMs),
           exprType := "vector", offsetMs := sel.offsetMs)
  }

  function RangeSelectorPlan(c: Config, sel: Selector, rangeMs: int): Plan {
    EMPTY.(metricName := MetricName(sel.name, sel.matchers), matchers := LabelMatchers(sel.matchers),
           data := FetchWindow.RangeData(c.startMs, c.endMs, rangeMs, sel.offsetMs, c.stalenessMs),
           exprType := "matrix", rangeMs := rangeMs, offsetMs := sel.offsetMs)
  }

  /** The range function that a call denotes: its selector and its two parameters. */
  function RangeCallOf(fn: string, args: seq<Expr>): (r: Option<(Expr, real, real)>)
    ensures r.Some? ==> r.value.0.MatrixSelector?
  {
    if fn in SIMPLE_RANGE_FUNCTIONS && |args| >= 1 && args[0].MatrixSelector? then Some((args[0], 0.0, 0.0))
    else if fn == "predict_linear" && |args| >= 2 && args[0].MatrixSelector? && args[1].NumberLiteral? then
      Some((args[0], args[1].val, 0.0))
    else if fn == "quantile_over_time" && |args| >= 2 && args[0].NumberLiteral? && args[1].MatrixSelector? then
      Some((args[1], args[0].val, 0.0))
    else if fn == "double_exponential_smoothing" && |args| >= 3
            && args[0].MatrixSelector? && args[1].NumberLiteral? && args[2].NumberLiteral? then
      Some((args[0], args[1].val, args[2].val))
    else None
  }

  function RangeCallPlan(c: Config, fn: string, call: (Expr, real, real)): Plan
    requires call.0.MatrixSelector?
  {
    RangeSelectorPlan(c, call.0.sel, call.0.rangeMs).(funcName := fn, exprType := "call", aggParam := call.1, smoothing := call.2)
  }

  /** The pointwise function that a call applies to its first argument. */
  function MathStepOf(fn: string, args: seq<Expr>): Option<MathStep> {
    if fn in MATH_FUNCTIONS && |args| >= 1 then Some(MathStep(fn, 0.0, 0.0))
    else if fn == "clamp" && |args| >= 3 && args[1].NumberLiteral? && args[2].NumberLiteral? then
      Some(MathStep(fn, args[1].val, args[2].val))
    else if (fn == "clamp_min" || fn == "clamp_max") && |args| >= 2 && args[1].NumberLiteral? then
      Some(MathStep(fn, args[1].val, 0.0))
    else if fn == "round" && |args| >= 1 then
      Some(MathStep(fn, if |args| > 1 && args[1].NumberLiteral? then args[1].val else 1.0, 0.0))
    else None
  }

  function NumberPlan(val: real): Plan {
    EMPTY.(isScalar := true, scalarVal := val)
  }

  function LiteralCall(fn: string, args: seq<Expr>): Option<real> {
    if fn == "pi" && args == [] then Some(PI)
    else if fn == "vector" && |args| >= 1 && args[0].NumberLiteral? then Some(args[0].val)
    else None
  }

  function ScalarOf(p: Plan): Option<real> {
    if p.isScalar then Some(p.scalarVal) else None
  }

  function WholeBinaryPlan(data: (int, int), op: string, returnBool: bool, mt: Matching, l: Plan, r: Plan): Plan {
    EMPTY.(exprType := "binary", binaryOp := op, returnBool := returnBool, matching := mt, data := data,
           lhs := Some(l), rhs := Some(r))
  }

  /** A side that is a scalar survives as its number only. */
  function WithoutScalarSides(p: Plan, left: Option<real>, right: Option<real>): Plan {
    p.(scalarLHS := left, lhs := if left.Some? then None else p.lhs,
       scalarRHS := right, rhs := if right.Some? then None else p.rhs)
  }

  function BinaryPlan(c: Config, op: string, returnBool: bool, mt: Matching, l: Plan, r: Plan): Plan {
    WithoutScalarSides(WholeBinaryPlan((c.startMs, c.endMs), op, returnBool, mt, l, r), ScalarOf(l), ScalarOf(r))
  }

  function NegationPlan(inner: Plan): Plan {
    WholeBinaryPlan((0, 0), "-", false, ONE_TO_ONE, NumberPlan(0.0), inner)
  }

  /** The plan of an expression; an absent plan is an error. */
  function Translate(c: Config, e: Expr): Option<Plan>
    decreases e
  {
    match e
    case VectorSelector(sel) => Some(InstantSelectorPlan(c, sel))
    case MatrixSelector(sel, rangeMs) => Some(RangeSelectorPlan(c, sel, rangeMs))
    case Call(fn, args) =>
      if RangeCallOf(fn, args).Some? then
        Some(RangeCallPlan(c, fn, RangeCallOf(fn, args).value))
      else if LiteralCall(fn, args).Some? then Some(NumberPlan(LiteralCall(fn, args).value))
      else if MathStepOf(fn, args).Some? then
        match Translate(c, args[0])
        case Some(p) => Some(p.(mathChain := p.mathChain + [MathStepOf(fn, args).value]))
        case None => None
      else None
    case AggregateExpr(step, inner) =>
      (match Translate(c, inner)
       case Some(p) => Some(p.(aggChain := p.aggChain + [step], aggParam := 0.0, exprType := "aggregate"))
       case None => None)
    case BinaryExpr(op, returnBool, mt, lhs, rhs) =>
      var l, r := Translate(c, lhs), Translate(c, rhs);
      if l.Some? && r.Some? then Some(BinaryPlan(c, op, returnBool, mt, l.value, r.value)) else None
    case UnaryExpr(negate, inner) =>
      (match Translate(c, inner)
       case Some(p) => Some(if negate then NegationPlan(p) else p)
       case None => None)
    case ParenExpr(inner) => Translate(c, inner)
    case NumberLiteral(val) => Some(NumberPlan(val))
    case SubqueryExpr(_) => None
  }

  // ---- The program ----

  /** SQLPlan (translator/plan.go:47-109): a tree of plans that the transpilers patch in
      place. The nullable sides own their subtrees. */
  class SQLPlan {
    var metricName: string
    var matchers: seq<Matcher>
    var dataStartMs: int
    var dataEndMs: int
    var exprType: string
    var funcName: string
    var rangeMs: int
    var offsetMs: int
    var aggChain: seq<AggStep>
    var aggParam: real
    var smoothingTF: real
    var mathChain: seq<MathStep>
    var isScalar: bool
    var scalarVal: real
    var binaryOp: string
    var returnBool: bool
    var matching: Matching
    var scalarLHS: Option<real>
    var scalarRHS: Option<real>
    var lhs: SQLPlan?
    var rhs: SQLPlan?
    ghost var repr: set<object>

    ghost predicate Valid()
      reads this, repr
      decreases repr
    {
      && this in repr
      && (lhs != null ==> lhs in repr && lhs.repr < repr && this !in lhs.repr && lhs.Valid())
      && (rhs != null ==> rhs in repr && rhs.repr < repr && this !in rhs.repr && rhs.Valid())
    }

    /** The tree below this node as a value. */
    function Value(): Plan
      reads this, repr
      requires Valid()
      decreases repr
    {
      Plan(metricName, matchers, (dataStartMs, dataEndMs), exprType, funcName, rangeMs, offsetMs,
           aggChain, aggParam, smoothingTF, mathChain, isScalar, scalarVal, binaryOp, returnBool, matching,
           scalarLHS, scalarRHS,
           if lhs == null then None else Some(lhs.Value()),
           if rhs == null then None else Some(rhs.Value()))
    }

    /** A node without sides. */
    constructor Leaf(metricName: string, matchers: seq<Matcher>, data: (int, int), exprType: string, rangeMs: int,
                     offsetMs: int, isScalar: bool, scalarVal: real)
      ensures Valid() && fresh(repr)
      ensures Value() == EMPTY.(metricName := metricName, matchers := matchers, data := data, exprType := exprType,
                                rangeMs := rangeMs, offsetMs := offsetMs, isScalar := isScalar, scalarVal := scalarVal)
    {
      this.metricName, this.matchers, dataStartMs, dataEndMs := metricName, matchers, data.0, data.1;
      this.exprType, this.rangeMs, this.offsetMs := exprType, rangeMs, offsetMs;
      this.isScalar, this.scalarVal := isScalar, scalarVal;
      funcName, aggChain, aggParam, smoothingTF, mathChain := "", [], 0.0, 0.0, [];
      binaryOp, returnBool, matching := "", false, ONE_TO_ONE;
      scalarLHS, scalarRHS, lhs, rhs := None, None, null, null;
      repr := {this};
    }

    /** A binary node over two sides, not yet told which of them are scalars. */
    constructor Binary(data: (int, int), op: string, returnBool: bool, matching: Matching, l: SQLPlan, r: SQLPlan)
      requires l.Valid() && r.Valid()
      ensures Valid() && fresh(repr - l.repr - r.repr)
      ensures scalarLHS == None == scalarRHS
      ensures Value() == WholeBinaryPlan(data, op, returnBool, matching, old(l.Value()), old(r.Value()))
    {
      metricName, matchers, dataStartMs, dataEndMs := "", [], data.0, data.1;
      exprType, rangeMs, offsetMs := "binary", 0, 0;
      isScalar, scalarVal := false, 0.0;
      funcName, aggChain, aggParam, smoothingTF, mathChain := "", [], 0.0, 0.0, [];
      binaryOp, this.returnBool, this.matching := op, returnBool, matching;
      scalarLHS, scalarRHS, lhs, rhs := None, None, l, r;
      repr := {this} + l.repr + r.repr;
    }

    /** Keeps only the number of a scalar right side. */
    method MakeScalarRHS(val: real)
      requires Valid()
      modifies this`scalarRHS, this`rhs
      ensures Valid()
      ensures Value() == old(Value()).(scalarRHS := Some(val), rhs := None)
    {
      scalarRHS, rhs := Some(val), null;
    }

    method MakeScalarLHS(val: real)
      requires Valid()
      modifies this`scalarLHS, this`lhs
      ensures Valid()
      ensures Value() == old(Value()).(scalarLHS := Some(val), lhs := None)
    {
      scalarLHS, lhs := Some(val), null;
    }

    method DropScalarSides(left: Option<real>, right: Option<real>)
      requires Valid() && scalarLHS == None == scalarRHS
      modifies this`scalarLHS, this`scalarRHS, this`lhs, this`rhs
      ensures Valid() && Value() == WithoutScalarSides(old(Value()), left, right)
    {
      if right.Some? {
        MakeScalarRHS(right.value);
      }
      if left.Some? {
        MakeScalarLHS(left.value);
      }
    }

    /** wrapMathFunc and the other transpilers that append a math step. */
    method AppendMath(step: MathStep)
      requires Valid()
      modifies this`mathChain
      ensures Valid() && Value() == old(Value()).(mathChain := old(mathChain) + [step])
    {
      mathChain := mathChain + [step];
    }

    /** The tail of transpileAggregateExpr: the step goes to the end of the chain. */
    method AppendAggregation(step: AggStep)
      requires Valid()
      modifies this`aggChain
      ensures Valid() && Value() == old(Value()).(aggChain := old(aggChain) + [step])
    {
      aggChain := aggChain + [step];
    }

    /** The single-level fields are overwritten; no modelled aggregation has a parameter. */
    method OverwriteAggregation()
      requires Valid()
      modifies this`aggParam, this`exprType
      ensures Valid() && Value() == old(Value()).(aggParam := 0.0, exprType := "aggregate")
    {
      aggParam, exprType := 0.0, "aggregate";
    }

    method SetFunction(fn: string)
      requires Valid()
      modifies this`funcName, this`exprType
      ensures Valid() && Value() == old(Value()).(funcName := fn, exprType := "call")
    {
      funcName, exprType := fn, "call";
    }

    method SetParameters(param: real, smoothing: real)
      requires Valid()
      modifies this`aggParam, this`smoothingTF
      ensures Valid() && Value() == old(Value()).(aggParam := param, smoothing := smoothing)
    {
      aggParam, smoothingTF := param, smoothing;
    }
  }

  /** The loop shared by both kinds of selector. */
  method ScanMatchers(sel: Selector) returns (metricName: string, matchers: seq<Matcher>)
    ensures metricName == MetricName(sel.name, sel.matchers) && matchers == LabelMatchers(sel.matchers)
  {
    metricName, matchers := sel.name, [];
    for i := 0 to |sel.matchers|
      invariant metricName == MetricName(sel.name, sel.matchers[..i]) && matchers == LabelMatchers(sel.matchers[..i])
    {
      assert sel.matchers[..i + 1][..i] == sel.matchers[..i];
      var m := sel.matchers[i];
      if m.name == "__name__" {
        if metricName == "" {
          metricName := m.value;
        }
        continue;
      }
      matchers := matchers + [m];
    }
    assert sel.matchers[..|sel.matchers|] == sel.matchers;
  }

  method TranspileVectorSelector(c: Config, sel: Selector) returns (plan: SQLPlan)
    ensures fresh(plan.repr) && plan.Valid() && plan.Value() == InstantSelectorPlan(c, sel)
  {
    var metricName, matchers := ScanMatchers(sel);
    plan := new SQLPlan.Leaf(metricName, matchers, (c.startMs - c.stalenessMs - sel.offsetMs, c.endMs - sel.offsetMs),
                             "vector", 0, sel.offsetMs, false, 0.0);
  }

  method TranspileMatrixSelector(c: Config, sel: Selector, rangeMs: int) returns (plan: SQLPlan)
    ensures fresh(plan.repr) && plan.Valid() && plan.Value() == RangeSelectorPlan(c, sel, rangeMs)
  {
    var metricName, matchers := ScanMatchers(sel);
    plan := new SQLPlan.Leaf(metricName, matchers,
                             (c.startMs - rangeMs - c.stalenessMs - sel.offsetMs, c.endMs - sel.offsetMs),
                             "matrix", rangeMs, sel.offsetMs, false, 0.0);
  }

  /** transpileRangeFunc and the range functions with number parameters. */
  method TranspileRangeCall(c: Config, fn: string, args: seq<Expr>) returns (plan: SQLPlan)
    requires RangeCallOf(fn, args).Some?
    ensures fresh(plan.repr) && plan.Valid() && plan.Value() == RangeCallPlan(c, fn, RangeCallOf(fn, args).value)
  {
    var (ms, param, smoothing) := RangeCallOf(fn, args).value;
    plan := TranspileMatrixSelector(c, ms.sel, ms.rangeMs);
    plan.SetFunction(fn);
    plan.SetParameters(param, smoothing);
  }

  method NewNumber(val: real) returns (plan: SQLPlan)
    ensures fresh(plan.repr) && plan.Valid() && plan.Value() == NumberPlan(val)
  {
    plan := new SQLPlan.Leaf("", [], (0, 0), "", 0, 0, true, val);
  }

  /** A negated expression is written as the scalar plan 0 minus the expression. */
  method TranspileNegation(inner: SQLPlan) returns (plan: SQLPlan)
    requires inner.Valid()
    ensures fresh(plan.repr - inner.repr) && plan.Valid() && plan.Value() == NegationPlan(old(inner.Value()))
  {
    var zero := NewNumber(0.0);
    plan := new SQLPlan.Binary((0, 0), "-", false, ONE_TO_ONE, zero, inner);
  }

  /** The two sides, a scalar side being kept as a number only. */
  method TranspileBinary(c: Config, op: string, returnBool: bool, mt: Matching, l: SQLPlan, r: SQLPlan)
    returns (plan: SQLPlan)
    requires l.Valid() && r.Valid()
    ensures fresh(plan.repr - l.repr - r.repr) && plan.Valid()
    ensures plan.Value() == BinaryPlan(c, op, returnBool, mt, old(l.Value()), old(r.Value()))
  {
    var left := if l.isScalar then Some(l.scalarVal) else None;
    var right := if r.isScalar then Some(r.scalarVal) else None;
    assert left == ScalarOf(l.Value()) && right == ScalarOf(r.Value());
    hide *;
    plan := new SQLPlan.Binary((c.startMs, c.endMs), op, returnBool, mt, l, r);
    plan.DropScalarSides(left, right);
  }

  /** transpileCall: the dispatch on the function name. */
  method TranspileCall(c: Config, e: Expr) returns (r: Result<SQLPlan>)
    requires e.Call?
    ensures r.Ok? <==> Translate(c, e).Some?
    ensures r.Ok? ==> fresh(r.value.repr) && r.value.Valid() && r.value.Value() == Translate(c, e).value
    decreases e, 0
  {
    var fn, args := e.fn, e.args;
    if RangeCallOf(fn, args).Some? {
      var plan := TranspileRangeCall(c, fn, args);
      r := Ok(plan);
    } else if LiteralCall(fn, args).Some? {
      var plan := NewNumber(LiteralCall(fn, args).value);
      r := Ok(plan);
    } else if MathStepOf(fn, args).Some? {
      r := Transpile(c, args[0]);
      if r.Ok? {
        r.value.AppendMath(MathStepOf(fn, args).value);
      }
    } else {
      r := Err("unsupported function: " + fn);
    }
  }

  method TranspileAggregateExpr(c: Config, e: Expr) returns (r: Result<SQLPlan>)
    requires e.AggregateExpr?
    ensures r.Ok? <==> Translate(c, e).Some?
    ensures r.Ok? ==> fresh(r.value.repr) && r.value.Valid() && r.value.Value() == Translate(c, e).value
    decreases e, 0
  {
    r := Transpile(c, e.expr);
    if r.Ok? {
      r.value.AppendAggregation(e.step);
      r.value.OverwriteAggregation();
    }
  }

  method TranspileBinaryExpr(c: Config, e: Expr) returns (r: Result<SQLPlan>)
    requires e.BinaryExpr?
    ensures r.Ok? <==> Translate(c, e).Some?
    ensures r.Ok? ==> fresh(r.value.repr) && r.value.Valid() && r.value.Value() == Translate(c, e).value
    decreases e, 0
  {
    hide BinaryPlan;
    var l := Transpile(c, e.lhs);
    if l.Err? {
      return l;
    }
    r := Transpile(c, e.rhs);
    if r.Ok? {
      var plan := TranspileBinary(c, e.op, e.returnBool, e.matching, l.value, r.value);
      r := Ok(plan);
    }
  }

  /** transpile: the recursive walk over the tree. */
  method Transpile(c: Config, e: Expr) returns (r: Result<SQLPlan>)
    ensures r.Ok? <==> Translate(c, e).Some?
    ensures r.Ok? ==> fresh(r.value.repr) && r.value.Valid() && r.value.Value() == Translate(c, e).value
    decreases e, 1
  {
    match e
    case VectorSelector(sel) =>
      var plan := TranspileVectorSelector(c, sel);
      r := Ok(plan);
    case MatrixSelector(sel, rangeMs) =>
      var plan := TranspileMatrixSelector(c, sel, rangeMs);
      r := Ok(plan);
    case Call(_, _) =>
      r := TranspileCall(c, e);
    case AggregateExpr(_, _) =>
      r := TranspileAggregateExpr(c, e);
    case BinaryExpr(_, _, _, _, _) =>
      r := TranspileBinaryExpr(c, e);
    case UnaryExpr(negate, inner) =>
      r := Transpile(c, inner);
      if r.Ok? && negate {
        var plan := TranspileNegation(r.value);
        r := Ok(plan);
      }
    case ParenExpr(inner) =>
      r := Transpile(c, inner);
    case NumberLiteral(val) =>
      var plan := NewNumber(val);
      r := Ok(plan);
    case SubqueryExpr(_) =>
      r := Err("unsupported: subquery [d:step]");
  }
}

/** The plan that the translator builds and the evaluator runs (translator/plan.go), and
    the pointwise math of its MathChain. */
module Plans {
  import opened Types
  import opened Reals

  /** The aggregations that AggregateVector computes. */
  datatype AggOp = Sum | Avg | Min | Max | Count | Group | Stddev | Stdvar

  datatype AggStep = AggStep(op: AggOp, grouping: seq<string>, without: bool)

  datatype MathStep = MathStep(fn: string, param: real, param2: real)

  /** The parts of the math library and of IEEE arithmetic that are not modelled: any
      function will do, and any number may stand for an infinity. */
  datatype Lib = Lib(
    sqrt: real -> real,
    unary: (string, real) -> real,
    binary: (string, real, real) -> real,
    negInf: real,
    posInf: real)

  function RealOf(lib: Lib, f: Float): real
    requires f != NaN
  {
    match f
    case NegInf => lib.negInf
    case PosInf => lib.posInf
    case Fin(r) => r
  }

  /** The fields of a flat plan that the evaluator reads after the samples are fetched. */
  datatype EvalPlan = EvalPlan(
    funcName: string,
    aggParam: real,
    smoothing: real,
    rangeMs: int,
    offsetMs: int,
    aggChain: seq<AggStep>,
    mathChain: seq<MathStep>)

  const PI: real := 3.141592653589793

  const TRIG: set<string> := {
    "sin", "cos", "tan", "asin", "acos", "atan",
    "sinh", "cosh", "tanh", "asinh", "acosh", "atanh", "deg", "rad"
  }

  function Ceil(v: real): real {
    if v == v.Floor as real then v else (v.Floor + 1) as real
  }

  /** Rounds half away from zero. */
  function Round(v: real): real {
    if v < 0.0 then -((-v + 0.5).Floor as real) else (v + 0.5).Floor as real
  }

  function MathMax(a: real, b: real): real { if a < b then b else a }

  function MathMin(a: real, b: real): real { if a < b then a else b }

  /** applyMathOp: the pointwise math of a matrix (eval/evaluator.go:920-959). */
  function MathOp(lib: Lib, s: MathStep, v: real): real {
    match s.fn
    case "abs" => Abs(v)
    case "ceil" => Ceil(v)
    case "floor" => v.Floor as real
    case "sqrt" => lib.sqrt(v)
    case "exp" => lib.unary("exp", v)
    case "ln" => lib.unary("ln", v)
    case "log2" => lib.unary("log2", v)
    case "log10" => lib.unary("log10", v)
    case "sgn" => if v > 0.0 then 1.0 else if v < 0.0 then -1.0 else 0.0
    case "clamp_min" => MathMax(s.param, v)
    case "clamp_max" => MathMin(s.param, v)
    case "clamp" => MathMax(s.param, MathMin(s.param2, v))
    case "round" =>
      if s.param == 0.0 || s.param == 1.0 then Round(v) else Times(Round(v / s.param), s.param)
    case _ => v
  }

  /** One step of applyMathChain on a vector (eval/evaluator.go:1186-1262); the sorting
      steps only reorder. */
  function VectorMathOp(lib: Lib, s: MathStep, v: real): real {
    match s.fn
    case "abs" => Abs(v)
    case "ceil" => Ceil(v)
    case "floor" => v.Floor as real
    case "round" =>
      if s.param == 0.0 || s.param == 1.0 then Round(v) else Times(Round(v / s.param), s.param)
    case "sqrt" => lib.sqrt(v)
    case "exp" => lib.unary("exp", v)
    case "ln" => lib.unary("ln", v)
    case "log2" => lib.unary("log2", v)
    case "log10" => lib.unary("log10", v)
    case "sgn" => if v > 0.0 then 1.0 else if v < 0.0 then -1.0 else 0.0
    case "clamp_min" => MathMax(s.param, v)
    case "clamp_max" => MathMin(s.param, v)
    case "clamp" => MathMax(s.param, MathMin(s.param2, v))
    case _ => if s.fn in TRIG then TrigOp(lib, s.fn, v) else v
  }

  function TrigOp(lib: Lib, fn: string, v: real): real {
    match fn
    case "deg" => v * 180.0 / PI
    case "rad" => v * PI / 180.0
    case _ => lib.unary(fn, v)
  }

  function Chain(f: (MathStep, real) -> real, chain: seq<MathStep>, v: real): real {
    if chain == [] then v else f(chain[|chain| - 1], Chain(f, chain[..|chain| - 1], v))
  }

  predicate IsTrig(s: MathStep) { s.fn in TRIG }

  ghost predicate NoTrig(chain: seq<MathStep>) {
    forall i :: 0 <= i < |chain| ==> !IsTrig(chain[i])
  }

  function MatrixMath(lib: Lib): (MathStep, real) -> real {
    (s, v) => MathOp(lib, s, v)
  }

  function VectorMath(lib: Lib): (MathStep, real) -> real {
    (s, v) => VectorMathOp(lib, s, v)
  }

  lemma {:induction false} ChainsAgree(lib: Lib, chain: seq<MathStep>, v: real)
    requires NoTrig(chain)
    ensures Chain(MatrixMath(lib), chain, v) == Chain(VectorMath(lib), chain, v)
  {
    if chain != [] {
      ChainsAgree(lib, chain[..|chain| - 1], v);
      assert !IsTrig(chain[|chain| - 1]);
    }
  }

  lemma {:induction false} ChainConcat(f: (MathStep, real) -> real, a: seq<MathStep>, b: seq<MathStep>, v: real)
    ensures Chain(f, a + b, v) == Chain(f, b, Chain(f, a, v))
  {
    if b == [] {
      assert a + b == a;
    } else {
      assert (a + b)[..|a + b| - 1] == a + b[..|b| - 1];
      ChainConcat(f, a, b[..|b| - 1], v);
    }
  }
}

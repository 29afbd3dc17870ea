/** How the calls of PromQL read: which argument is the vector, which are the numbers, and what
    a pointwise function does to a number. The translator has a reading of its own
    (translator/functions.go:241-311, translator/matrix_selector.go:40-78). */
module Calls {
  import opened Types
  import opened Plans
  import RangeFunctions
  import Reals
  import opened Translator

  // ---- Range functions ----

  /** A range function of a selector, with the numbers it takes. */
  datatype RangeReading = RangeReading(sel: Selector, rangeMs: int, first: real, second: real)

  predicate RangeAndNumber(args: seq<Expr>, range: nat, number: nat) {
    range < |args| && number < |args| && args[range].MatrixSelector? && args[number].NumberLiteral?
  }

  /** predict_linear(range, seconds), quantile_over_time(phi, range),
      double_exponential_smoothing(range, smoothing factor, trend factor); all others take
      the range alone. */
  function ReadRange(fn: string, args: seq<Expr>): Option<RangeReading> {
    if fn !in RangeFunctions.RANGE_FUNCTIONS then None
    else
      match fn
      case "quantile_over_time" =>
        if RangeAndNumber(args, 1, 0) then Some(RangeReading(args[1].sel, args[1].rangeMs, args[0].val, 0.0)) else None
      case "predict_linear" =>
        if RangeAndNumber(args, 0, 1) then Some(RangeReading(args[0].sel, args[0].rangeMs, args[1].val, 0.0)) else None
      case "double_exponential_smoothing" =>
        if RangeAndNumber(args, 0, 1) && RangeAndNumber(args, 0, 2) then
          Some(RangeReading(args[0].sel, args[0].rangeMs, args[1].val, args[2].val))
        else None
      case _ =>
        if |args| >= 1 && args[0].MatrixSelector? then Some(RangeReading(args[0].sel, args[0].rangeMs, 0.0, 0.0)) else None
  }

  lemma RangeReadingsAgree(fn: string, args: seq<Expr>)
    ensures RangeCallOf(fn, args)
         == match ReadRange(fn, args)
            case Some(r) => Some((MatrixSelector(r.sel, r.rangeMs), r.first, r.second))
            case None => None
  {
  }

  // ---- Pointwise functions ----

  predicate Takes(args: seq<Expr>, numbers: nat) {
    |args| > numbers && forall i :: 1 <= i <= numbers ==> args[i].NumberLiteral?
  }

  /** The function applies to the vector that the first argument means. */
  predicate IsPointwise(fn: string, args: seq<Expr>) {
    match fn
    case "clamp" => Takes(args, 2)
    case "clamp_min" => Takes(args, 1)
    case "clamp_max" => Takes(args, 1)
    case "round" => Takes(args, 0)
    case _ => fn in MATH_FUNCTIONS && Takes(args, 0)
  }

  /** The nearest whole number, the one away from zero if there are two. */
  function Nearest(v: real): real {
    if v >= 0.0 then (v + 0.5).Floor as real else -((0.5 - v).Floor as real)
  }

  function NearestMultiple(to: real, v: real): real {
    if to == 0.0 || to == 1.0 then Nearest(v) else Reals.Times(Nearest(v / to), to)
  }

  /** Within the bounds; the lower one prevails. */
  function Bounded(lo: real, hi: real, v: real): real {
    if hi < lo || v < lo then lo else if v > hi then hi else v
  }

  function PointwiseValue(lib: Lib, fn: string, args: seq<Expr>, v: real): real
    requires IsPointwise(fn, args)
  {
    match fn
    case "clamp" => Bounded(args[1].val, args[2].val, v)
    case "clamp_min" => if v < args[1].val then args[1].val else v
    case "clamp_max" => if v > args[1].val then args[1].val else v
    case "round" => NearestMultiple(if |args| > 1 && args[1].NumberLiteral? then args[1].val else 1.0, v)
    case "abs" => if v >= 0.0 then v else 0.0 - v
    case "ceil" => -((0.0 - v).Floor as real)
    case "floor" => v.Floor as real
    case "sgn" => if v == 0.0 then 0.0 else if v < 0.0 then -1.0 else 1.0
    case "sqrt" => lib.sqrt(v)
    case "sort" => v
    case "sort_desc" => v
    case "deg" => v * 180.0 / PI
    case "rad" => v * PI / 180.0
    case _ => lib.unary(fn, v)
  }

  lemma PointwiseReadingsAgree(fn: string, args: seq<Expr>)
    ensures MathStepOf(fn, args).Some? <==> IsPointwise(fn, args)
  {
  }

  lemma FloorIs(x: real, n: int)
    requires n as real <= x < (n + 1) as real
    ensures x.Floor == n
  {
    var m := x.Floor;
    assert m as real <= x < (m + 1) as real;
    assert (m - n) as real < 1.0 && (n - m) as real < 1.0;
  }

  lemma CeilingAgrees(v: real)
    ensures Ceil(v) == -((0.0 - v).Floor as real)
  {
    var n := v.Floor;
    if v == n as real {
      FloorIs(0.0 - v, -n);
    } else {
      FloorIs(0.0 - v, -n - 1);
    }
  }

  lemma RoundingAgrees(to: real, v: real)
    ensures Round(v) == Nearest(v)
  {
  }

  lemma BoundsAgree(lib: Lib, fn: string, args: seq<Expr>, v: real)
    requires IsPointwise(fn, args) && fn in {"clamp", "clamp_min", "clamp_max"}
    ensures MathStepOf(fn, args).Some?
    ensures VectorMathOp(lib, MathStepOf(fn, args).value, v) == PointwiseValue(lib, fn, args, v)
  {
    hide TrigOp;
    hide Round;
    hide Ceil;
    hide NearestMultiple;
    if fn == "clamp" {
      assert MathStepOf(fn, args).value == MathStep(fn, args[1].val, args[2].val);
    } else {
      assert MathStepOf(fn, args).value == MathStep(fn, args[1].val, 0.0);
    }
  }

  lemma RoundsAgree(lib: Lib, args: seq<Expr>, v: real)
    requires IsPointwise("round", args)
    ensures MathStepOf("round", args).Some?
    ensures VectorMathOp(lib, MathStepOf("round", args).value, v) == PointwiseValue(lib, "round", args, v)
  {
    var s := MathStepOf("round", args).value;
    RoundingAgrees(s.param, v);
    RoundingAgrees(s.param, if s.param != 0.0 then v / s.param else v);
    hide Nearest;
    hide Round;
    hide Ceil;
    hide TrigOp;
    hide Bounded;
    hide MATH_FUNCTIONS;
    hide TRIG;
    hide Reals.Times;
  }

  /** The functions without a parameter. */
  lemma PlainAgree(lib: Lib, fn: string, s: MathStep, v: real)
    requires fn in MATH_FUNCTIONS && s == MathStep(fn, 0.0, 0.0)
    ensures forall args | IsPointwise(fn, args) :: VectorMathOp(lib, s, v) == PointwiseValue(lib, fn, args, v)
  {
    CeilingAgrees(v);
    hide Ceil;
  }

  lemma PointwiseValuesAgree(lib: Lib, fn: string, args: seq<Expr>, v: real)
    requires IsPointwise(fn, args)
    ensures MathStepOf(fn, args).Some?
    ensures VectorMathOp(lib, MathStepOf(fn, args).value, v) == PointwiseValue(lib, fn, args, v)
  {
    if fn in {"clamp", "clamp_min", "clamp_max"} {
      BoundsAgree(lib, fn, args, v);
    } else if fn == "round" {
      RoundsAgree(lib, args, v);
    } else {
      PointwiseReadingsAgree(fn, args);
      assert fn in MATH_FUNCTIONS && MathStepOf(fn, args).value == MathStep(fn, 0.0, 0.0);
      hide VectorMathOp;
      hide PointwiseValue;
      hide MathStepOf;
      PlainAgree(lib, fn, MathStep(fn, 0.0, 0.0), v);
    }
  }
}

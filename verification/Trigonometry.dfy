/** Range queries drop trigonometric functions, deg and rad (eval/evaluator.go:920-959 has no
    case for them, 1186-1262 has): for which chains of pointwise functions that makes no
    difference. */
module Trigonometry {
  import opened Types
  import opened Reals
  import opened Plans
  import opened Pointwise

  // ---- What is known of the functions ----

  /** Undefined for some numbers. */
  const PARTIAL: set<string> := {"asin", "acos", "acosh", "atanh"}

  const SIGN_KEEPING: set<string> := {"sinh", "tanh", "asinh", "atan", "deg", "rad"}

  /** Sine and tangent give negative numbers and zero for some positive ones. */
  const SWINGING: set<string> := {"sin", "tan"}

  /** Cosine and hyperbolic cosine are positive at zero and for some negative number. */
  const EVEN: set<string> := {"cos", "cosh"}

  function Sgn(v: real): real {
    if v > 0.0 then 1.0 else if v < 0.0 then -1.0 else 0.0
  }

  ghost predicate KeepsSign(lib: Lib, fn: string) {
    forall x :: Sgn(TrigOp(lib, fn, x)) == Sgn(x)
  }

  /** Some number of the open interval changes its absolute value. */
  ghost predicate MovesWithin(lib: Lib, fn: string, lo: real, hi: real) {
    exists x :: lo < x < hi && Abs(TrigOp(lib, fn, x)) != Abs(x)
  }

  ghost predicate Restless(lib: Lib, fn: string) {
    forall lo, hi :: lo < hi ==> MovesWithin(lib, fn, lo, hi)
  }

  /** Some number of sign `a` has an image of sign `b`. */
  ghost predicate Turns(lib: Lib, fn: string, a: real, b: real) {
    exists x :: Sgn(x) == a && Sgn(TrigOp(lib, fn, x)) == b
  }

  /** Facts that hold of the real functions. */
  ghost predicate TrigLib(lib: Lib) {
    && (forall fn :: fn in SIGN_KEEPING + SWINGING + EVEN ==> Restless(lib, fn))
    && (forall fn :: fn in SIGN_KEEPING ==> KeepsSign(lib, fn))
    && (forall fn :: fn in SWINGING ==> Turns(lib, fn, 1.0, -1.0) && Turns(lib, fn, 1.0, 0.0))
    && (forall fn :: fn in EVEN ==> Turns(lib, fn, 0.0, 1.0) && Turns(lib, fn, -1.0, 1.0))
    && (forall fn :: fn in PARTIAL ==> exists x :: TrigOp(lib, fn, x) != x)
  }

  /** What the facts say of deg and rad is true of them. */
  lemma DegreesAndRadians(lib: Lib)
    ensures forall fn :: fn in {"deg", "rad"} ==> Restless(lib, fn) && KeepsSign(lib, fn)
  {
    forall fn, lo, hi | fn in {"deg", "rad"} && lo < hi ensures MovesWithin(lib, fn, lo, hi) {
      var x := if (lo + hi) / 2.0 != 0.0 then (lo + hi) / 2.0 else hi / 2.0;
      assert lo < x < hi && Abs(TrigOp(lib, fn, x)) != Abs(x);
    }
  }

  function Factual(fn: string, x: real): real {
    if fn in EVEN then 3.0 * Abs(x) + 1.0
    else if fn in SWINGING then if x == 1.0 then 0.0 else -3.0 * x
    else if fn in SIGN_KEEPING then 3.0 * x
    else x + 2.0
  }

  /** A library with all the facts. */
  const FACTUAL: Lib := Lib(x => x, (fn, x) => Factual(fn, x), (fn, x, y) => x, -1.0, 2.0)

  lemma FactualOp(fn: string)
    requires fn != "deg" && fn != "rad"
    ensures forall x :: TrigOp(FACTUAL, fn, x) == Factual(fn, x)
  {
  }

  lemma FactualIsRestless(fn: string)
    requires fn in SIGN_KEEPING + SWINGING + EVEN && fn != "deg" && fn != "rad"
    ensures Restless(FACTUAL, fn)
  {
    FactualOp(fn);
    hide TrigOp;
    forall lo: real, hi: real | lo < hi ensures MovesWithin(FACTUAL, fn, lo, hi) {
      var a := (lo + hi) / 2.0;
      var b := if a != 0.0 && a != 1.0 then a else (a + hi) / 2.0;
      var x := if b != 0.0 && b != 1.0 then b else (b + hi) / 2.0;
      assert lo < x < hi && Abs(TrigOp(FACTUAL, fn, x)) != Abs(x);
    }
  }

  lemma FactualTurns(fn: string, x: real)
    requires fn != "deg" && fn != "rad"
    ensures Turns(FACTUAL, fn, Sgn(x), Sgn(Factual(fn, x)))
  {
    FactualOp(fn);
    hide TrigOp;
    assert Sgn(TrigOp(FACTUAL, fn, x)) == Sgn(Factual(fn, x));
  }

  lemma FactualSwings(fn: string)
    requires fn in SWINGING
    ensures Turns(FACTUAL, fn, 1.0, -1.0) && Turns(FACTUAL, fn, 1.0, 0.0)
  {
    FactualTurns(fn, 2.0);
    FactualTurns(fn, 1.0);
    hide Turns;
  }

  lemma FactualIsEven(fn: string)
    requires fn in EVEN
    ensures Turns(FACTUAL, fn, 0.0, 1.0) && Turns(FACTUAL, fn, -1.0, 1.0)
  {
    FactualTurns(fn, 0.0);
    FactualTurns(fn, -1.0);
    hide Turns;
  }

  lemma FactualKeepsSign(fn: string)
    requires fn in SIGN_KEEPING && fn != "deg" && fn != "rad"
    ensures KeepsSign(FACTUAL, fn)
  {
    FactualOp(fn);
    hide TrigOp;
  }

  lemma FactualMoves(fn: string)
    requires fn in PARTIAL
    ensures TrigOp(FACTUAL, fn, 0.0) != 0.0
  {
    FactualOp(fn);
    hide TrigOp;
  }

  lemma FactualIsRegular()
    ensures RegularLib(FACTUAL)
  {
    forall fn | fn in TRANSCENDENTAL ensures StrictlyIncreasing(x => FACTUAL.unary(fn, x)) {
      forall x ensures FACTUAL.unary(fn, x) == x + 2.0 {
      }
      forall x, y | x < y ensures FACTUAL.unary(fn, x) < FACTUAL.unary(fn, y) {
      }
    }
  }

  lemma FactsAgree()
    ensures TrigLib(FACTUAL) && RegularLib(FACTUAL)
  {
    FactualIsRegular();
    DegreesAndRadians(FACTUAL);
    hide Restless;
    hide KeepsSign;
    hide Turns;
    hide TrigOp;
    hide FACTUAL;
    hide RegularLib;
    forall fn | fn in SIGN_KEEPING + SWINGING + EVEN ensures Restless(FACTUAL, fn) {
      if fn != "deg" && fn != "rad" {
        FactualIsRestless(fn);
      }
    }
    forall fn | fn in SIGN_KEEPING ensures KeepsSign(FACTUAL, fn) {
      if fn != "deg" && fn != "rad" {
        FactualKeepsSign(fn);
      }
    }
    forall fn | fn in SWINGING ensures Turns(FACTUAL, fn, 1.0, -1.0) && Turns(FACTUAL, fn, 1.0, 0.0) {
      FactualSwings(fn);
    }
    forall fn | fn in EVEN ensures Turns(FACTUAL, fn, 0.0, 1.0) && Turns(FACTUAL, fn, -1.0, 1.0) {
      FactualIsEven(fn);
    }
    forall fn | fn in PARTIAL ensures exists x :: TrigOp(FACTUAL, fn, x) != x {
      FactualMoves(fn);
    }
  }

  // ---- One step ----

  /** The two evaluators agree on a step, for all values, exactly when it is not
      trigonometric: range queries silently drop those steps. */
  lemma MathOpsAgree(lib: Lib, s: MathStep)
    requires TrigLib(lib)
    ensures (forall v :: MathOp(lib, s, v) == VectorMathOp(lib, s, v)) <==> s.fn !in TRIG
  {
    if s.fn in TRIG {
      forall v ensures MathOp(lib, s, v) == v && VectorMathOp(lib, s, v) == TrigOp(lib, s.fn, v) {
      }
      if s.fn in PARTIAL {
        var x :| TrigOp(lib, s.fn, x) != x;
      } else {
        assert MovesWithin(lib, s.fn, 0.0, 1.0);
        var x :| 0.0 < x < 1.0 && Abs(TrigOp(lib, s.fn, x)) != Abs(x);
      }
    }
  }

  lemma SameStep(lib: Lib, s: MathStep, v: real)
    requires !IsTrig(s)
    ensures MathOp(lib, s, v) == VectorMathOp(lib, s, v)
         == match KindOf(s) { case Some(k) => ApplyKind(lib, k, v) case None => v }
  {
    if KindOf(s).Some? {
      KindMeaning(lib, s, v);
    }
  }

  // ---- What the two evaluations of a chain have to do with one another ----

  /** Undefined: one of them may not be a number. */
  datatype Bond = Equal | SameSign | Unknown | Undefined

  /** The bond of the two values, and bounds of both. */
  datatype State = State(bond: Bond, lo: Option<real>, hi: Option<real>)

  function LowerAfter(k: Kind, lo: Option<real>, hi: Option<real>): Option<real> {
    match k
    case Identity => lo
    case Absolute =>
      if lo.Some? && lo.value >= 0.0 then lo
      else if hi.Some? && hi.value <= 0.0 then Some(-hi.value)
      else Some(0.0)
    case Sign => Some(if lo.Some? then Sgn(lo.value) else -1.0)
    case AtLeast(p) => Some(if lo.Some? then MathMax(p, lo.value) else p)
    case AtMost(p) => if lo.Some? then Some(MathMin(p, lo.value)) else None
    case Between(a, b) => Some(if lo.Some? then MathMax(a, MathMin(b, lo.value)) else a)
    case Ceiling => if lo.Some? then Some(Ceil(lo.value)) else None
    case Flooring => if lo.Some? then Some(lo.value.Floor as real) else None
    case Rounding(p) => if lo.Some? then Some(RoundTo(p, lo.value)) else None
    case Root | Library(_) => None
  }

  function UpperAfter(k: Kind, lo: Option<real>, hi: Option<real>): Option<real> {
    match k
    case Identity => hi
    case Absolute =>
      if lo.Some? && lo.value >= 0.0 then hi
      else if hi.Some? && hi.value <= 0.0 then if lo.Some? then Some(-lo.value) else None
      else if lo.Some? && hi.Some? then Some(MathMax(-lo.value, hi.value))
      else None
    case Sign => Some(if hi.Some? then Sgn(hi.value) else 1.0)
    case AtLeast(p) => if hi.Some? then Some(MathMax(p, hi.value)) else None
    case AtMost(p) => Some(if hi.Some? then MathMin(p, hi.value) else p)
    case Between(a, b) => Some(MathMax(a, if hi.Some? then MathMin(b, hi.value) else b))
    case Ceiling => if hi.Some? then Some(Ceil(hi.value)) else None
    case Flooring => if hi.Some? then Some(hi.value.Floor as real) else None
    case Rounding(p) => if hi.Some? then Some(RoundTo(p, hi.value)) else None
    case Root | Library(_) => None
  }

  predicate Degenerate(lo: Option<real>, hi: Option<real>) {
    lo.Some? && lo == hi
  }

  /** Roots and logarithms of negative numbers are not numbers. */
  predicate MayFail(k: Kind) {
    k.Root? || (k.Library? && k.fn != "exp")
  }

  predicate SignBySign(k: Kind) {
    k.Identity? || k.Absolute? || k.Sign? || k.AtLeast? || k.AtMost? || k.Between? || k.Root?
  }

  function BondAfter(bond: Bond, k: Kind, degenerate: bool): Bond {
    match bond
    case Equal => Equal
    case Undefined => Undefined
    case SameSign =>
      if k.Sign? || degenerate then Equal else if SignBySign(k) then SameSign else Unknown
    case Unknown => if degenerate then Equal else if MayFail(k) then Undefined else Unknown
  }

  function AfterTrig(bond: Bond, fn: string): Bond {
    if bond.Undefined? || fn in PARTIAL then Undefined
    else if fn in SIGN_KEEPING && !bond.Unknown? then SameSign
    else Unknown
  }

  function After(st: State, s: MathStep): State {
    if IsTrig(s) then State(AfterTrig(st.bond, s.fn), None, None)
    else
      match KindOf(s)
      case None => st
      case Some(k) =>
        var lo, hi := LowerAfter(k, st.lo, st.hi), UpperAfter(k, st.lo, st.hi);
        State(BondAfter(st.bond, k, Degenerate(lo, hi)), lo, hi)
  }

  const START: State := State(Equal, None, None)

  function StateOf(chain: seq<MathStep>): State {
    if chain == [] then START else After(StateOf(chain[..|chain| - 1]), chain[|chain| - 1])
  }

  /** Whatever trigonometric functions the chain has, they make no difference. */
  predicate Harmless(chain: seq<MathStep>) {
    StateOf(chain).bond == Equal
  }

  predicate Within(lo: Option<real>, hi: Option<real>, v: real) {
    (lo.Some? ==> lo.value <= v) && (hi.Some? ==> v <= hi.value)
  }

  /** `m` of the matrix and `v` of the vector are as the state says. */
  predicate Related(st: State, m: real, v: real) {
    && (st.bond.Equal? ==> m == v)
    && (st.bond.SameSign? ==> Sgn(m) == Sgn(v))
    && Within(st.lo, st.hi, m) && Within(st.lo, st.hi, v)
  }

  lemma KindWithin(lib: Lib, k: Kind, lo: Option<real>, hi: Option<real>, v: real)
    requires RegularLib(lib) && Within(lo, hi, v) && (k.Library? ==> k.fn in TRANSCENDENTAL)
    ensures Within(LowerAfter(k, lo, hi), UpperAfter(k, lo, hi), ApplyKind(lib, k, v))
  {
    if lo.Some? && Monotone(k) {
      MonotoneMeaning(lib, k, lo.value, v);
    }
    if hi.Some? && Monotone(k) {
      MonotoneMeaning(lib, k, v, hi.value);
    }
  }

  lemma KindKeepsSigns(lib: Lib, k: Kind, m: real, v: real)
    requires RegularLib(lib) && SignBySign(k) && Sgn(m) == Sgn(v)
    ensures Sgn(ApplyKind(lib, k, m)) == Sgn(ApplyKind(lib, k, v))
  {
    if k.Root? {
      assert forall x, y :: x < y ==> lib.sqrt(x) < lib.sqrt(y);
      assert lib.sqrt(0.0) == 0.0;
    }
  }

  lemma TrigRelated(lib: Lib, st: State, s: MathStep, m: real, v: real)
    requires TrigLib(lib) && Related(st, m, v) && IsTrig(s)
    ensures Related(After(st, s), MathOp(lib, s, m), VectorMathOp(lib, s, v))
  {
    assert MathOp(lib, s, m) == m && VectorMathOp(lib, s, v) == TrigOp(lib, s.fn, v);
    if s.fn in SIGN_KEEPING {
      assert KeepsSign(lib, s.fn);
    }
    hide MathOp;
    hide VectorMathOp;
    hide TrigOp;
  }

  lemma KindRelated(lib: Lib, st: State, k: Kind, m: real, v: real)
    requires RegularLib(lib) && Related(st, m, v) && (k.Library? ==> k.fn in TRANSCENDENTAL)
    ensures var lo, hi := LowerAfter(k, st.lo, st.hi), UpperAfter(k, st.lo, st.hi);
            Related(State(BondAfter(st.bond, k, Degenerate(lo, hi)), lo, hi), ApplyKind(lib, k, m), ApplyKind(lib, k, v))
  {
    KindWithin(lib, k, st.lo, st.hi, m);
    KindWithin(lib, k, st.lo, st.hi, v);
    if st.bond.SameSign? && SignBySign(k) {
      KindKeepsSigns(lib, k, m, v);
    }
    assert k.Sign? ==> ApplyKind(lib, k, m) == Sgn(m) && ApplyKind(lib, k, v) == Sgn(v);
    hide LowerAfter;
    hide UpperAfter;
    hide RegularLib;
    hide ApplyKind;
  }

  lemma StepRelated(lib: Lib, st: State, s: MathStep, m: real, v: real)
    requires RegularLib(lib) && TrigLib(lib) && Related(st, m, v)
    ensures Related(After(st, s), MathOp(lib, s, m), VectorMathOp(lib, s, v))
  {
    hide TrigLib;
    hide RegularLib;
    if IsTrig(s) {
      TrigRelated(lib, st, s, m, v);
    } else {
      SameStep(lib, s, m);
      SameStep(lib, s, v);
      if KindOf(s).Some? {
        assert KindOf(s).value.Library? ==> KindOf(s).value.fn in TRANSCENDENTAL;
        KindRelated(lib, st, KindOf(s).value, m, v);
      }
      hide MathOp;
      hide VectorMathOp;
      hide KindOf;
      hide Related;
    }
  }

  lemma {:induction false} ChainRelated(lib: Lib, chain: seq<MathStep>, v: real)
    requires RegularLib(lib) && TrigLib(lib)
    ensures Related(StateOf(chain), Chain(MatrixMath(lib), chain, v), Chain(VectorMath(lib), chain, v))
  {
    if chain != [] {
      var front, s := chain[..|chain| - 1], chain[|chain| - 1];
      ChainRelated(lib, front, v);
      hide RegularLib;
      hide TrigLib;
      hide Related;
      hide After;
      StepRelated(lib, StateOf(front), s, Chain(MatrixMath(lib), front, v), Chain(VectorMath(lib), front, v));
    }
  }

  /** The library does what is assumed of it, as far as the chain needs that, and range and
      instant evaluation of the chain agree. */
  ghost predicate SafeChain(lib: Lib, chain: seq<MathStep>) {
    NoTrig(chain) || (RegularLib(lib) && TrigLib(lib) && Harmless(chain))
  }

  lemma SafeChainsAgree(lib: Lib, chain: seq<MathStep>, v: real)
    requires SafeChain(lib, chain)
    ensures Chain(MatrixMath(lib), chain, v) == Chain(VectorMath(lib), chain, v)
  {
    if NoTrig(chain) {
      ChainsAgree(lib, chain, v);
    } else {
      ChainRelated(lib, chain, v);
    }
  }
}

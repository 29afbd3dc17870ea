/** The condition under which a dropped trigonometric step makes no difference is exact for
    a step that is defined everywhere, followed by steps without rounding, roots, logarithms
    and powers. */
module TrigonometryLimits {
  import opened Types
  import opened Reals
  import opened Plans
  import opened Pointwise
  import opened Trigonometry

  /** Sorting, absolute value, sign and clamping. */
  predicate IsPlain(k: Kind) {
    k.Identity? || k.Absolute? || k.Sign? || k.AtLeast? || k.AtMost? || k.Between?
  }

  predicate PlainTail(tail: seq<MathStep>) {
    forall s :: s in tail ==> !IsTrig(s) && KindOf(s).Some? && IsPlain(KindOf(s).value)
  }

  function Act(k: Kind, v: real): real {
    match k
    case Absolute => Abs(v)
    case Sign => Sgn(v)
    case AtLeast(p) => MathMax(p, v)
    case AtMost(p) => MathMin(p, v)
    case Between(lo, hi) => MathMax(lo, MathMin(hi, v))
    case _ => v
  }

  /** The kinds of the steps. */
  function Kinds(tail: seq<MathStep>): (ks: seq<Kind>)
    requires PlainTail(tail)
    ensures |ks| == |tail| && AllPlain(ks)
  {
    if tail == [] then []
    else
      var s := tail[|tail| - 1];
      assert s in tail;
      Kinds(tail[..|tail| - 1]) + [KindOf(s).value]
  }

  // ---- Sequences of plain functions ----

  predicate AllPlain(ks: seq<Kind>) {
    forall k :: k in ks ==> IsPlain(k)
  }

  function Run(ks: seq<Kind>, v: real): real {
    if ks == [] then v else Act(ks[|ks| - 1], Run(ks[..|ks| - 1], v))
  }

  /** Bounds of all results. */
  function Bounds(ks: seq<Kind>): (Option<real>, Option<real>) {
    if ks == [] then (None, None)
    else
      var b := Bounds(ks[..|ks| - 1]);
      (LowerAfter(ks[|ks| - 1], b.0, b.1), UpperAfter(ks[|ks| - 1], b.0, b.1))
  }

  ghost predicate Below(ks: seq<Kind>, c: real) { exists x :: Run(ks, x) <= c }

  ghost predicate Above(ks: seq<Kind>, c: real) { exists x :: Run(ks, x) >= c }

  /** `y` is a result of the functions. */
  ghost predicate Result(ks: seq<Kind>, y: real) { exists x :: Run(ks, x) == y }

  /** The bounds are met, and zero is among the results if it lies between them. */
  ghost predicate Tight(ks: seq<Kind>) {
    var (lo, hi) := Bounds(ks);
    && (forall c :: (lo.Some? ==> lo.value <= c) ==> Below(ks, c))
    && (forall c :: (hi.Some? ==> c <= hi.value) ==> Above(ks, c))
    && (forall x :: Within(lo, hi, Run(ks, x)))
    && (Within(lo, hi, 0.0) ==> Result(ks, 0.0))
  }

  lemma {:induction false} BoundsAreTight(ks: seq<Kind>)
    requires AllPlain(ks)
    ensures Tight(ks)
  {
    if ks == [] {
      forall c ensures Below(ks, c) && Above(ks, c) {
        assert Run(ks, c) == c;
      }
      assert Run(ks, 0.0) == 0.0;
    } else {
      var front, k := ks[..|ks| - 1], ks[|ks| - 1];
      BoundsAreTight(front);
      StepIsTight(front, k);
      assert front + [k] == ks;
    }
  }

  lemma ActWithin(k: Kind, lo: Option<real>, hi: Option<real>, v: real)
    requires IsPlain(k) && Within(lo, hi, v)
    ensures Within(LowerAfter(k, lo, hi), UpperAfter(k, lo, hi), Act(k, v))
  {
  }

  lemma RunSnoc(ks: seq<Kind>, k: Kind)
    ensures forall x :: Run(ks + [k], x) == Act(k, Run(ks, x))
    ensures Bounds(ks + [k]) == (LowerAfter(k, Bounds(ks).0, Bounds(ks).1), UpperAfter(k, Bounds(ks).0, Bounds(ks).1))
  {
    assert (ks + [k])[..|ks|] == ks;
  }

  lemma ResultSnoc(ks: seq<Kind>, k: Kind, y: real)
    requires Result(ks, y)
    ensures Result(ks + [k], Act(k, y))
  {
    RunSnoc(ks, k);
    var x :| Run(ks, x) == y;
    assert Run(ks + [k], x) == Act(k, y);
  }

  lemma SomeBelow(ks: seq<Kind>, c: real) returns (y: real)
    requires Below(ks, c)
    ensures Result(ks, y) && y <= c
  {
    var x :| Run(ks, x) <= c;
    y := Run(ks, x);
  }

  lemma SomeAbove(ks: seq<Kind>, c: real) returns (y: real)
    requires Above(ks, c)
    ensures Result(ks, y) && y >= c
  {
    var x :| Run(ks, x) >= c;
    y := Run(ks, x);
  }

  lemma ResultBounded(ks: seq<Kind>, y: real)
    requires Tight(ks) && Result(ks, y)
    ensures Within(Bounds(ks).0, Bounds(ks).1, y)
    ensures forall c :: y <= c ==> Below(ks, c)
    ensures forall c :: y >= c ==> Above(ks, c)
  {
    hide Run;
    hide Bounds;
    var x :| Run(ks, x) == y;
    assert Within(Bounds(ks).0, Bounds(ks).1, Run(ks, x));
  }

  /** A result as low as the bounds allow. */
  lemma LowResult(ks: seq<Kind>, c: real) returns (y: real)
    requires Tight(ks) && (Bounds(ks).0.Some? ==> Bounds(ks).0.value <= c)
    ensures Result(ks, y) && y <= c && Within(Bounds(ks).0, Bounds(ks).1, y)
  {
    assert Below(ks, c);
    y := SomeBelow(ks, c);
    ResultBounded(ks, y);
  }

  lemma HighResult(ks: seq<Kind>, c: real) returns (y: real)
    requires Tight(ks) && (Bounds(ks).1.Some? ==> c <= Bounds(ks).1.value)
    ensures Result(ks, y) && y >= c && Within(Bounds(ks).0, Bounds(ks).1, y)
  {
    assert Above(ks, c);
    y := SomeAbove(ks, c);
    ResultBounded(ks, y);
  }

  lemma BelowAfter(ks: seq<Kind>, k: Kind, c: real) returns (y: real)
    requires Tight(ks) && IsPlain(k)
    requires var lo := LowerAfter(k, Bounds(ks).0, Bounds(ks).1); lo.Some? ==> lo.value <= c
    ensures Result(ks, y) && Act(k, y) <= c
  {
    var (lo, hi) := Bounds(ks);
    hide Tight;
    hide Bounds;
    hide Result;
    if k.Absolute? && !(lo.Some? && lo.value >= 0.0) {
      if hi.Some? && hi.value <= 0.0 {
        y := HighResult(ks, hi.value);
      } else {
        y := ZeroResult(ks);
      }
    } else if lo.Some? {
      y := LowResult(ks, lo.value);
    } else {
      y := LowResult(ks, if c < 0.0 then c else -1.0);
      if k.AtLeast? {
        y := LowResult(ks, k.p);
      } else if k.Between? {
        y := LowResult(ks, MathMin(k.lo, k.hi));
      }
    }
  }

  lemma ZeroResult(ks: seq<Kind>) returns (y: real)
    requires Tight(ks) && Within(Bounds(ks).0, Bounds(ks).1, 0.0)
    ensures Result(ks, y) && y == 0.0
  {
    y := 0.0;
  }

  lemma AboveAfter(ks: seq<Kind>, k: Kind, c: real) returns (y: real)
    requires Tight(ks) && IsPlain(k)
    requires var hi := UpperAfter(k, Bounds(ks).0, Bounds(ks).1); hi.Some? ==> c <= hi.value
    ensures Result(ks, y) && Act(k, y) >= c
  {
    var (lo, hi) := Bounds(ks);
    y := SomeResult(ks);
    ResultBounded(ks, y);
    hide Tight;
    hide Bounds;
    hide Result;
    if k.Absolute? && !(lo.Some? && lo.value >= 0.0) {
      if lo.None? || (hi.Some? && (hi.value <= 0.0 || -lo.value >= hi.value)) {
        y := LowResult(ks, if lo.Some? then lo.value else if c < 0.0 then 0.0 - 1.0 else -c);
      } else {
        y := HighResult(ks, if hi.Some? then hi.value else c);
      }
    } else if hi.Some? {
      y := HighResult(ks, hi.value);
    } else {
      y := HighResult(ks, if c > 0.0 then c else 1.0);
      if k.AtMost? {
        y := HighResult(ks, k.p);
      } else if k.Between? {
        y := HighResult(ks, MathMax(k.lo, k.hi));
      }
    }
  }

  lemma SomeResult(ks: seq<Kind>) returns (y: real)
    ensures Result(ks, y)
  {
    y := Run(ks, 0.0);
  }

  lemma ZeroAfter(ks: seq<Kind>, k: Kind) returns (y: real)
    requires Tight(ks) && IsPlain(k)
    requires Within(LowerAfter(k, Bounds(ks).0, Bounds(ks).1), UpperAfter(k, Bounds(ks).0, Bounds(ks).1), 0.0)
    ensures Result(ks, y) && Act(k, y) == 0.0
  {
    var (lo, hi) := Bounds(ks);
    y := SomeResult(ks);
    ResultBounded(ks, y);
    hide Tight;
    hide Bounds;
    hide Result;
    if Within(lo, hi, 0.0) && Act(k, 0.0) == 0.0 {
      y := ZeroResult(ks);
    } else if k.AtLeast? || (k.Between? && k.lo == 0.0) {
      y := LowResult(ks, if lo.Some? then lo.value else 0.0);
    } else {
      y := HighResult(ks, if hi.Some? then hi.value else 0.0);
    }
  }

  lemma StepIsTight(front: seq<Kind>, k: Kind)
    requires Tight(front) && IsPlain(k)
    ensures Tight(front + [k])
  {
    var ks := front + [k];
    RunSnoc(front, k);
    var (lo, hi) := Bounds(ks);
    forall c | lo.Some? ==> lo.value <= c ensures Below(ks, c) {
      var y := BelowAfter(front, k, c);
      ResultSnoc(front, k, y);
    }
    forall c | hi.Some? ==> c <= hi.value ensures Above(ks, c) {
      var y := AboveAfter(front, k, c);
      ResultSnoc(front, k, y);
    }
    forall x ensures Within(lo, hi, Run(ks, x)) {
      ActWithin(k, Bounds(front).0, Bounds(front).1, Run(front, x));
    }
    if Within(lo, hi, 0.0) {
      var y := ZeroAfter(front, k);
      ResultSnoc(front, k, y);
    }
  }

  lemma BoundsMeet(ks: seq<Kind>)
    requires AllPlain(ks) && !Degenerate(Bounds(ks).0, Bounds(ks).1)
    ensures exists u, w :: u < w && Within(Bounds(ks).0, Bounds(ks).1, u) && Within(Bounds(ks).0, Bounds(ks).1, w)
  {
    var (lo, hi) := Bounds(ks);
    BoundsAreTight(ks);
    var y := SomeResult(ks);
    ResultBounded(ks, y);
    var u := if lo.Some? then lo.value else if hi.Some? then hi.value - 1.0 else 0.0;
    var w := if hi.Some? then hi.value else u + 1.0;
    assert u < w && Within(lo, hi, u) && Within(lo, hi, w);
  }

  /** With room between the bounds there are two results. */
  lemma NotConstant(ks: seq<Kind>, c: real)
    requires AllPlain(ks) && forall x :: Run(ks, x) == c
    ensures Degenerate(Bounds(ks).0, Bounds(ks).1)
  {
    if !Degenerate(Bounds(ks).0, Bounds(ks).1) {
      BoundsMeet(ks);
      BoundsAreTight(ks);
      var u, w :| u < w && Within(Bounds(ks).0, Bounds(ks).1, u) && Within(Bounds(ks).0, Bounds(ks).1, w);
      var y := LowResult(ks, u);
      var z := HighResult(ks, w);
      hide Run;
    }
  }

  // ---- Without the sign function ----

  predicate NoSign(ks: seq<Kind>) {
    forall k :: k in ks ==> !k.Sign?
  }

  /** A number between the bounds after a step is, or is the opposite of, one between the
      bounds before it, and the step hardly touches it. */
  lemma Untouched(k: Kind, lo: Option<real>, hi: Option<real>, u: real, w: real)
    requires IsPlain(k) && !k.Sign? && u < w
    requires Within(LowerAfter(k, lo, hi), UpperAfter(k, lo, hi), u) && Within(LowerAfter(k, lo, hi), UpperAfter(k, lo, hi), w)
    ensures || (Within(lo, hi, u) && Within(lo, hi, w) && forall y :: u < y < w ==> Act(k, y) == y)
            || (Within(lo, hi, -w) && Within(lo, hi, -u) && forall y :: -w < y < -u ==> Act(k, y) == -y)
  {
  }

  /** Anywhere between the bounds the functions leave the absolute values of some interval
      alone. */
  lemma {:induction false} Trace(ks: seq<Kind>, u: real, w: real) returns (a: real, b: real)
    requires AllPlain(ks) && NoSign(ks) && u < w
    requires Within(Bounds(ks).0, Bounds(ks).1, u) && Within(Bounds(ks).0, Bounds(ks).1, w)
    ensures a < b && forall x :: a < x < b ==> u < Run(ks, x) < w && Abs(Run(ks, x)) == Abs(x)
  {
    if ks == [] {
      a, b := u, w;
    } else {
      var front, k := ks[..|ks| - 1], ks[|ks| - 1];
      assert k in ks && forall j :: j in front ==> j in ks;
      var (lo, hi) := Bounds(front);
      Untouched(k, lo, hi, u, w);
      if Within(lo, hi, u) && Within(lo, hi, w) && forall y :: u < y < w ==> Act(k, y) == y {
        a, b := Trace(front, u, w);
      } else {
        a, b := Trace(front, -w, -u);
      }
      hide Act;
      hide LowerAfter;
      hide UpperAfter;
    }
  }

  function Params(ks: seq<Kind>): seq<real> {
    if ks == [] then []
    else
      Params(ks[..|ks| - 1]) +
      match ks[|ks| - 1]
      case AtLeast(p) => [p]
      case AtMost(p) => [p]
      case Between(lo, hi) => [lo, hi]
      case _ => []
  }

  ghost predicate IsParam(ks: seq<Kind>, y: real) {
    exists p :: p in Params(ks) && Abs(p) == Abs(y)
  }

  lemma {:induction false} KeptOrParam(ks: seq<Kind>, x: real)
    requires AllPlain(ks) && NoSign(ks)
    ensures Abs(Run(ks, x)) == Abs(x) || IsParam(ks, Run(ks, x))
  {
    if ks != [] {
      var front, k := ks[..|ks| - 1], ks[|ks| - 1];
      assert k in ks && forall j :: j in front ==> j in ks;
      KeptOrParam(front, x);
      var y := Run(front, x);
      assert forall p :: p in Params(front) ==> p in Params(ks);
      match k
      case AtLeast(p) => assert p in Params(ks);
      case AtMost(p) => assert p in Params(ks);
      case Between(lo, hi) => assert lo in Params(ks) && hi in Params(ks);
      case _ =>
    }
  }

  /** Part of an interval that holds none of the numbers, nor their opposites. */
  lemma {:induction false} Avoid(ps: seq<real>, a: real, b: real) returns (a': real, b': real)
    requires a < b
    ensures a <= a' < b' <= b && forall x, p :: a' < x < b' && p in ps ==> Abs(x) != Abs(p)
  {
    if ps == [] {
      a', b' := a, b;
    } else {
      var p := ps[|ps| - 1];
      a', b' := Avoid(ps[..|ps| - 1], a, b);
      if a' < p < b' {
        b' := p;
      }
      if a' < -p < b' {
        b' := -p;
      }
      assert forall q :: q in ps ==> q == p || q in ps[..|ps| - 1];
    }
  }

  lemma RestlessTells(lib: Lib, fn: string, ks: seq<Kind>)
    requires Restless(lib, fn) && AllPlain(ks) && NoSign(ks)
    requires forall x :: Run(ks, TrigOp(lib, fn, x)) == Run(ks, x)
    ensures Degenerate(Bounds(ks).0, Bounds(ks).1)
  {
    if !Degenerate(Bounds(ks).0, Bounds(ks).1) {
      BoundsMeet(ks);
      var u, w :| u < w && Within(Bounds(ks).0, Bounds(ks).1, u) && Within(Bounds(ks).0, Bounds(ks).1, w);
      var a, b := Trace(ks, u, w);
      a, b := Avoid(Params(ks), a, b);
      assert MovesWithin(lib, fn, a, b);
      var x :| a < x < b && Abs(TrigOp(lib, fn, x)) != Abs(x);
      KeptOrParam(ks, TrigOp(lib, fn, x));
    }
  }

  // ---- With the sign function ----

  lemma {:induction false} SameSignsAlike(ks: seq<Kind>, x: real, y: real)
    requires AllPlain(ks) && Sgn(x) == Sgn(y)
    ensures Sgn(Run(ks, x)) == Sgn(Run(ks, y))
    ensures !NoSign(ks) ==> Run(ks, x) == Run(ks, y)
  {
    if ks != [] {
      var front, k := ks[..|ks| - 1], ks[|ks| - 1];
      assert ks == front + [k];
      SameSignsAlike(front, x, y);
    }
  }

  lemma TurnTells(lib: Lib, fn: string, ks: seq<Kind>, a: real, b: real)
    requires Turns(lib, fn, a, b) && AllPlain(ks) && !NoSign(ks) && a == Sgn(a) && b == Sgn(b)
    requires forall x :: Run(ks, TrigOp(lib, fn, x)) == Run(ks, x)
    ensures Run(ks, a) == Run(ks, b)
  {
    var x :| Sgn(x) == a && Sgn(TrigOp(lib, fn, x)) == b;
    SameSignsAlike(ks, x, a);
    SameSignsAlike(ks, TrigOp(lib, fn, x), b);
    assert Run(ks, TrigOp(lib, fn, x)) == Run(ks, x);
  }

  lemma TurnsTell(lib: Lib, fn: string, ks: seq<Kind>)
    requires TrigLib(lib) && fn in SWINGING + EVEN && AllPlain(ks) && !NoSign(ks)
    requires forall x :: Run(ks, TrigOp(lib, fn, x)) == Run(ks, x)
    ensures Degenerate(Bounds(ks).0, Bounds(ks).1)
  {
    if fn in SWINGING {
      TurnTells(lib, fn, ks, 1.0, -1.0);
      TurnTells(lib, fn, ks, 1.0, 0.0);
    } else {
      TurnTells(lib, fn, ks, 0.0, 1.0);
      TurnTells(lib, fn, ks, -1.0, 1.0);
    }
    forall x ensures Run(ks, x) == Run(ks, 0.0) {
      SameSignsAlike(ks, x, Sgn(x));
    }
    NotConstant(ks, Run(ks, 0.0));
  }

  // ---- Chains ----

  lemma PlainStep(lib: Lib, s: MathStep, v: real)
    requires !IsTrig(s) && KindOf(s).Some? && IsPlain(KindOf(s).value)
    ensures MathOp(lib, s, v) == VectorMathOp(lib, s, v) == Act(KindOf(s).value, v)
  {
    SameStep(lib, s, v);
    hide MathOp;
    hide VectorMathOp;
    hide KindOf;
  }

  lemma {:induction false} TailRuns(lib: Lib, f: (MathStep, real) -> real, tail: seq<MathStep>, v: real)
    requires PlainTail(tail) && (f == MatrixMath(lib) || f == VectorMath(lib))
    ensures Chain(f, tail, v) == Run(Kinds(tail), v)
  {
    hide MathOp;
    hide VectorMathOp;
    hide KindOf;
    hide Act;
    hide IsTrig;
    if tail != [] {
      var front, s := tail[..|tail| - 1], tail[|tail| - 1];
      assert s in tail;
      TailRuns(lib, f, front, v);
      PlainStep(lib, s, Chain(f, front, v));
      assert Kinds(tail)[..|tail| - 1] == Kinds(front);
    }
  }

  /** The computed state after a total trigonometric step and a plain tail. */
  lemma {:induction false} TailState(t: MathStep, tail: seq<MathStep>)
    requires t.fn in SIGN_KEEPING + SWINGING + EVEN && PlainTail(tail)
    ensures var st, ks := StateOf([t] + tail), Kinds(tail);
            && (st.lo, st.hi) == Bounds(ks)
            && !st.bond.Undefined?
            && (t.fn in SIGN_KEEPING ==> !st.bond.Unknown?)
            && (t.fn in SIGN_KEEPING && !NoSign(ks) ==> st.bond.Equal?)
            && (Degenerate(st.lo, st.hi) ==> st.bond.Equal?)
  {
    var chain := [t] + tail;
    if tail == [] {
      assert chain[..0] == [];
    } else {
      var front, s := tail[..|tail| - 1], tail[|tail| - 1];
      assert chain[..|chain| - 1] == [t] + front;
      assert s in tail;
      TailState(t, front);
    }
  }

  /** Range and instant evaluation agree on the chain, for all values. */
  ghost predicate AlwaysAgree(lib: Lib, chain: seq<MathStep>) {
    forall v :: Chain(MatrixMath(lib), chain, v) == Chain(VectorMath(lib), chain, v)
  }

  lemma AgreeingIsHarmless(lib: Lib, t: MathStep, tail: seq<MathStep>)
    requires TrigLib(lib) && PlainTail(tail) && t.fn in SIGN_KEEPING + SWINGING + EVEN
    requires AlwaysAgree(lib, [t] + tail)
    ensures Harmless([t] + tail)
  {
    var ks := Kinds(tail);
    forall v ensures Run(ks, TrigOp(lib, t.fn, v)) == Run(ks, v) {
      assert Chain(MatrixMath(lib), [t] + tail, v) == Chain(VectorMath(lib), [t] + tail, v);
      ChainConcat(MatrixMath(lib), [t], tail, v);
      ChainConcat(VectorMath(lib), [t], tail, v);
      TrigAlone(lib, t, v);
      TailRuns(lib, MatrixMath(lib), tail, v);
      TailRuns(lib, VectorMath(lib), tail, TrigOp(lib, t.fn, v));
    }
    TailState(t, tail);
    if NoSign(ks) {
      RestlessTells(lib, t.fn, ks);
    } else if t.fn !in SIGN_KEEPING {
      TurnsTell(lib, t.fn, ks);
    }
  }

  lemma HarmlessAgrees(lib: Lib, chain: seq<MathStep>)
    requires RegularLib(lib) && TrigLib(lib) && Harmless(chain)
    ensures AlwaysAgree(lib, chain)
  {
    forall v ensures Chain(MatrixMath(lib), chain, v) == Chain(VectorMath(lib), chain, v) {
      SafeChainsAgree(lib, chain, v);
    }
  }

  /** After a trigonometric step that is defined everywhere, and before steps that only
      sort, clamp and take absolute values and signs: the two evaluations agree exactly
      when the chain is harmless. */
  lemma TrigThenTail(lib: Lib, t: MathStep, tail: seq<MathStep>)
    requires RegularLib(lib) && TrigLib(lib) && PlainTail(tail)
    requires t.fn in SIGN_KEEPING + SWINGING + EVEN
    ensures AlwaysAgree(lib, [t] + tail) <==> Harmless([t] + tail)
  {
    if Harmless([t] + tail) {
      HarmlessAgrees(lib, [t] + tail);
    } else if AlwaysAgree(lib, [t] + tail) {
      AgreeingIsHarmless(lib, t, tail);
    }
  }

  lemma TrigAlone(lib: Lib, t: MathStep, v: real)
    requires IsTrig(t)
    ensures Chain(MatrixMath(lib), [t], v) == v && Chain(VectorMath(lib), [t], v) == TrigOp(lib, t.fn, v)
  {
    assert [t][..0] == [];
    assert Chain(MatrixMath(lib), [], v) == v && Chain(VectorMath(lib), [], v) == v;
  }

  /** sgn(deg(x)) keeps its meaning in a range query, sgn(sin(x)) does not. */
  lemma SignOfDegrees()
    ensures Harmless([MathStep("deg", 0.0, 0.0), MathStep("sgn", 0.0, 0.0)])
    ensures !Harmless([MathStep("sin", 0.0, 0.0), MathStep("sgn", 0.0, 0.0)])
  {
    SecondIsSign("deg");
    SecondIsSign("sin");
  }

  lemma SecondIsSign(fn: string)
    requires fn in TRIG
    ensures Harmless([MathStep(fn, 0.0, 0.0), MathStep("sgn", 0.0, 0.0)]) <==> fn in SIGN_KEEPING
  {
    var t, s := MathStep(fn, 0.0, 0.0), MathStep("sgn", 0.0, 0.0);
    assert [t, s][..1] == [t] && [t][..0] == [];
    assert StateOf([t]) == After(START, t) && StateOf([t, s]) == After(StateOf([t]), s);
    assert KindOf(s) == Some(Sign) && !IsTrig(s);
  }
}

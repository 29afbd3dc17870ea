/** The pointwise functions that range queries evaluate, and which of them may trade places
    with which aggregation. The conditions read only the name and the parameters of a
    function. */
module Pointwise {
  import opened Types
  import opened Reals
  import opened Plans

  datatype Kind =
    | Identity
    | Absolute
    | Ceiling
    | Flooring
    | Sign
    | Rounding(p: real)
    | AtLeast(p: real)
    | AtMost(p: real)
    | Between(lo: real, hi: real)
    | Root
    | Library(fn: string)

  const TRANSCENDENTAL: set<string> := {"exp", "ln", "log2", "log10"}

  /** What a step does; the sorting functions leave the values alone. */
  function KindOf(s: MathStep): Option<Kind> {
    match s.fn
    case "sort" => Some(Identity)
    case "sort_desc" => Some(Identity)
    case "abs" => Some(Absolute)
    case "ceil" => Some(Ceiling)
    case "floor" => Some(Flooring)
    case "sgn" => Some(Sign)
    case "round" => Some(Rounding(s.param))
    case "clamp_min" => Some(AtLeast(s.param))
    case "clamp_max" => Some(AtMost(s.param))
    case "clamp" => Some(Between(s.param, s.param2))
    case "sqrt" => Some(Root)
    case _ => if s.fn in TRANSCENDENTAL then Some(Library(s.fn)) else None
  }

  function RoundTo(p: real, v: real): real {
    if p == 0.0 || p == 1.0 then Round(v) else Times(Round(v / p), p)
  }

  function ApplyKind(lib: Lib, k: Kind, v: real): real {
    match k
    case Identity => v
    case Absolute => Abs(v)
    case Ceiling => Ceil(v)
    case Flooring => v.Floor as real
    case Sign => if v > 0.0 then 1.0 else if v < 0.0 then -1.0 else 0.0
    case Rounding(p) => RoundTo(p, v)
    case AtLeast(p) => MathMax(p, v)
    case AtMost(p) => MathMin(p, v)
    case Between(lo, hi) => MathMax(lo, MathMin(hi, v))
    case Root => lib.sqrt(v)
    case Library(fn) => lib.unary(fn, v)
  }

  lemma KindMeaning(lib: Lib, s: MathStep, v: real)
    requires KindOf(s).Some?
    ensures VectorMathOp(lib, s, v) == ApplyKind(lib, KindOf(s).value, v)
  {
  }

  // ---- What is known of the library ----

  ghost predicate StrictlyIncreasing(f: real -> real) {
    forall x, y :: x < y ==> f(x) < f(y)
  }

  /** Exponential, logarithms and root are strictly increasing, and the root of 0 is 0 and
      of 1 is 1. */
  ghost predicate RegularLib(lib: Lib) {
    && StrictlyIncreasing(lib.sqrt) && lib.sqrt(0.0) == 0.0 && lib.sqrt(1.0) == 1.0
    && forall fn :: fn in TRANSCENDENTAL ==> StrictlyIncreasing(x => lib.unary(fn, x))
  }

  // ---- Conditions ----

  /** 1 is a multiple of the rounding step. */
  predicate DividesOne(p: real) {
    p == 0.0 || (1.0 / p).Floor as real == 1.0 / p
  }

  predicate FixesZero(k: Kind) {
    match k
    case AtLeast(p) => p <= 0.0
    case AtMost(p) => 0.0 <= p
    case Between(lo, hi) => lo == 0.0 || lo <= 0.0 <= hi
    case Library(_) => false
    case _ => true
  }

  predicate FixesOne(k: Kind) {
    match k
    case Rounding(p) => DividesOne(p)
    case AtLeast(p) => p <= 1.0
    case AtMost(p) => 1.0 <= p
    case Between(lo, hi) => lo == 1.0 || lo <= 1.0 <= hi
    case Library(_) => false
    case _ => true
  }

  /** All of 1, 2, 3, ... */
  predicate FixesNaturals(k: Kind) {
    match k
    case Identity | Absolute | Ceiling | Flooring => true
    case Rounding(p) => DividesOne(p)
    case AtLeast(p) => p <= 1.0
    case _ => false
  }

  predicate IsLevelAt(k: Kind, c: real) {
    k.Between? && k.lo == c && k.hi <= c
  }

  predicate IsLevel(k: Kind) {
    k.Between? && k.hi <= k.lo
  }

  predicate Monotone(k: Kind) { !k.Absolute? }

  // ---- They mean what they say ----

  lemma FloorMonotone(v: real, w: real)
    requires v <= w
    ensures v.Floor <= w.Floor
  {
  }

  lemma WholeFloor(n: int)
    ensures (n as real).Floor == n && (n as real + 0.5).Floor == n
  {
  }

  lemma RoundMonotone(v: real, w: real)
    requires v <= w
    ensures Round(v) <= Round(w)
  {
    if w < 0.0 {
      FloorMonotone(-w + 0.5, -v + 0.5);
    } else if v < 0.0 {
      FloorMonotone(0.5, -v + 0.5);
      FloorMonotone(0.5, w + 0.5);
      WholeFloor(0);
    } else {
      FloorMonotone(v + 0.5, w + 0.5);
    }
  }

  lemma RoundWhole(n: int)
    ensures Round(n as real) == n as real
  {
    WholeFloor(n);
    WholeFloor(-n);
    assert -(n as real) == (-n) as real;
  }

  lemma FixedZero(lib: Lib, k: Kind)
    requires RegularLib(lib) && FixesZero(k)
    ensures ApplyKind(lib, k, 0.0) == 0.0
  {
    if k.Rounding? {
      assert Round(0.0) == 0.0;
      assert k.p != 0.0 ==> 0.0 / k.p == 0.0;
      assert Times(0.0, k.p) == 0.0;
    }
  }

  lemma RoundedNatural(p: real, n: int)
    requires DividesOne(p)
    ensures RoundTo(p, n as real) == n as real
  {
    if p == 0.0 || p == 1.0 {
      RoundWhole(n);
    } else {
      var q := (1.0 / p).Floor;
      QuotientByInverse(n as real, p);
      assert n as real / p == (n * q) as real;
      RoundWhole(n * q);
      QuotientTimes(n as real, p);
    }
  }

  lemma QuotientByInverse(a: real, p: real)
    requires p != 0.0
    ensures a / p == a * (1.0 / p)
  {
  }

  lemma QuotientTimes(a: real, p: real)
    requires p != 0.0
    ensures Times(a / p, p) == a
  {
  }

  lemma FixedNatural(lib: Lib, k: Kind, n: nat)
    requires FixesNaturals(k) && n >= 1
    ensures ApplyKind(lib, k, n as real) == n as real
  {
    if k.Rounding? {
      RoundedNatural(k.p, n);
    }
  }

  lemma FixedOne(lib: Lib, k: Kind)
    requires RegularLib(lib) && FixesOne(k)
    ensures ApplyKind(lib, k, 1.0) == 1.0
  {
    if k.Rounding? {
      RoundedNatural(k.p, 1);
    }
  }

  lemma MonotoneRounding(p: real, v: real, w: real)
    requires v <= w
    ensures RoundTo(p, v) <= RoundTo(p, w)
  {
    if p == 0.0 || p == 1.0 {
      RoundMonotone(v, w);
    } else if p > 0.0 {
      QuotientMonotone(v, w, p);
      RoundMonotone(v / p, w / p);
      TimesMonotone(p, Round(v / p), Round(w / p));
      TimesCommute(p, Round(v / p));
      TimesCommute(p, Round(w / p));
    } else {
      QuotientMonotone(v, w, -p);
      QuotientNegated(v, p);
      QuotientNegated(w, p);
      RoundMonotone(w / p, v / p);
      TimesMonotone(-p, -Round(v / p), -Round(w / p));
      TimesNegated(Round(v / p), p);
      TimesNegated(Round(w / p), p);
    }
  }

  lemma QuotientMonotone(v: real, w: real, p: real)
    requires v <= w && p > 0.0
    ensures v / p <= w / p
  {
  }

  lemma QuotientNegated(v: real, p: real)
    requires p != 0.0
    ensures v / -p == -(v / p)
  {
  }

  lemma TimesCommute(a: real, b: real)
    ensures Times(a, b) == Times(b, a)
  {
  }

  lemma TimesNegated(a: real, p: real)
    ensures Times(-p, -a) == Times(a, p)
  {
  }

  lemma MonotoneMeaning(lib: Lib, k: Kind, v: real, w: real)
    requires RegularLib(lib) && Monotone(k) && v <= w
    requires k.Library? ==> k.fn in TRANSCENDENTAL
    ensures ApplyKind(lib, k, v) <= ApplyKind(lib, k, w)
  {
    match k
    case Rounding(p) => MonotoneRounding(p, v, w);
    case Root => IncreasingMonotone(lib.sqrt, v, w);
    case Library(fn) => IncreasingMonotone(x => lib.unary(fn, x), v, w);
    case Ceiling => CeilMonotone(v, w);
    case Flooring => FloorMonotone(v, w);
    case _ =>
  }

  lemma IncreasingMonotone(f: real -> real, v: real, w: real)
    requires StrictlyIncreasing(f) && v <= w
    ensures f(v) <= f(w)
  {
    assert v < w ==> f(v) < f(w);
  }

  lemma CeilMonotone(v: real, w: real)
    requires v <= w
    ensures Ceil(v) <= Ceil(w)
  {
    FloorMonotone(v, w);
  }
}

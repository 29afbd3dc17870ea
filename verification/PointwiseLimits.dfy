/** Numbers that tell the aggregate of the images from the image of the aggregate, for
    every pair of an aggregation and a pointwise function that may not trade places. */
module PointwiseLimits {
  import opened Reals
  import opened Plans
  import opened Pointwise
  import opened HoistingLimits

  function Bend(x: real): real { if x <= 1.0 then x else (x + 1.0) / 2.0 }

  function Steepen(x: real): real { if x <= 1.0 then x else 2.0 * x - 1.0 }

  const PLAIN: Lib := Lib(x => x, (fn, x) => x + 2.0, (fn, x, y) => x, -1.0, 2.0)

  const BENT: Lib := Lib(x => Bend(x), (fn, x) => Steepen(x), (fn, x, y) => x, -1.0, 2.0)

  lemma RegularWitnesses()
    ensures RegularLib(PLAIN) && RegularLib(BENT)
  {
    forall x, y | x < y ensures Bend(x) < Bend(y) && Steepen(x) < Steepen(y) {
    }
    assert StrictlyIncreasing(BENT.sqrt) && StrictlyIncreasing(PLAIN.sqrt);
    forall fn | fn in TRANSCENDENTAL ensures StrictlyIncreasing(x => BENT.unary(fn, x)) && StrictlyIncreasing(x => PLAIN.unary(fn, x)) {
      forall x, y | x < y ensures BENT.unary(fn, x) < BENT.unary(fn, y) && PLAIN.unary(fn, x) < PLAIN.unary(fn, y) {
      }
    }
  }

  function LibFor(op: AggOp, k: Kind): Lib {
    if k.Root? || op.Avg? then BENT else PLAIN
  }

  /** The aggregate of the images of two values is not the image of their aggregate. */
  predicate PairFails(lib: Lib, op: AggOp, k: Kind, x: real, y: real) {
    PairAggregate(lib, op, ApplyKind(lib, k, x), ApplyKind(lib, k, y)) != ApplyKind(lib, k, PairAggregate(lib, op, x, y))
  }

  // ---- Rounding ----

  function Width(p: real): real { if p == 0.0 then 1.0 else Abs(p) }

  lemma RoundOfUnit(z: real)
    ensures z == 0.5 || z == 1.0 ==> Round(z) == 1.0
    ensures z == -0.5 || z == -1.0 ==> Round(z) == -1.0
    ensures -0.5 < z < 0.5 ==> Round(z) == 0.0
  {
  }

  /** Half a width is rounded up to a width, a width to itself. */
  lemma RoundedHalf(p: real)
    ensures RoundTo(p, Width(p) / 2.0) == Width(p) && RoundTo(p, Width(p)) == Width(p) && RoundTo(p, 0.0) == 0.0
  {
    var w := Width(p);
    if p == 0.0 || p == 1.0 {
      RoundOfUnit(0.5);
      RoundOfUnit(1.0);
      RoundOfUnit(0.0);
    } else {
      UnitQuotients(p);
      RoundOfUnit(w / p);
      RoundOfUnit(w / 2.0 / p);
      RoundOfUnit(0.0 / p);
      assert Times(1.0, p) == p && Times(-1.0, p) == -p && Times(0.0, p) == 0.0;
    }
  }

  lemma UnitQuotients(p: real)
    requires p != 0.0
    ensures p > 0.0 ==> Width(p) / p == 1.0 && Width(p) / 2.0 / p == 0.5
    ensures p < 0.0 ==> Width(p) / p == -1.0 && Width(p) / 2.0 / p == -0.5
    ensures 0.0 / p == 0.0
  {
  }

  /** Rounding gives a whole number of widths, not much greater than the value. */
  lemma RoundedWidths(p: real, v: real) returns (n: int)
    requires v >= 0.0
    ensures RoundTo(p, v) == Times(n as real, Width(p)) && Times(n as real, Width(p)) <= v + Width(p) / 2.0 && n >= 0
  {
    if p == 0.0 || p == 1.0 {
      n := (v + 0.5).Floor;
      assert Times(n as real, 1.0) == n as real;
      return;
    }
    hide Times;
    hide Round;
    if p > 0.0 {
      n := RoundedUp(v, p);
    } else {
      n := RoundedUp(v, -p);
      QuotientNegated(v, p);
      NonNegativeQuotient(v, -p);
      RoundNegated(v / -p);
      TimesNegated(n as real, p);
      TimesNegated(-(n as real), p);
    }
  }

  lemma NonNegativeQuotient(v: real, w: real)
    requires w > 0.0 && v >= 0.0
    ensures v / w >= 0.0
  {
  }

  lemma RoundedUp(v: real, w: real) returns (n: int)
    requires w > 0.0 && v >= 0.0
    ensures v / w >= 0.0 && n == (v / w + 0.5).Floor && Round(v / w) == n as real
    ensures n >= 0 && Times(n as real, w) <= v + w / 2.0
  {
    n := (v / w + 0.5).Floor;
    NonNegativeQuotient(v, w);
    WidthBound(n, v, w);
  }

  lemma RoundNegated(z: real)
    requires z >= 0.0
    ensures Round(-z) == -((z + 0.5).Floor as real)
  {
  }

  lemma WidthBound(n: int, v: real, w: real)
    requires w > 0.0 && v >= 0.0 && n == (v / w + 0.5).Floor
    ensures n >= 0 && Times(n as real, w) <= v + w / 2.0
  {
    NonNegativeQuotient(v, w);
    assert n as real <= v / w + 0.5;
    TimesMonotone(w, n as real, v / w + 0.5);
    TimesCommute(w, n as real);
    HalfAdded(v, w);
  }

  lemma HalfAdded(v: real, w: real)
    requires w > 0.0
    ensures Times(w, v / w + 0.5) == v + w / 2.0
  {
  }

  /** The spread of 0 and half a width is not rounded to the spread of 0 and a width. */
  lemma RoundedSpread(p: real)
    ensures RoundTo(p, Square(Width(p) / 2.0) / 4.0) != Square(Width(p)) / 4.0
  {
    var w := Width(p);
    hide Square;
    hide Times;
    hide RoundTo;
    SquareSign(w / 2.0);
    assert w > 0.0;
    hide Width;
    var n := RoundedWidths(p, Square(w / 2.0) / 4.0);
    SpreadNumbers(w, n);
  }

  lemma PositiveFactor(a: real, b: real)
    requires b > 0.0
    ensures Times(a, b) == 0.0 ==> a == 0.0
    ensures Times(a, b) <= 0.0 ==> a <= 0.0
  {
    hide Times;
    if a > 0.0 {
      TimesPositive(a, b);
    } else if a < 0.0 {
      TimesPositive(-a, b);
      NegatedTimes(a, b);
    }
  }

  lemma NegatedTimes(a: real, b: real)
    ensures Times(-a, b) == -Times(a, b)
  {
  }

  lemma SpreadForms(w: real, n: real)
    ensures Square(w / 2.0) / 4.0 == Square(w) / 16.0
    ensures Times(n, w) - Square(w) / 4.0 == Times(n - w / 4.0, w)
    ensures Square(w) / 4.0 - Square(w) / 16.0 - w / 2.0 == Times(3.0 * w / 16.0 - 0.5, w)
  {
  }

  lemma SpreadNumbers(w: real, n: int)
    requires w > 0.0 && n >= 0 && Times(n as real, w) <= Square(w / 2.0) / 4.0 + w / 2.0
    ensures Times(n as real, w) != Square(w) / 4.0
  {
    SpreadForms(w, n as real);
    hide Times;
    hide Square;
    if Times(n as real, w) == Square(w) / 4.0 {
      PositiveFactor(n as real - w / 4.0, w);
      assert n >= 1;
      PositiveFactor(3.0 * w / 16.0 - 0.5, w);
      assert false;
    }
  }

  // ---- Pairs of values ----

  /** Large enough to be clamped, and clamped again when doubled. */
  function Beyond(x: real): real { Abs(x) + 1.0 }

  function SumPair(k: Kind): (real, real) {
    match k
    case Absolute => (-1.0, 1.0)
    case Ceiling | Flooring => (0.5, 0.5)
    case Rounding(p) => (Width(p) / 2.0, Width(p) / 2.0)
    case AtLeast(p) => if p > 0.0 then (0.0, 0.0) else (p - 1.0, 1.0 - p)
    case AtMost(p) => if p < 0.0 then (0.0, 0.0) else (p + 1.0, -1.0 - p)
    case Between(lo, hi) =>
      if MathMax(lo, hi) != 0.0 then (Beyond(hi), Beyond(hi)) else (-Beyond(lo), -Beyond(lo))
    case Library(_) => (0.0, 0.0)
    case _ => (1.0, 1.0)
  }

  lemma RoundingSumFails(k: Kind)
    requires k.Rounding?
    ensures PairFails(PLAIN, Sum, k, SumPair(k).0, SumPair(k).1)
  {
    RoundedHalf(k.p);
    assert Width(k.p) > 0.0;
    hide RoundTo;
    hide Width;
  }

  lemma SumFails(k: Kind)
    requires !k.Identity? && !IsLevelAt(k, 0.0)
    ensures PairFails(LibFor(Sum, k), Sum, k, SumPair(k).0, SumPair(k).1)
  {
    if k.Rounding? {
      RoundingSumFails(k);
    } else {
      hide RoundTo;
    }
  }

  function AvgPair(k: Kind): (real, real) {
    match k
    case Absolute => (-1.0, 1.0)
    case Ceiling | Flooring | Sign => (0.0, 1.0)
    case Rounding(p) => (0.0, Width(p))
    case AtLeast(p) => (p - 1.0, p + 1.0)
    case AtMost(p) => (p - 1.0, p + 1.0)
    case Between(lo, hi) => (lo - (hi - lo), lo + (hi - lo))
    case _ => (0.0, 2.0)
  }

  lemma AvgFails(k: Kind)
    requires !k.Identity? && !IsLevel(k)
    ensures PairFails(LibFor(Avg, k), Avg, k, AvgPair(k).0, AvgPair(k).1)
  {
    if k.Rounding? {
      RoundedHalf(k.p);
      hide RoundTo;
    }
  }

  lemma ExtremeFails(op: AggOp, k: Kind)
    requires (op.Min? || op.Max?) && !Monotone(k)
    ensures PairFails(LibFor(op, k), op, k, -2.0, 1.0)
  {
  }

  function SpreadPair(k: Kind): (real, real) {
    match k
    case Absolute => (-1.0, 1.0)
    case Ceiling | Flooring => (0.0, 1.0)
    case Rounding(p) => (0.0, Width(p) / 2.0)
    case AtLeast(p) => (p - 2.0, p)
    case AtMost(p) => if p >= 1.0 then (p, p + 2.0) else (p - 2.0, p)
    case Between(lo, hi) =>
      if hi <= lo then (0.0, 0.0)
      else if hi != 0.0 then (lo - 2.0 * Beyond(hi), lo)
      else (lo, 0.0)
    case Library(_) => (0.0, 0.0)
    case _ => (0.0, 2.0)
  }

  lemma ClampedSpread(lo: real, hi: real)
    requires lo < hi
    ensures hi != 0.0 ==> MathMax(lo, MathMin(hi, Square(2.0 * Beyond(hi)) / 4.0)) == hi
    ensures hi == 0.0 ==> Square(lo) / 4.0 > 0.0
  {
    SquareSign(lo);
    var y := Beyond(hi);
    assert Square(2.0 * y) / 4.0 == Square(y);
    SquareGrows(y);
  }

  lemma SquareGrows(y: real)
    requires y >= 1.0
    ensures Square(y) >= y
  {
    assert (y - 1.0) * y >= 0.0;
  }

  lemma SquaresUsed()
    ensures Square(0.0) == 0.0 && Square(-2.0) == 4.0 == Square(2.0) && Square(-1.0) == 1.0 && Square(-1.5) == 2.25
  {
  }

  lemma SpreadOfPair(op: AggOp, w: real)
    requires op.Stddev? || op.Stdvar?
    ensures PairAggregate(PLAIN, op, 0.0, w) == Square(w) / 4.0
  {
    SquareEven(w);
    hide Square;
    assert 0.0 - w == -w;
  }

  lemma RoundingPairFails(op: AggOp, k: Kind, w: real, h: real, images: real, inner: real)
    requires k.Rounding? && RoundTo(k.p, 0.0) == 0.0 && RoundTo(k.p, h) == w
    requires PairAggregate(PLAIN, op, 0.0, w) == images && PairAggregate(PLAIN, op, 0.0, h) == inner
    requires RoundTo(k.p, inner) != images
    ensures PairFails(PLAIN, op, k, 0.0, h)
  {
    hide RoundTo;
    hide PairAggregate;
  }

  lemma RoundingSpreadFails(op: AggOp, k: Kind)
    requires (op.Stddev? || op.Stdvar?) && k.Rounding?
    ensures PairFails(PLAIN, op, k, SpreadPair(k).0, SpreadPair(k).1)
  {
    var w, h := Width(k.p), Width(k.p) / 2.0;
    assert SpreadPair(k) == (0.0, h);
    hide *;
    RoundedHalf(k.p);
    RoundedSpread(k.p);
    SpreadOfPair(op, w);
    SpreadOfPair(op, h);
    RoundingPairFails(op, k, w, h, Square(w) / 4.0, Square(h) / 4.0);
  }

  lemma ClampSpreadFails(op: AggOp, k: Kind)
    requires (op.Stddev? || op.Stdvar?) && k.Between? && !IsLevelAt(k, 0.0)
    ensures PairFails(PLAIN, op, k, SpreadPair(k).0, SpreadPair(k).1)
  {
    SquaresUsed();
    if k.lo < k.hi {
      ClampedSpread(k.lo, k.hi);
      SquareEven(2.0 * Beyond(k.hi));
    }
    hide Square;
  }

  lemma BoundSpreadFails(op: AggOp, k: Kind)
    requires (op.Stddev? || op.Stdvar?) && (k.AtLeast? || k.AtMost?)
    ensures PairFails(PLAIN, op, k, SpreadPair(k).0, SpreadPair(k).1)
  {
    SquaresUsed();
    hide Square;
  }

  lemma LibrarySpreadFails(op: AggOp, k: Kind)
    requires (op.Stddev? || op.Stdvar?) && (k.Root? || k.Library?)
    ensures PairFails(LibFor(op, k), op, k, SpreadPair(k).0, SpreadPair(k).1)
  {
    SquaresUsed();
    hide Square;
  }

  lemma PlainSpreadFails(op: AggOp, k: Kind)
    requires (op.Stddev? || op.Stdvar?) && (k.Absolute? || k.Ceiling? || k.Flooring? || k.Sign?)
    ensures PairFails(PLAIN, op, k, SpreadPair(k).0, SpreadPair(k).1)
  {
    SquaresUsed();
    hide Square;
  }

  lemma SpreadFails(op: AggOp, k: Kind)
    requires (op.Stddev? || op.Stdvar?) && !k.Identity? && !IsLevelAt(k, 0.0)
    ensures PairFails(LibFor(op, k), op, k, SpreadPair(k).0, SpreadPair(k).1)
  {
    hide PairFails;
    hide SpreadPair;
    match k
    case Rounding(_) => RoundingSpreadFails(op, k);
    case Between(_, _) => ClampSpreadFails(op, k);
    case AtLeast(_) => BoundSpreadFails(op, k);
    case AtMost(_) => BoundSpreadFails(op, k);
    case Root => LibrarySpreadFails(op, k);
    case Library(_) => LibrarySpreadFails(op, k);
    case _ => PlainSpreadFails(op, k);
  }

  lemma SquareEven(x: real)
    ensures Square(-x) == Square(x)
  {
  }

  // ---- Single values ----

  lemma RoundedOne(p: real)
    requires RoundTo(p, 1.0) == 1.0
    ensures DividesOne(p)
  {
    if p == 0.0 || p == 1.0 {
      assert (1.0 / 1.0).Floor as real == 1.0;
    } else {
      var n := if 1.0 / p < 0.0 then -((-(1.0 / p) + 0.5).Floor) else (1.0 / p + 0.5).Floor;
      assert Round(1.0 / p) == n as real;
      UnitQuotient(n as real, p);
      WholeFloor(n);
    }
  }

  lemma UnitQuotient(n: real, p: real)
    requires p != 0.0 && Times(n, p) == 1.0
    ensures 1.0 / p == n
  {
  }

  lemma NotFixedOne(op: AggOp, k: Kind)
    requires !FixesOne(k) && !op.Avg?
    ensures ApplyKind(LibFor(op, k), k, 1.0) != 1.0
  {
    if k.Rounding? && RoundTo(k.p, 1.0) == 1.0 {
      RoundedOne(k.p);
    }
  }

  lemma NotFixedZero(op: AggOp, k: Kind)
    requires !FixesZero(k) && !op.Avg?
    ensures ApplyKind(LibFor(op, k), k, 0.0) != 0.0
  {
  }

  /** A number of series that the function does not leave alone as a count. */
  function MovedNatural(k: Kind): (n: nat)
    ensures n >= 1
  {
    match k
    case Sign | Root => 2
    case AtMost(p) => Beyond(p).Floor + 1
    case Between(lo, hi) => Beyond(Abs(lo) + Abs(hi)).Floor + 1
    case _ => 1
  }

  lemma NotFixedNatural(k: Kind)
    requires !FixesNaturals(k)
    ensures ApplyKind(LibFor(Count, k), k, MovedNatural(k) as real) != MovedNatural(k) as real
  {
    if k.Rounding? || k.AtLeast? || k.Library? {
      NotFixedOne(Count, k);
    }
  }
}

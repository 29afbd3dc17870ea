/** What binary operators do to the values of a match (eval/binary.go:15-48,
    eval/evaluator.go:1378-1412), stated on the vectors that come out. */
module Operators {
  import opened Types
  import opened Columns
  import opened Reals
  import opened Plans
  import opened BinaryVectors
  import opened BinaryEval

  // ---- One match ----

  /** One element on each side, matched with one another and with nothing else. */
  ghost predicate Matched(mt: Matching, l: Vec, r: Vec, a: Labels, b: Labels) {
    && Unambiguous(mt, l) && Unambiguous(mt, r)
    && a in l && b in r && Shape(mt, a) == Shape(mt, b)
  }

  /** What the operator leaves of the match. */
  ghost function OfMatch(lib: Lib, op: string, returnBool: bool, mt: Matching, l: Vec, r: Vec, a: Labels): Option<real> {
    match BinaryVec(lib, op, returnBool, mt, l, r)
    case Some(v) => if Shape(mt, a) in v then Some(v[Shape(mt, a)]) else None
    case None => None
  }

  /** What the operator leaves of an element and a number. */
  ghost function OfElement(lib: Lib, op: string, returnBool: bool, onLeft: bool, c: real, v: Vec, k: Labels): Option<real> {
    var w := ScalarVec(x => WithScalar(lib, op, returnBool, onLeft, c, x), v);
    if k in w then Some(w[k]) else None
  }

  const JOINING: set<string> := {"+", "-", "*", "/", "%", "^", "atan2", "==", "!=", ">", "<", ">=", "<="}

  lemma OwnerOf(mt: Matching, v: Vec, a: Labels)
    requires Unambiguous(mt, v) && a in v
    ensures Shape(mt, a) in Shapes(mt, v) && Owner(mt, v, Shape(mt, a)) == a
  {
    hide Shape;
  }

  lemma NotASetOperator(op: string)
    requires op in JOINING
    ensures op != "and" && op != "or" && op != "unless"
  {
  }

  lemma MatchIsCombined(lib: Lib, op: string, returnBool: bool, mt: Matching, l: Vec, r: Vec, a: Labels, b: Labels)
    requires op in JOINING && Matched(mt, l, r, a, b)
    ensures OfMatch(lib, op, returnBool, mt, l, r, a) == Combine(lib, op, returnBool, l[a], r[b])
  {
    NotASetOperator(op);
    OwnerOf(mt, l, a);
    OwnerOf(mt, r, b);
    hide Combine;
    hide Shape;
    hide Shapes;
    hide Unambiguous;
    hide JOINING;
  }

  lemma ElementIsCombined(lib: Lib, op: string, returnBool: bool, onLeft: bool, c: real, v: Vec, k: Labels)
    requires k in v
    ensures OfElement(lib, op, returnBool, onLeft, c, v, k)
         == if onLeft then Combine(lib, op, returnBool, c, v[k]) else Combine(lib, op, returnBool, v[k], c)
  {
    hide Combine;
  }

  // ---- Comparisons ----

  /** A comparison keeps the left value of a match for which it holds, and drops any other. */
  ghost predicate Filters(r: Option<real>, x: real, holds: bool) {
    r == if holds then Some(x) else None
  }

  /** With `bool` it reports 1 where it holds, and 0 elsewhere. */
  ghost predicate Answers(r: Option<real>, holds: bool) {
    r == Some(if holds then 1.0 else 0.0)
  }

  lemma Comparisons(lib: Lib, x: real, y: real)
    ensures Filters(Combine(lib, ">", false, x, y), x, x > y)
    ensures Filters(Combine(lib, "<", false, x, y), x, x < y)
    ensures Filters(Combine(lib, ">=", false, x, y), x, x >= y)
    ensures Filters(Combine(lib, "<=", false, x, y), x, x <= y)
    ensures Filters(Combine(lib, "==", false, x, y), x, x == y)
    ensures Filters(Combine(lib, "!=", false, x, y), x, x != y)
  {
  }

  lemma BoolComparisons(lib: Lib, x: real, y: real)
    ensures Answers(Combine(lib, ">", true, x, y), x > y)
    ensures Answers(Combine(lib, "<", true, x, y), x < y)
    ensures Answers(Combine(lib, ">=", true, x, y), x >= y)
    ensures Answers(Combine(lib, "<=", true, x, y), x <= y)
    ensures Answers(Combine(lib, "==", true, x, y), x == y)
    ensures Answers(Combine(lib, "!=", true, x, y), x != y)
  {
  }

  const COMPARISONS: set<string> := {"==", "!=", ">", "<", ">=", "<="}

  lemma ComparisonsJoin()
    ensures COMPARISONS <= JOINING
  {
  }

  /** Of a match between two vectors: a comparison keeps it exactly where it holds between the
      two numbers, with the left one as value. */
  lemma MatchCompared(lib: Lib, mt: Matching, l: Vec, r: Vec, a: Labels, b: Labels)
    requires Matched(mt, l, r, a, b)
    ensures Filters(OfMatch(lib, ">", false, mt, l, r, a), l[a], l[a] > r[b])
    ensures Filters(OfMatch(lib, "<", false, mt, l, r, a), l[a], l[a] < r[b])
    ensures Filters(OfMatch(lib, ">=", false, mt, l, r, a), l[a], l[a] >= r[b])
    ensures Filters(OfMatch(lib, "<=", false, mt, l, r, a), l[a], l[a] <= r[b])
    ensures Filters(OfMatch(lib, "==", false, mt, l, r, a), l[a], l[a] == r[b])
    ensures Filters(OfMatch(lib, "!=", false, mt, l, r, a), l[a], l[a] != r[b])
  {
    forall op | op in COMPARISONS ensures OfMatch(lib, op, false, mt, l, r, a) == Combine(lib, op, false, l[a], r[b]) {
      ComparisonsJoin();
      MatchIsCombined(lib, op, false, mt, l, r, a, b);
    }
    Comparisons(lib, l[a], r[b]);
    hide Combine;
    hide OfMatch;
    hide Matched;
  }

  /** With `bool` every match has an answer, 1 where it would be kept. */
  lemma MatchAnswered(lib: Lib, op: string, mt: Matching, l: Vec, r: Vec, a: Labels, b: Labels)
    requires Matched(mt, l, r, a, b) && op in COMPARISONS
    ensures Answers(OfMatch(lib, op, true, mt, l, r, a), OfMatch(lib, op, false, mt, l, r, a).Some?)
  {
    ComparisonsJoin();
    MatchIsCombined(lib, op, true, mt, l, r, a, b);
    MatchIsCombined(lib, op, false, mt, l, r, a, b);
    Comparisons(lib, l[a], r[b]);
    BoolComparisons(lib, l[a], r[b]);
    hide Combine;
    hide OfMatch;
    hide Matched;
  }

  /** Exactly one of greater, less and equal keeps a match. */
  lemma OneOfThree(lib: Lib, mt: Matching, l: Vec, r: Vec, a: Labels, b: Labels)
    requires Matched(mt, l, r, a, b)
    ensures var more, less, same := OfMatch(lib, ">", false, mt, l, r, a).Some?, OfMatch(lib, "<", false, mt, l, r, a).Some?,
                                    OfMatch(lib, "==", false, mt, l, r, a).Some?;
            (more || less || same) && !(more && less) && !(more && same) && !(less && same)
  {
    MatchCompared(lib, mt, l, r, a, b);
    hide OfMatch;
    hide Matched;
  }

  /** A comparison of an element with a number keeps the element where it holds. */
  lemma ElementCompared(lib: Lib, c: real, v: Vec, k: Labels)
    requires k in v
    ensures Filters(OfElement(lib, ">", false, false, c, v, k), v[k], v[k] > c)
    ensures Filters(OfElement(lib, "<", false, false, c, v, k), v[k], v[k] < c)
    ensures Filters(OfElement(lib, ">=", false, false, c, v, k), v[k], v[k] >= c)
    ensures Filters(OfElement(lib, "<=", false, false, c, v, k), v[k], v[k] <= c)
    ensures Filters(OfElement(lib, "==", false, false, c, v, k), v[k], v[k] == c)
    ensures Filters(OfElement(lib, "!=", false, false, c, v, k), v[k], v[k] != c)
  {
    Comparisons(lib, v[k], c);
    forall op ensures OfElement(lib, op, false, false, c, v, k) == Combine(lib, op, false, v[k], c) {
      ElementIsCombined(lib, op, false, false, c, v, k);
    }
    hide Combine;
    hide OfElement;
  }

  /** Of a number with an element: what is kept then has the number for its value. */
  lemma NumberCompared(lib: Lib, c: real, v: Vec, k: Labels)
    requires k in v
    ensures Filters(OfElement(lib, ">", false, true, c, v, k), c, c > v[k])
    ensures Filters(OfElement(lib, "<", false, true, c, v, k), c, c < v[k])
    ensures Filters(OfElement(lib, ">=", false, true, c, v, k), c, c >= v[k])
    ensures Filters(OfElement(lib, "<=", false, true, c, v, k), c, c <= v[k])
    ensures Filters(OfElement(lib, "==", false, true, c, v, k), c, c == v[k])
    ensures Filters(OfElement(lib, "!=", false, true, c, v, k), c, c != v[k])
  {
    Comparisons(lib, c, v[k]);
    forall op ensures OfElement(lib, op, false, true, c, v, k) == Combine(lib, op, false, c, v[k]) {
      ElementIsCombined(lib, op, false, true, c, v, k);
    }
    hide Combine;
    hide OfElement;
  }

  lemma ElementAnswered(lib: Lib, op: string, onLeft: bool, c: real, v: Vec, k: Labels)
    requires k in v && op in COMPARISONS
    ensures Answers(OfElement(lib, op, true, onLeft, c, v, k), OfElement(lib, op, false, onLeft, c, v, k).Some?)
  {
    ElementIsCombined(lib, op, true, onLeft, c, v, k);
    ElementIsCombined(lib, op, false, onLeft, c, v, k);
    Comparisons(lib, v[k], c);
    Comparisons(lib, c, v[k]);
    BoolComparisons(lib, v[k], c);
    BoolComparisons(lib, c, v[k]);
    hide Combine;
    hide OfElement;
  }

  // ---- Arithmetic ----

  /** The value that the operator gives for a match of the two numbers. */
  ghost function Gives(lib: Lib, op: string, x: real, y: real): Option<real> {
    OfMatch(lib, op, false, Matching([], true), map[map[] := x], map[map[] := y], map[])
  }

  lemma AnyMatchGives(lib: Lib, op: string, mt: Matching, l: Vec, r: Vec, a: Labels, b: Labels)
    requires op in JOINING && Matched(mt, l, r, a, b)
    ensures OfMatch(lib, op, false, mt, l, r, a) == Gives(lib, op, l[a], r[b])
  {
    var none: Labels := map[];
    var x: Vec, y: Vec := map[none := l[a]], map[none := r[b]];
    MatchIsCombined(lib, op, false, mt, l, r, a, b);
    assert none in x && none in y && x[none] == l[a] && y[none] == r[b];
    assert Matched(Matching([], true), x, y, none, none);
    MatchIsCombined(lib, op, false, Matching([], true), x, y, none, none);
    hide Combine;
    hide OfMatch;
  }

  lemma AnyElementGives(lib: Lib, op: string, onLeft: bool, c: real, v: Vec, k: Labels)
    requires op in JOINING && k in v
    ensures OfElement(lib, op, false, onLeft, c, v, k) == if onLeft then Gives(lib, op, c, v[k]) else Gives(lib, op, v[k], c)
  {
    var none: Labels := map[];
    ElementIsCombined(lib, op, false, onLeft, c, v, k);
    GivesCombined(lib, op, c, v[k]);
    GivesCombined(lib, op, v[k], c);
    hide Combine;
    hide Gives;
    hide OfElement;
  }

  lemma GivesCombined(lib: Lib, op: string, x: real, y: real)
    requires op in JOINING
    ensures Gives(lib, op, x, y) == Combine(lib, op, false, x, y)
  {
    var none: Labels := map[];
    var l: Vec, r: Vec := map[none := x], map[none := y];
    assert none in l && none in r && l[none] == x && r[none] == y;
    assert Matched(Matching([], true), l, r, none, none);
    MatchIsCombined(lib, op, false, Matching([], true), l, r, none, none);
    hide Combine;
    hide OfMatch;
  }

  lemma Known(op: string)
    requires op == "+" || op == "-" || op == "*" || op == "/" || op == "%" || op == "^" || op == "atan2"
    ensures op in JOINING
  {
  }

  lemma PlusMinus(lib: Lib, x: real, y: real)
    ensures Gives(lib, "+", x, y) == Some(x + y) && Gives(lib, "-", x, y) == Some(x - y)
  {
    Known("+");
    Known("-");
    GivesCombined(lib, "+", x, y);
    GivesCombined(lib, "-", x, y);
    hide Gives;
    hide JOINING;
  }

  lemma Product(lib: Lib, x: real, y: real)
    ensures Gives(lib, "*", x, y) == Some(Times(x, y))
  {
    Known("*");
    GivesCombined(lib, "*", x, y);
    hide Gives;
    hide JOINING;
  }

  lemma Quotient(lib: Lib, x: real, y: real)
    requires y != 0.0
    ensures Gives(lib, "/", Times(x, y), y) == Some(x)
  {
    Known("/");
    GivesCombined(lib, "/", Times(x, y), y);
    assert Times(x, y) / y == x;
    hide Gives;
    hide JOINING;
  }

  /** The library is asked for the left number and the right one, in this order. */
  lemma LibraryOperators(lib: Lib, op: string, x: real, y: real)
    requires op == "%" || op == "^" || op == "atan2"
    ensures Gives(lib, op, x, y) == Some(lib.binary(op, x, y))
  {
    Known(op);
    GivesCombined(lib, op, x, y);
    hide Gives;
    hide JOINING;
  }

  ghost function Number(r: Option<real>): real { if r.Some? then r.value else 0.0 }

  /** Sums: zero is neutral, the order is free, and minus undoes plus. */
  lemma SumLaws(lib: Lib, x: real, y: real)
    ensures Gives(lib, "+", x, 0.0) == Some(x) && Gives(lib, "+", x, y) == Gives(lib, "+", y, x)
    ensures Gives(lib, "-", Number(Gives(lib, "+", x, y)), y) == Some(x)
  {
    hide Gives;
    PlusMinus(lib, x, 0.0);
    PlusMinus(lib, x, y);
    PlusMinus(lib, y, x);
    PlusMinus(lib, x + y, y);
  }

  /** Products: one is neutral, the order is free, division undoes them, and they distribute
      over sums. */
  lemma ProductLaws(lib: Lib, x: real, y: real, z: real)
    ensures Gives(lib, "*", x, 1.0) == Some(x) && Gives(lib, "*", x, y) == Gives(lib, "*", y, x)
    ensures y != 0.0 ==> Gives(lib, "/", Number(Gives(lib, "*", x, y)), y) == Some(x)
    ensures Gives(lib, "*", x, Number(Gives(lib, "+", y, z)))
         == Gives(lib, "+", Number(Gives(lib, "*", x, y)), Number(Gives(lib, "*", x, z)))
  {
    hide Gives;
    Product(lib, x, 1.0);
    Product(lib, x, y);
    Product(lib, y, x);
    Product(lib, x, z);
    Product(lib, x, y + z);
    PlusMinus(lib, y, z);
    PlusMinus(lib, Times(x, y), Times(x, z));
    if y != 0.0 {
      Quotient(lib, x, y);
    }
    TimesOne(x, y);
    TimesAdd(x, y, z);
    hide Times;
  }

  lemma TimesOne(x: real, y: real)
    ensures Times(x, 1.0) == x && Times(x, y) == Times(y, x)
  {
  }

  /** Nothing but matches comes out. */
  lemma OnlyMatches(lib: Lib, op: string, returnBool: bool, mt: Matching, l: Vec, r: Vec, p: Labels)
    requires op in JOINING && Unambiguous(mt, l) && Unambiguous(mt, r)
    ensures BinaryVec(lib, op, returnBool, mt, l, r).Some?
    ensures p in BinaryVec(lib, op, returnBool, mt, l, r).value ==>
              exists a, b :: Matched(mt, l, r, a, b) && Shape(mt, a) == p
  {
    NotASetOperator(op);
    hide Combine;
    hide Shape;
    if p in Joined(lib, op, returnBool, mt, l, r) {
      var a, b := Owner(mt, l, p), Owner(mt, r, p);
      assert Matched(mt, l, r, a, b);
    }
  }
}

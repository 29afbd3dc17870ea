/** Binary operators on instant vectors (eval/binary.go). */
module BinaryVectors {
  import opened Types
  import opened Columns
  import opened Plans
  import opened LabelKeys
  import opened Aggregation

  /** on(...) or ignoring(...) of a one-to-one match or a set operator. */
  datatype Matching = Matching(labels: seq<string>, on: bool)

  function FromBool(b: bool): real { if b then 1.0 else 0.0 }

  /** The value of the operator and whether a comparison keeps the sample. */
  function ApplyBinaryOp(lib: Lib, lv: real, rv: real, op: string): (real, bool) {
    match op
    case "+" => (lv + rv, true)
    case "-" => (lv - rv, true)
    case "*" => (lv * rv, true)
    case "/" => (if rv != 0.0 then lv / rv else lib.binary("/", lv, rv), true)
    case "%" => (lib.binary("%", lv, rv), true)
    case "^" => (lib.binary("^", lv, rv), true)
    case "==" => (lv, lv == rv)
    case "!=" => (lv, lv != rv)
    case ">" => (lv, lv > rv)
    case "<" => (lv, lv < rv)
    case ">=" => (lv, lv >= rv)
    case "<=" => (lv, lv <= rv)
    case "atan2" => (lib.binary("atan2", lv, rv), true)
    case _ => (0.0, false)
  }

  /** The sample that two operand values produce, if any. */
  function Combine(lib: Lib, op: string, returnBool: bool, lv: real, rv: real): Option<real> {
    var (val, keep) := ApplyBinaryOp(lib, lv, rv, op);
    if !keep && !returnBool then None
    else if returnBool then Some(FromBool(keep))
    else Some(val)
  }

  // ---- Meaning ----

  /** The labels that a match is made on, which are also the labels of its output. */
  function Shape(mt: Matching, l: Labels): Labels {
    GroupLabels(l, mt.labels, !mt.on)
  }

  ghost function Shapes(mt: Matching, v: Vec): set<Labels> {
    set l | l in v :: Shape(mt, l)
  }

  /** No two series of the vector match alike. */
  ghost predicate Unambiguous(mt: Matching, v: Vec) {
    forall l, l' :: l in v && l' in v && Shape(mt, l) == Shape(mt, l') ==> l == l'
  }

  /** The series of the vector with the given shape. */
  ghost function Owner(mt: Matching, v: Vec, p: Labels): (l: Labels)
    requires p in Shapes(mt, v)
    ensures l in v && Shape(mt, l) == p
  {
    var l :| l in v && Shape(mt, l) == p;
    l
  }

  ghost function CombineAt(lib: Lib, op: string, returnBool: bool, mt: Matching, l: Vec, r: Vec, p: Labels): Option<real> {
    if p in Shapes(mt, l) && p in Shapes(mt, r) then
      Combine(lib, op, returnBool, l[Owner(mt, l, p)], r[Owner(mt, r, p)])
    else None
  }

  /** Join of two vectors on their shapes. */
  ghost function Joined(lib: Lib, op: string, returnBool: bool, mt: Matching, l: Vec, r: Vec): Vec {
    map p | p in Shapes(mt, l) && CombineAt(lib, op, returnBool, mt, l, r, p).Some? ::
      CombineAt(lib, op, returnBool, mt, l, r, p).value
  }

  ghost function AndVec(mt: Matching, l: Vec, r: Vec): Vec {
    map k | k in l && Shape(mt, k) in Shapes(mt, r) :: l[k]
  }

  ghost function UnlessVec(mt: Matching, l: Vec, r: Vec): Vec {
    map k | k in l && Shape(mt, k) !in Shapes(mt, r) :: l[k]
  }

  ghost function OrVec(mt: Matching, l: Vec, r: Vec): Vec {
    l + map k | k in r && Shape(mt, k) !in Shapes(mt, l) :: r[k]
  }

  /** The operator on the two vectors of one step; None when a match is ambiguous. */
  ghost function BinaryVec(lib: Lib, op: string, returnBool: bool, mt: Matching, l: Vec, r: Vec): Option<Vec> {
    if op == "and" then Some(AndVec(mt, l, r))
    else if op == "or" then Some(OrVec(mt, l, r))
    else if op == "unless" then Some(UnlessVec(mt, l, r))
    else if Unambiguous(mt, l) && Unambiguous(mt, r) then Some(Joined(lib, op, returnBool, mt, l, r))
    else None
  }

  // ---- Matching keys stand for shapes ----

  ghost function MatchKey(mt: Matching, l: Labels): string {
    KeyOf(l, mt.on, mt.labels)
  }

  lemma SameKeySameShape(mt: Matching, l: Labels, l': Labels)
    requires Clean(l) && Clean(l')
    ensures MatchKey(mt, l) == MatchKey(mt, l') <==> Shape(mt, l) == Shape(mt, l')
  {
    GroupKeyCanonical(l, l', mt.labels, !mt.on);
  }

  ghost predicate CleanVector(v: Vector) {
    forall i :: 0 <= i < |v| ==> Clean(v[i].labels)
  }

  lemma CleanElements(v: Vector)
    requires DistinctVector(v) && CleanVec(VecOf(v))
    ensures CleanVector(v)
  {
    VecOfElements(v);
  }

  /** The keys of a vector, gathered in one pass. */
  ghost predicate IsKeySet(mt: Matching, v: Vector, keys: set<string>) {
    && (forall i :: 0 <= i < |v| ==> MatchKey(mt, v[i].labels) in keys)
    && (forall k :: k in keys ==> exists i :: 0 <= i < |v| && MatchKey(mt, v[i].labels) == k)
  }

  method KeySet(mt: Matching, v: Vector) returns (keys: set<string>)
    ensures IsKeySet(mt, v, keys)
  {
    hide KeyOf;
    keys := {};
    for i := 0 to |v|
      invariant forall j :: 0 <= j < i ==> MatchKey(mt, v[j].labels) in keys
      invariant forall k :: k in keys ==> exists j :: 0 <= j < i && MatchKey(mt, v[j].labels) == k
    {
      var key := MatchingKey(v[i].labels, mt.on, mt.labels);
      assert MatchKey(mt, v[i].labels) == key;
      keys := keys + {key};
    }
  }

  lemma KeySetMeaning(mt: Matching, v: Vector, keys: set<string>, l: Labels)
    requires DistinctVector(v) && CleanVec(VecOf(v)) && Clean(l) && IsKeySet(mt, v, keys)
    ensures MatchKey(mt, l) in keys <==> Shape(mt, l) in Shapes(mt, VecOf(v))
  {
    VecOfElements(v);
    CleanElements(v);
    hide VecOf;
    hide KeyOf;
    if MatchKey(mt, l) in keys {
      var i :| 0 <= i < |v| && MatchKey(mt, v[i].labels) == MatchKey(mt, l);
      SameKeySameShape(mt, l, v[i].labels);
      assert v[i].labels in VecOf(v);
    }
    if Shape(mt, l) in Shapes(mt, VecOf(v)) {
      var l' :| l' in VecOf(v) && Shape(mt, l') == Shape(mt, l);
      SameKeySameShape(mt, l, l');
      var i :| 0 <= i < |v| && v[i].labels == l';
    }
  }

  ghost function KeyFiltered(mt: Matching, m: Vec, keys: set<string>, want: bool): Vec {
    map l | l in m && ((MatchKey(mt, l) in keys) == want) :: m[l]
  }

  lemma KeyFilteredStep(mt: Matching, m: Vec, keys: set<string>, want: bool, l: Labels, x: real)
    requires l !in m
    ensures KeyFiltered(mt, map[], keys, want) == map[]
    ensures KeyFiltered(mt, m[l := x], keys, want)
         == if (MatchKey(mt, l) in keys) == want then KeyFiltered(mt, m, keys, want)[l := x]
            else KeyFiltered(mt, m, keys, want)
    ensures l !in KeyFiltered(mt, m, keys, want)
  {
    hide MatchKey;
  }

  /** The elements whose key is, or is not, in the set, in order. */
  method FilterByKey(mt: Matching, v: Vector, keys: set<string>, want: bool) returns (out: Vector)
    requires DistinctVector(v)
    ensures DistinctVector(out) && VecOf(out) == KeyFiltered(mt, VecOf(v), keys, want)
  {
    out := [];
    assert VecOf(v[..0]) == map[] == KeyFiltered(mt, map[], keys, want);
    hide KeyFiltered;
    hide VecOf;
    hide KeyOf;
    for i := 0 to |v|
      invariant DistinctVector(out)
      invariant VecOf(out) == KeyFiltered(mt, VecOf(v[..i]), keys, want)
    {
      VecOfStep(v, i);
      KeyFilteredStep(mt, VecOf(v[..i]), keys, want, v[i].labels, v[i].v);
      var key := MatchingKey(v[i].labels, mt.on, mt.labels);
      if (key in keys) == want {
        VecOfSnoc(out, v[i]);
        NewElement(out, v[i].labels);
        out := out + [v[i]];
      }
    }
    assert v[..|v|] == v;
  }

  // ---- Set operators ----

  method VectorAnd(lhs: Vector, rhs: Vector, mt: Matching) returns (out: Vector)
    requires DistinctVector(lhs) && DistinctVector(rhs) && CleanVec(VecOf(lhs)) && CleanVec(VecOf(rhs))
    ensures DistinctVector(out) && VecOf(out) == AndVec(mt, VecOf(lhs), VecOf(rhs))
  {
    hide VecOf;
    hide MatchKey;
    hide Shape;
    var rhsSet := KeySet(mt, rhs);
    out := FilterByKey(mt, lhs, rhsSet, true);
    forall l | l in VecOf(lhs) ensures MatchKey(mt, l) in rhsSet <==> Shape(mt, l) in Shapes(mt, VecOf(rhs)) {
      KeySetMeaning(mt, rhs, rhsSet, l);
    }
    hide Shapes;
  }

  method VectorUnless(lhs: Vector, rhs: Vector, mt: Matching) returns (out: Vector)
    requires DistinctVector(lhs) && DistinctVector(rhs) && CleanVec(VecOf(lhs)) && CleanVec(VecOf(rhs))
    ensures DistinctVector(out) && VecOf(out) == UnlessVec(mt, VecOf(lhs), VecOf(rhs))
  {
    hide VecOf;
    hide MatchKey;
    hide Shape;
    var rhsSet := KeySet(mt, rhs);
    out := FilterByKey(mt, lhs, rhsSet, false);
    forall l | l in VecOf(lhs) ensures MatchKey(mt, l) in rhsSet <==> Shape(mt, l) in Shapes(mt, VecOf(rhs)) {
      KeySetMeaning(mt, rhs, rhsSet, l);
    }
    hide Shapes;
  }

  lemma {:induction false} ConcatVec(v: Vector, w: Vector)
    ensures VecOf(v + w) == VecOf(v) + VecOf(w)
  {
    if w == [] {
      assert v + w == v;
    } else {
      var n := |w| - 1;
      ConcatVec(v, w[..n]);
      assert v + w == (v + w[..n]) + [w[n]];
      VecOfSnoc(v + w[..n], w[n]);
    }
  }

  lemma ConcatDistinct(v: Vector, w: Vector)
    requires DistinctVector(v) && DistinctVector(w) && VecOf(v).Keys !! VecOf(w).Keys
    ensures DistinctVector(v + w)
  {
    VecOfElements(v);
    VecOfElements(w);
    hide VecOf;
  }

  method VectorOr(lhs: Vector, rhs: Vector, mt: Matching) returns (out: Vector)
    requires DistinctVector(lhs) && DistinctVector(rhs) && CleanVec(VecOf(lhs)) && CleanVec(VecOf(rhs))
    ensures DistinctVector(out) && VecOf(out) == OrVec(mt, VecOf(lhs), VecOf(rhs))
  {
    hide VecOf;
    hide MatchKey;
    hide Shape;
    var lhsSet := KeySet(mt, lhs);
    var extra := FilterByKey(mt, rhs, lhsSet, false);
    forall l | l in VecOf(rhs) ensures MatchKey(mt, l) in lhsSet <==> Shape(mt, l) in Shapes(mt, VecOf(lhs)) {
      KeySetMeaning(mt, lhs, lhsSet, l);
    }
    assert VecOf(lhs).Keys !! VecOf(extra).Keys by {
      forall l | l in VecOf(lhs) ensures Shape(mt, l) in Shapes(mt, VecOf(lhs)) {
      }
    }
    hide Shapes;
    ConcatVec(lhs, extra);
    ConcatDistinct(lhs, extra);
    out := lhs + extra;
  }
}

/** Vectors and matrices as maps from labels, and the column of a matrix at one time. */
module Columns {
  import opened Types

  /** An instant vector up to order. */
  type Vec = map<Labels, real>

  /** A matrix up to order. */
  type Table = map<Labels, seq<Point>>

  ghost predicate DistinctVector(v: Vector) {
    forall i, j :: 0 <= i < j < |v| ==> v[i].labels != v[j].labels
  }

  ghost predicate DistinctMatrix(m: Matrix) {
    forall i, j :: 0 <= i < j < |m| ==> m[i].labels != m[j].labels
  }

  function VecOf(v: Vector): Vec {
    if v == [] then map[] else VecOf(v[..|v| - 1])[v[|v| - 1].labels := v[|v| - 1].v]
  }

  function TableOf(m: Matrix): Table {
    if m == [] then map[] else TableOf(m[..|m| - 1])[m[|m| - 1].labels := m[|m| - 1].points]
  }

  /** The part of a map that an iteration in arbitrary order has already covered. */
  function Outside<X, Y>(m: map<X, Y>, todo: set<X>): map<X, Y> {
    map x | x in m && x !in todo :: m[x]
  }

  lemma OutsideStep<X, Y>(m: map<X, Y>, todo: set<X>, x: X)
    requires x in todo
    ensures Outside(m, todo - {x}) == if x in m then Outside(m, todo)[x := m[x]] else Outside(m, todo)
  {
  }

  lemma OutsideEnds<X, Y>(m: map<X, Y>, todo: set<X>)
    ensures Outside(m, {}) == m
    ensures m.Keys <= todo ==> Outside(m, todo) == map[]
  {
  }

  lemma {:induction false} VecOfElements(v: Vector)
    requires DistinctVector(v)
    ensures forall i :: 0 <= i < |v| ==> v[i].labels in VecOf(v) && VecOf(v)[v[i].labels] == v[i].v
    ensures forall l :: l in VecOf(v) ==> exists i :: 0 <= i < |v| && v[i].labels == l
  {
    if v != [] {
      VecOfElements(v[..|v| - 1]);
    }
  }

  lemma {:induction false} TableOfElements(m: Matrix)
    requires DistinctMatrix(m)
    ensures forall i :: 0 <= i < |m| ==> m[i].labels in TableOf(m) && TableOf(m)[m[i].labels] == m[i].points
    ensures forall l :: l in TableOf(m) ==> exists i :: 0 <= i < |m| && m[i].labels == l
  {
    if m != [] {
      TableOfElements(m[..|m| - 1]);
    }
  }

  /** One step of a loop over a vector: a new label and its value. */
  lemma VecOfStep(v: Vector, i: nat)
    requires DistinctVector(v) && i < |v|
    ensures v[i].labels in VecOf(v) && VecOf(v)[v[i].labels] == v[i].v
    ensures v[i].labels !in VecOf(v[..i])
    ensures VecOf(v[..i + 1]) == VecOf(v[..i])[v[i].labels := v[i].v]
  {
    hide VecOf;
    var before := v[..i];
    assert v[..i + 1] == before + [v[i]];
    VecOfSnoc(before, v[i]);
    VecOfElements(v);
    VecOfElements(before);
    assert forall j :: 0 <= j < i ==> before[j] == v[j];
  }

  lemma TableOfStep(m: Matrix, i: nat)
    requires DistinctMatrix(m) && i < |m|
    ensures m[i].labels in TableOf(m) && TableOf(m)[m[i].labels] == m[i].points
    ensures m[i].labels !in TableOf(m[..i])
    ensures TableOf(m[..i + 1]) == TableOf(m[..i])[m[i].labels := m[i].points]
  {
    TableOfSnoc(m[..i], m[i]);
    assert m[..i + 1] == m[..i] + [m[i]];
    hide TableOf;
    TableOfElements(m);
    TableOfElements(m[..i]);
  }

  /** A label that is not in the map labels no element. */
  lemma NewElement(vec: Vector, l: Labels)
    requires DistinctVector(vec) && l !in VecOf(vec)
    ensures forall i :: 0 <= i < |vec| ==> vec[i].labels != l
  {
    VecOfElements(vec);
  }

  lemma VecOfSnoc(v: Vector, s: InstantSample)
    ensures VecOf(v + [s]) == VecOf(v)[s.labels := s.v]
  {
    assert (v + [s])[..|v|] == v;
  }

  lemma TableOfSnoc(m: Matrix, s: Series)
    ensures TableOf(m + [s]) == TableOf(m)[s.labels := s.points]
  {
    assert (m + [s])[..|m|] == m;
  }

  // ---- Columns ----

  function PointAt(ps: seq<Point>, t: int): Option<real> {
    if ps == [] then None
    else if ps[0].ts == t then Some(ps[0].v)
    else PointAt(ps[1..], t)
  }

  function Column(tab: Table, t: int): Vec {
    map l | l in tab && PointAt(tab[l], t).Some? :: PointAt(tab[l], t).value
  }

  ghost predicate IncreasingPoints(ps: seq<Point>) {
    forall i, j :: 0 <= i < j < |ps| ==> ps[i].ts < ps[j].ts
  }

  /** Every series has samples, at strictly increasing times. */
  ghost predicate Normal(tab: Table) {
    forall l :: l in tab ==> tab[l] != [] && IncreasingPoints(tab[l])
  }

  lemma {:induction false} PointAtHit(ps: seq<Point>, i: nat)
    requires IncreasingPoints(ps) && i < |ps|
    ensures PointAt(ps, ps[i].ts) == Some(ps[i].v)
  {
    if i > 0 {
      assert ps[0].ts < ps[i].ts;
      PointAtHit(ps[1..], i - 1);
    }
  }

  lemma {:induction false} PointAtMiss(ps: seq<Point>, t: int)
    requires forall i :: 0 <= i < |ps| ==> ps[i].ts != t
    ensures PointAt(ps, t) == None
  {
    if ps != [] {
      PointAtMiss(ps[1..], t);
    }
  }

  lemma {:induction false} PointAtFound(ps: seq<Point>, t: int) returns (i: nat)
    requires PointAt(ps, t).Some?
    ensures i < |ps| && ps[i].ts == t && PointAt(ps, t) == Some(ps[i].v)
  {
    if ps[0].ts == t {
      i := 0;
    } else {
      i := PointAtFound(ps[1..], t);
      i := i + 1;
    }
  }

  lemma {:induction false} PointAtSnoc(ps: seq<Point>, p: Point, t: int)
    requires forall i :: 0 <= i < |ps| ==> ps[i].ts < p.ts
    ensures PointAt(ps + [p], t) == if t == p.ts then Some(p.v) else PointAt(ps, t)
  {
    if ps != [] {
      assert (ps + [p])[1..] == ps[1..] + [p];
      PointAtSnoc(ps[1..], p, t);
    }
  }

  lemma {:induction false} SamePoints(ps: seq<Point>, qs: seq<Point>)
    requires IncreasingPoints(ps) && IncreasingPoints(qs)
    requires forall t :: PointAt(ps, t) == PointAt(qs, t)
    ensures ps == qs
  {
    BothEmpty(ps, qs);
    BothEmpty(qs, ps);
    if ps != [] {
      SameHead(ps, qs);
      var t0 := ps[0].ts;
      forall t ensures PointAt(ps[1..], t) == PointAt(qs[1..], t) {
        assert PointAt(ps, t) == PointAt(qs, t);
        if t == t0 {
          PointAtMiss(ps[1..], t);
          PointAtMiss(qs[1..], t);
        }
      }
      SamePoints(ps[1..], qs[1..]);
      assert ps == [ps[0]] + ps[1..] && qs == [qs[0]] + qs[1..];
    }
  }

  lemma BothEmpty(ps: seq<Point>, qs: seq<Point>)
    requires IncreasingPoints(ps)
    requires forall t :: PointAt(ps, t) == PointAt(qs, t)
    ensures qs == [] ==> ps == []
  {
    if ps != [] {
      PointAtHit(ps, 0);
      assert PointAt(qs, ps[0].ts).Some?;
    }
  }

  lemma SameHead(ps: seq<Point>, qs: seq<Point>)
    requires IncreasingPoints(ps) && IncreasingPoints(qs) && ps != [] && qs != []
    requires forall t :: PointAt(ps, t) == PointAt(qs, t)
    ensures ps[0] == qs[0]
  {
    PointAtHit(ps, 0);
    PointAtHit(qs, 0);
    var i := PointAtFound(qs, ps[0].ts);
    assert PointAt(ps, qs[0].ts) == PointAt(qs, qs[0].ts);
    var j := PointAtFound(ps, qs[0].ts);
    assert qs[0].ts <= qs[i].ts == ps[0].ts;
    assert ps[0].ts <= ps[j].ts == qs[0].ts;
  }

  /** A normal table is determined by its columns: splitting a matrix by step and
      regrouping it by series is a round trip. */
  lemma TableExtensionality(a: Table, b: Table)
    requires Normal(a) && Normal(b)
    requires forall t :: Column(a, t) == Column(b, t)
    ensures a == b
  {
    forall l ensures l in a <==> l in b {
      if l in a {
        PointAtHit(a[l], 0);
        assert l in Column(a, a[l][0].ts);
        assert l in Column(b, a[l][0].ts);
      }
      if l in b {
        PointAtHit(b[l], 0);
        assert l in Column(b, b[l][0].ts);
        assert l in Column(a, b[l][0].ts);
      }
    }
    forall l | l in a ensures a[l] == b[l] {
      forall t ensures PointAt(a[l], t) == PointAt(b[l], t) {
        var ca, cb := Column(a, t), Column(b, t);
        assert ca == cb;
        assert l in ca <==> PointAt(a[l], t).Some?;
        assert l in cb <==> PointAt(b[l], t).Some?;
      }
      SamePoints(a[l], b[l]);
    }
  }

  // ---- Growing a table column by column ----

  ghost predicate AllBefore(tab: Table, t: int) {
    forall l :: l in tab ==> forall i :: 0 <= i < |tab[l]| ==> tab[l][i].ts < t
  }

  function Old(tab: Table, l: Labels): seq<Point> {
    if l in tab then tab[l] else []
  }

  /** The table with the vector `v` appended as its column at `t`. */
  function AppendColumn(tab: Table, t: int, v: Vec): Table {
    map l | l in tab.Keys + v.Keys :: Old(tab, l) + if l in v then [Point(t, v[l])] else []
  }

  lemma AppendColumnMeaning(tab: Table, t: int, v: Vec)
    requires Normal(tab) && AllBefore(tab, t)
    ensures Normal(AppendColumn(tab, t, v))
    ensures forall u :: t < u ==> AllBefore(AppendColumn(tab, t, v), u)
    ensures forall u :: Column(AppendColumn(tab, t, v), u) == if u == t then v else Column(tab, u)
  {
    AppendColumnNormal(tab, t, v);
    hide AppendColumn;
    hide AllBefore;
    hide Normal;
    forall u ensures Column(AppendColumn(tab, t, v), u) == if u == t then v else Column(tab, u) {
      AppendColumnAt(tab, t, v, u);
    }
  }

  lemma AppendColumnNormal(tab: Table, t: int, v: Vec)
    requires Normal(tab) && AllBefore(tab, t)
    ensures Normal(AppendColumn(tab, t, v))
    ensures forall u :: t < u ==> AllBefore(AppendColumn(tab, t, v), u)
  {
  }

  lemma AppendColumnAt(tab: Table, t: int, v: Vec, u: int)
    requires Normal(tab) && AllBefore(tab, t)
    ensures Column(AppendColumn(tab, t, v), u) == if u == t then v else Column(tab, u)
  {
    var tab' := AppendColumn(tab, t, v);
    forall l | l in tab'
      ensures PointAt(tab'[l], u) == if u == t then (if l in v then Some(v[l]) else None) else PointAt(Old(tab, l), u)
    {
      if l in v {
        PointAtSnoc(Old(tab, l), Point(t, v[l]), u);
      } else {
        assert tab'[l] == Old(tab, l);
      }
      if u == t && l !in v {
        PointAtMiss(Old(tab, l), u);
      }
    }
    assert forall l :: l in Column(tab', u) <==> if u == t then l in v else l in Column(tab, u);
  }

  /** Column at the given times and nothing elsewhere. */
  ghost function Columnwise(steps: seq<int>, f: int -> Vec): Table {
    if steps == [] then map[]
    else AppendColumn(Columnwise(steps[..|steps| - 1], f), steps[|steps| - 1], f(steps[|steps| - 1]))
  }

  /** The table built step by step has, at every step, exactly the vector of that step. */
  lemma {:induction false} ColumnwiseMeaning(steps: seq<int>, f: int -> Vec)
    requires IncreasingTimes(steps)
    ensures Normal(Columnwise(steps, f))
    ensures forall t :: (forall i :: 0 <= i < |steps| ==> steps[i] < t) ==> AllBefore(Columnwise(steps, f), t)
    ensures forall t :: Column(Columnwise(steps, f), t) == if t in steps then f(t) else map[]
  {
    if steps != [] {
      var n := |steps| - 1;
      var front, last := steps[..n], steps[n];
      assert steps == front + [last];
      ColumnwiseMeaning(front, f);
      var tab := Columnwise(front, f);
      assert AllBefore(tab, last);
      AppendColumnMeaning(tab, last, f(last));
    }
  }
}

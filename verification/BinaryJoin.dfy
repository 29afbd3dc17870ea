/** One-to-one arithmetic and comparison between two vectors
    (eval/binary.go:78-174, the one-to-one branch). */
module BinaryJoin {
  import opened Types
  import opened Columns
  import opened Plans
  import opened LabelKeys
  import opened Aggregation
  import opened BinaryVectors

  /** The hash map of one side: every element under its key, nothing else. */
  ghost predicate IsSideMap(mt: Matching, v: Vector, side: map<string, InstantSample>) {
    && (forall i :: 0 <= i < |v| ==> MatchKey(mt, v[i].labels) in side && side[MatchKey(mt, v[i].labels)] == v[i])
    && (forall k :: k in side ==> exists i :: 0 <= i < |v| && v[i] == side[k] && MatchKey(mt, v[i].labels) == k)
  }

  lemma DuplicateKey(mt: Matching, v: Vector, i: nat, j: nat)
    requires DistinctVector(v) && CleanVec(VecOf(v)) && i < j < |v|
    requires MatchKey(mt, v[i].labels) == MatchKey(mt, v[j].labels)
    ensures !Unambiguous(mt, VecOf(v))
  {
    VecOfElements(v);
    SameKeySameShape(mt, v[i].labels, v[j].labels);
  }

  lemma SideMapUnambiguous(mt: Matching, v: Vector, side: map<string, InstantSample>)
    requires DistinctVector(v) && CleanVec(VecOf(v)) && IsSideMap(mt, v, side)
    ensures Unambiguous(mt, VecOf(v))
  {
    VecOfElements(v);
    hide VecOf;
    hide MatchKey;
    hide Shape;
    forall l, l' | l in VecOf(v) && l' in VecOf(v) && Shape(mt, l) == Shape(mt, l') ensures l == l' {
      SameKeySameShape(mt, l, l');
      var i :| 0 <= i < |v| && v[i].labels == l;
      var j :| 0 <= j < |v| && v[j].labels == l';
      assert side[MatchKey(mt, l)] == v[i] && side[MatchKey(mt, l')] == v[j];
    }
  }

  /** Builds the hash map, reporting the first duplicate. */
  method BuildSideMap(mt: Matching, v: Vector) returns (r: Option<map<string, InstantSample>>)
    requires DistinctVector(v) && CleanVec(VecOf(v))
    ensures r.Some? <==> Unambiguous(mt, VecOf(v))
    ensures r.Some? ==> IsSideMap(mt, v, r.value)
  {
    hide KeyOf;
    var side: map<string, InstantSample> := map[];
    for i := 0 to |v|
      invariant IsSideMap(mt, v[..i], side)
    {
      var key := MatchingKey(v[i].labels, mt.on, mt.labels);
      if key in side {
        ghost var j :| 0 <= j < |v[..i]| && v[..i][j] == side[key] && MatchKey(mt, v[..i][j].labels) == key;
        DuplicateKey(mt, v, j, i);
        return None;
      }
      SideMapStep(mt, v, i, side);
      side := side[key := v[i]];
    }
    assert v[..|v|] == v;
    SideMapUnambiguous(mt, v, side);
    return Some(side);
  }

  lemma SideMapStep(mt: Matching, v: Vector, i: nat, side: map<string, InstantSample>)
    requires i < |v| && IsSideMap(mt, v[..i], side) && MatchKey(mt, v[i].labels) !in side
    ensures IsSideMap(mt, v[..i + 1], side[MatchKey(mt, v[i].labels) := v[i]])
  {
    hide MatchKey;
    var side' := side[MatchKey(mt, v[i].labels) := v[i]];
    var w := v[..i + 1];
    assert w[..i] == v[..i];
    forall j | 0 <= j < |w| ensures MatchKey(mt, w[j].labels) in side' && side'[MatchKey(mt, w[j].labels)] == w[j] {
      if j < i {
        assert v[..i][j] == w[j];
      }
    }
    forall k | k in side' ensures exists j :: 0 <= j < |w| && w[j] == side'[k] && MatchKey(mt, w[j].labels) == k {
      if k in side {
        var j :| 0 <= j < |v[..i]| && v[..i][j] == side[k] && MatchKey(mt, v[..i][j].labels) == k;
        assert w[j] == side'[k];
      } else {
        assert w[i] == side'[k];
      }
    }
  }

  // ---- Growing the join by one series of the left side ----

  lemma OwnerUnique(mt: Matching, v: Vec, l: Labels)
    requires Unambiguous(mt, v) && l in v
    ensures Shape(mt, l) in Shapes(mt, v) && Owner(mt, v, Shape(mt, l)) == l
  {
  }

  lemma SmallerUnambiguous(mt: Matching, m: Vec, l: Labels, x: real)
    requires l !in m && Unambiguous(mt, m[l := x])
    ensures Unambiguous(mt, m) && Shape(mt, l) !in Shapes(mt, m)
    ensures Shapes(mt, m[l := x]) == Shapes(mt, m) + {Shape(mt, l)}
  {
    hide Shape;
  }

  lemma JoinedElsewhere(lib: Lib, op: string, returnBool: bool, mt: Matching, m: Vec, r: Vec, l: Labels, x: real, p: Labels)
    requires l !in m && Unambiguous(mt, m[l := x]) && p != Shape(mt, l)
    ensures CombineAt(lib, op, returnBool, mt, m[l := x], r, p) == CombineAt(lib, op, returnBool, mt, m, r, p)
  {
    hide Combine;
    SmallerUnambiguous(mt, m, l, x);
    if p in Shapes(mt, m) {
      var o := Owner(mt, m, p);
      OwnerUnique(mt, m[l := x], o);
      OwnerUnique(mt, m, o);
    }
  }

  lemma JoinedHere(lib: Lib, op: string, returnBool: bool, mt: Matching, m: Vec, r: Vec, l: Labels, x: real)
    requires l !in m && Unambiguous(mt, m[l := x])
    ensures var p := Shape(mt, l);
            && CombineAt(lib, op, returnBool, mt, m, r, p) == None
            && CombineAt(lib, op, returnBool, mt, m[l := x], r, p)
            == (if p in Shapes(mt, r) then Combine(lib, op, returnBool, x, r[Owner(mt, r, p)]) else None)
  {
    hide Combine;
    SmallerUnambiguous(mt, m, l, x);
    OwnerUnique(mt, m[l := x], l);
  }

  lemma JoinedAt(lib: Lib, op: string, returnBool: bool, mt: Matching, l: Vec, r: Vec, p: Labels)
    ensures var c := CombineAt(lib, op, returnBool, mt, l, r, p);
            var joined := Joined(lib, op, returnBool, mt, l, r);
            (p in joined <==> c.Some?) && (c.Some? ==> joined[p] == c.value)
  {
    hide Combine;
  }

  lemma ExtendedMap(m: Vec, m': Vec, p: Labels, c: Option<real>)
    requires p !in m && (p in m' <==> c.Some?) && (c.Some? ==> m'[p] == c.value)
    requires forall q :: q != p ==> ((q in m <==> q in m') && (q in m ==> m[q] == m'[q]))
    ensures m' == if c.Some? then m[p := c.value] else m
  {
  }

  lemma JoinedStep(lib: Lib, op: string, returnBool: bool, mt: Matching, m: Vec, r: Vec, l: Labels, x: real)
    requires l !in m && Unambiguous(mt, m[l := x])
    ensures var p := Shape(mt, l);
            var c := if p in Shapes(mt, r) then Combine(lib, op, returnBool, x, r[Owner(mt, r, p)]) else None;
            && p !in Joined(lib, op, returnBool, mt, m, r)
            && Joined(lib, op, returnBool, mt, m[l := x], r)
            == (if c.Some? then Joined(lib, op, returnBool, mt, m, r)[p := c.value] else Joined(lib, op, returnBool, mt, m, r))
  {
    var p := Shape(mt, l);
    var c := if p in Shapes(mt, r) then Combine(lib, op, returnBool, x, r[Owner(mt, r, p)]) else None;
    hide *;
    JoinedHere(lib, op, returnBool, mt, m, r, l, x);
    JoinedAt(lib, op, returnBool, mt, m, r, p);
    JoinedAt(lib, op, returnBool, mt, m[l := x], r, p);
    var joined, joined' := Joined(lib, op, returnBool, mt, m, r), Joined(lib, op, returnBool, mt, m[l := x], r);
    forall q | q != p ensures (q in joined <==> q in joined') && (q in joined ==> joined[q] == joined'[q]) {
      JoinedElsewhere(lib, op, returnBool, mt, m, r, l, x, q);
      JoinedAt(lib, op, returnBool, mt, m, r, q);
      JoinedAt(lib, op, returnBool, mt, m[l := x], r, q);
    }
    ExtendedMap(joined, joined', p, c);
  }

  lemma SideLookup(mt: Matching, rhs: Vector, side: map<string, InstantSample>, l: Labels)
    requires DistinctVector(rhs) && CleanVec(VecOf(rhs)) && Clean(l)
    requires IsSideMap(mt, rhs, side) && Unambiguous(mt, VecOf(rhs))
    ensures MatchKey(mt, l) in side <==> Shape(mt, l) in Shapes(mt, VecOf(rhs))
    ensures MatchKey(mt, l) in side ==>
              VecOf(rhs)[Owner(mt, VecOf(rhs), Shape(mt, l))] == side[MatchKey(mt, l)].v
  {
    KeySetMeaning(mt, rhs, side.Keys, l);
    VecOfElements(rhs);
    hide VecOf;
    hide KeyOf;
    if MatchKey(mt, l) in side {
      var i :| 0 <= i < |rhs| && rhs[i] == side[MatchKey(mt, l)] && MatchKey(mt, rhs[i].labels) == MatchKey(mt, l);
      SameKeySameShape(mt, l, rhs[i].labels);
      OwnerUnique(mt, VecOf(rhs), rhs[i].labels);
    }
  }

  /** The labels of a match: those it was made on, of the base side, overlaid with the
      included labels of the other side. */
  function OutputLabels(mt: Matching, base: Labels, other: Labels, extra: seq<string>): Labels {
    Shape(mt, base) + map k | k in other && k in extra :: other[k]
  }

  lemma NothingIncluded(mt: Matching, base: Labels, other: Labels)
    ensures OutputLabels(mt, base, other, []) == Shape(mt, base)
  {
  }

  lemma IncludeNext(mt: Matching, base: Labels, other: Labels, extra: seq<string>, i: nat)
    requires i < |extra|
    ensures OutputLabels(mt, base, other, extra[..i + 1])
         == if extra[i] in other then OutputLabels(mt, base, other, extra[..i])[extra[i] := other[extra[i]]]
            else OutputLabels(mt, base, other, extra[..i])
  {
    hide Shape;
    assert extra[..i + 1] == extra[..i] + [extra[i]];
  }

  /** buildOutputLabels; the base is the right side of a one-to-many match. */
  method BuildOutputLabels(l: Labels, r: Labels, mt: Matching, oneToMany: bool, extra: seq<string>) returns (out: Labels)
    ensures out == if oneToMany then OutputLabels(mt, r, l, extra) else OutputLabels(mt, l, r, extra)
  {
    var base, other := if oneToMany then r else l, if oneToMany then l else r;
    out := BuildGroupLabels(base, mt.labels, !mt.on);
    NothingIncluded(mt, base, other);
    assert extra[..0] == [] && out == Shape(mt, base);
    hide OutputLabels;
    hide Shape;
    for i := 0 to |extra|
      invariant out == OutputLabels(mt, base, other, extra[..i])
    {
      var k := extra[i];
      IncludeNext(mt, base, other, extra, i);
      if k in other {
        out := out[k := other[k]];
      }
    }
    assert extra[..|extra|] == extra;
  }

  /** The output sample of one left sample, if its key is found and the operator keeps it. */
  ghost function JoinedSample(lib: Lib, op: string, returnBool: bool, mt: Matching, s: InstantSample,
                              side: map<string, InstantSample>): Option<InstantSample> {
    if MatchKey(mt, s.labels) !in side then None
    else
      match Combine(lib, op, returnBool, s.v, side[MatchKey(mt, s.labels)].v)
      case Some(x) => Some(InstantSample(Shape(mt, s.labels), s.t, x))
      case None => None
  }

  lemma JoinIteration(lib: Lib, lhs: Vector, rhs: Vector, side: map<string, InstantSample>, op: string, mt: Matching,
                      returnBool: bool, i: nat, result: Vector)
    requires DistinctVector(lhs) && DistinctVector(rhs) && CleanVec(VecOf(lhs)) && CleanVec(VecOf(rhs))
    requires IsSideMap(mt, rhs, side) && Unambiguous(mt, VecOf(lhs)) && Unambiguous(mt, VecOf(rhs))
    requires i < |lhs| && DistinctVector(result)
    requires VecOf(result) == Joined(lib, op, returnBool, mt, VecOf(lhs[..i]), VecOf(rhs))
    ensures var o := JoinedSample(lib, op, returnBool, mt, lhs[i], side);
            var next := if o.Some? then result + [o.value] else result;
            DistinctVector(next) && VecOf(next) == Joined(lib, op, returnBool, mt, VecOf(lhs[..i + 1]), VecOf(rhs))
  {
    CleanElements(lhs);
    var s, o := lhs[i], JoinedSample(lib, op, returnBool, mt, lhs[i], side);
    assert Clean(s.labels);
    hide VecOf;
    hide MatchKey;
    hide Shape;
    hide Shapes;
    hide Combine;
    hide Joined;
    hide Unambiguous;
    hide IsSideMap;
    hide CleanVec;
    VecOfStep(lhs, i);
    PrefixUnambiguous(mt, lhs, i + 1);
    SideLookup(mt, rhs, side, s.labels);
    JoinedStep(lib, op, returnBool, mt, VecOf(lhs[..i]), VecOf(rhs), s.labels, s.v);
    if o.Some? {
      AppendDistinct(result, o.value);
    }
  }

  /** vectorBinOpWithMap, iterating the left side. */
  method JoinWithMap(lib: Lib, lhs: Vector, ghost rhs: Vector, side: map<string, InstantSample>, op: string, mt: Matching,
                     returnBool: bool) returns (result: Vector)
    requires DistinctVector(lhs) && DistinctVector(rhs) && CleanVec(VecOf(lhs)) && CleanVec(VecOf(rhs))
    requires IsSideMap(mt, rhs, side) && Unambiguous(mt, VecOf(lhs)) && Unambiguous(mt, VecOf(rhs))
    ensures DistinctVector(result)
    ensures VecOf(result) == Joined(lib, op, returnBool, mt, VecOf(lhs), VecOf(rhs))
  {
    result := [];
    NothingJoined(lib, op, returnBool, mt, lhs, VecOf(rhs));
    hide *;
    for i := 0 to |lhs|
      invariant DistinctVector(result)
      invariant VecOf(result) == Joined(lib, op, returnBool, mt, VecOf(lhs[..i]), VecOf(rhs))
    {
      JoinIteration(lib, lhs, rhs, side, op, mt, returnBool, i, result);
      var o := JoinSample(lib, op, returnBool, mt, lhs[i], side);
      if o.Some? {
        result := result + [o.value];
      }
    }
    assert lhs[..|lhs|] == lhs;
  }

  lemma NothingJoined(lib: Lib, op: string, returnBool: bool, mt: Matching, lhs: Vector, r: Vec)
    ensures DistinctVector([]) && VecOf([]) == Joined(lib, op, returnBool, mt, VecOf(lhs[..0]), r)
  {
    assert VecOf(lhs[..0]) == map[];
  }

  method JoinSample(lib: Lib, op: string, returnBool: bool, mt: Matching, s: InstantSample,
                    side: map<string, InstantSample>) returns (o: Option<InstantSample>)
    ensures o == JoinedSample(lib, op, returnBool, mt, s, side)
  {
    hide KeyOf;
    hide Combine;
    var key := MatchingKey(s.labels, mt.on, mt.labels);
    if key !in side {
      return None;
    }
    var val := Combine(lib, op, returnBool, s.v, side[key].v);
    if val.None? {
      return None;
    }
    var out := BuildOutputLabels(s.labels, side[key].labels, mt, false, []);
    NothingIncluded(mt, s.labels, side[key].labels);
    return Some(InstantSample(out, s.t, val.value));
  }

  lemma AppendDistinct(v: Vector, s: InstantSample)
    requires DistinctVector(v) && s.labels !in VecOf(v)
    ensures DistinctVector(v + [s]) && VecOf(v + [s]) == VecOf(v)[s.labels := s.v]
  {
    VecOfSnoc(v, s);
    NewElement(v, s.labels);
  }

  lemma PrefixUnambiguous(mt: Matching, v: Vector, n: nat)
    requires DistinctVector(v) && n <= |v| && Unambiguous(mt, VecOf(v))
    ensures Unambiguous(mt, VecOf(v[..n]))
  {
    VecOfElements(v);
    VecOfElements(v[..n]);
    hide VecOf;
    hide Shape;
    forall l | l in VecOf(v[..n]) ensures l in VecOf(v) {
      var i :| 0 <= i < |v[..n]| && v[..n][i].labels == l;
      assert v[i].labels == l;
    }
  }

  /** VectorBinaryOp, one-to-one: an error exactly when a side is ambiguous, the join of the
      two vectors otherwise. */
  method VectorBinaryOp(lib: Lib, lhs: Vector, rhs: Vector, op: string, mt: Matching, returnBool: bool)
    returns (result: Result<Vector>)
    requires DistinctVector(lhs) && DistinctVector(rhs) && CleanVec(VecOf(lhs)) && CleanVec(VecOf(rhs))
    ensures result.Ok? <==> Unambiguous(mt, VecOf(lhs)) && Unambiguous(mt, VecOf(rhs))
    ensures result.Ok? ==>
              && DistinctVector(result.value)
              && VecOf(result.value) == Joined(lib, op, returnBool, mt, VecOf(lhs), VecOf(rhs))
  {
    hide VecOf;
    hide Unambiguous;
    hide Joined;
    hide IsSideMap;
    hide CleanVec;
    var side := BuildSideMap(mt, rhs);
    if side.None? {
      return Err("multiple matches for labels: grouping labels must ensure unique matches");
    }
    var seen := BuildSideMap(mt, lhs);
    if seen.None? {
      return Err("multiple matches for labels: grouping labels must ensure unique matches");
    }
    var joined := JoinWithMap(lib, lhs, rhs, side.value, op, mt, returnBool);
    return Ok(joined);
  }
}

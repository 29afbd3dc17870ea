/** Reading a matrix time by time with one cursor per series, and the general
    aggregation built on it (eval/evaluator.go:815-874). */
module MatrixColumns {
  import opened Types
  import opened Columns
  import opened Plans
  import opened Aggregation
  import opened VectorAggregation
  import InstantEval
  import LabelKeys
  import SetSum
  import StepFirst

  ghost predicate CleanTable(tab: Table) {
    forall l :: l in tab ==> LabelKeys.Clean(l)
  }

  /** What the series-first loop hands to the aggregation. */
  ghost predicate WellFormed(m: Matrix) {
    DistinctMatrix(m) && Normal(TableOf(m)) && CleanTable(TableOf(m))
  }

  lemma {:induction false} LeastTime(s: set<int>) returns (x: int)
    requires s != {}
    ensures x in s && forall y :: y in s ==> x <= y
    decreases s
  {
    x := SetSum.Pick(s);
    var rest := s - {x};
    assert s == rest + {x};
    if rest != {} {
      var y := LeastTime(rest);
      x := if y < x then y else x;
    }
  }

  /** The timestamps of the set in ascending order (the library slices.Sort). */
  method SortTimes(s: set<int>) returns (ts: seq<int>)
    ensures IncreasingTimes(ts) && forall t :: t in ts <==> t in s
  {
    ts := [];
    var todo := s;
    while todo != {}
      invariant todo <= s && IncreasingTimes(ts)
      invariant forall t :: t in s <==> t in ts || t in todo
      invariant forall t, u :: t in ts && u in todo ==> t < u
      decreases todo
    {
      ghost var least := LeastTime(todo);
      assert least in todo;
      var x :| x in todo && forall y :: y in todo ==> x <= y;
      assert forall i :: 0 <= i < |ts| ==> ts[i] in ts && ts[i] < x;
      todo := todo - {x};
      ts := ts + [x];
    }
  }

  /** All timestamps of a matrix, ascending. */
  method CollectTimestamps(m: Matrix) returns (ts: seq<int>)
    requires DistinctMatrix(m)
    ensures IncreasingTimes(ts)
    ensures forall l :: l in TableOf(m) ==> forall k :: 0 <= k < |TableOf(m)[l]| ==> TableOf(m)[l][k].ts in ts
    ensures forall t :: t in ts ==> SampledAt(TableOf(m), t)
  {
    var tsSet: set<int> := {};
    TableOfElements(m);
    hide TableOf;
    for i := 0 to |m|
      invariant forall j, k :: 0 <= j < i && 0 <= k < |m[j].points| ==> m[j].points[k].ts in tsSet
      invariant forall t :: t in tsSet ==> SampledAt(TableOf(m), t)
    {
      for n := 0 to |m[i].points|
        invariant forall j, k :: 0 <= j < i && 0 <= k < |m[j].points| ==> m[j].points[k].ts in tsSet
        invariant forall k :: 0 <= k < n ==> m[i].points[k].ts in tsSet
        invariant forall t :: t in tsSet ==> SampledAt(TableOf(m), t)
      {
        assert TableOf(m)[m[i].labels] == m[i].points;
        tsSet := tsSet + {m[i].points[n].ts};
      }
    }
    ts := SortTimes(tsSet);
  }

  /** Some series has a sample at the time. */
  ghost predicate SampledAt(tab: Table, t: int) {
    exists l, k :: l in tab && 0 <= k < |tab[l]| && tab[l][k].ts == t
  }

  lemma EmptyElsewhere(tab: Table, ts: seq<int>, t: int)
    requires forall l :: l in tab ==> forall k :: 0 <= k < |tab[l]| ==> tab[l][k].ts in ts
    requires t !in ts
    ensures Column(tab, t) == map[]
  {
    forall l | l in tab ensures PointAt(tab[l], t) == None {
      PointAtMiss(tab[l], t);
    }
  }

  // ---- Cursors ----

  ghost predicate Passed(ps: seq<Point>, c: nat, t: int) {
    c <= |ps| && forall k :: 0 <= k < c ==> ps[k].ts < t
  }

  ghost predicate CursorsPassed(m: Matrix, cursors: seq<nat>, t: int) {
    |cursors| == |m| && forall i :: 0 <= i < |m| ==> Passed(m[i].points, cursors[i], t)
  }

  /** The cursors while the series are visited at `t`: the first `i` are past it. */
  ghost predicate CursorsAt(m: Matrix, cursors: seq<nat>, i: nat, t: int) {
    && |cursors| == |m|
    && (forall j :: 0 <= j < i && j < |m| ==> Passed(m[j].points, cursors[j], t + 1))
    && (forall j :: i <= j < |m| ==> Passed(m[j].points, cursors[j], t))
  }

  lemma CursorsEnds(m: Matrix, cursors: seq<nat>, t: int)
    ensures CursorsAt(m, cursors, 0, t) <==> CursorsPassed(m, cursors, t)
    ensures CursorsAt(m, cursors, |m|, t) <==> CursorsPassed(m, cursors, t + 1)
  {
  }

  lemma CursorsStep(m: Matrix, cursors: seq<nat>, i: nat, t: int, c: nat)
    requires i < |m| && CursorsAt(m, cursors, i, t) && Passed(m[i].points, c, t)
    ensures c <= |m[i].points| && CursorsAt(m, cursors[i := c], i + 1, t)
    ensures c < |m[i].points| && m[i].points[c].ts == t ==> CursorsAt(m, cursors[i := c + 1], i + 1, t)
  {
  }

  /** Moves a cursor to the first sample at or after `t`: it then points at the sample at
      `t`, if the series has one. */
  method Seek(ps: seq<Point>, c: nat, t: int) returns (c': nat)
    requires IncreasingPoints(ps) && Passed(ps, c, t)
    ensures Passed(ps, c', t)
    ensures PointAt(ps, t) == if c' < |ps| && ps[c'].ts == t then Some(ps[c'].v) else None
  {
    c' := c;
    while c' < |ps| && ps[c'].ts < t
      invariant Passed(ps, c', t)
    {
      c' := c' + 1;
    }
    if c' < |ps| && ps[c'].ts == t {
      PointAtHit(ps, c');
    } else {
      PointAtMiss(ps, t);
    }
  }

  lemma ColumnSnoc(tab: Table, l: Labels, ps: seq<Point>, t: int)
    requires l !in tab
    ensures Column(tab[l := ps], t)
         == if PointAt(ps, t).Some? then Column(tab, t)[l := PointAt(ps, t).value] else Column(tab, t)
  {
  }

  /** The vector grows with the column of the series visited. */
  lemma ColumnStep(m: Matrix, i: nat, t: int, vec: Vector)
    requires i < |m| && DistinctMatrix(m) && Normal(TableOf(m))
    requires DistinctVector(vec) && AllAt(vec, t) && VecOf(vec) == Column(TableOf(m[..i]), t)
    ensures IncreasingPoints(m[i].points)
    ensures match PointAt(m[i].points, t)
            case None => VecOf(vec) == Column(TableOf(m[..i + 1]), t)
            case Some(v) =>
              var vec' := vec + [InstantSample(m[i].labels, t, v)];
              DistinctVector(vec') && AllAt(vec', t) && VecOf(vec') == Column(TableOf(m[..i + 1]), t)
  {
    TableOfStep(m, i);
    ColumnSnoc(TableOf(m[..i]), m[i].labels, m[i].points, t);
    if PointAt(m[i].points, t).Some? {
      NewElement(vec, m[i].labels);
      VecOfSnoc(vec, InstantSample(m[i].labels, t, PointAt(m[i].points, t).value));
    }
  }

  /** The vector of all samples at `t`; the cursors never move back. */
  method ColumnVector(m: Matrix, cursors: seq<nat>, t: int) returns (vec: Vector, cursors': seq<nat>)
    requires DistinctMatrix(m) && Normal(TableOf(m)) && CursorsPassed(m, cursors, t)
    ensures CursorsPassed(m, cursors', t + 1)
    ensures DistinctVector(vec) && AllAt(vec, t) && VecOf(vec) == Column(TableOf(m), t)
  {
    vec, cursors' := [], cursors;
    assert VecOf(vec) == Column(TableOf(m[..0]), t);
    CursorsEnds(m, cursors, t);
    hide CursorsAt;
    for i := 0 to |m|
      invariant |cursors'| == |m| && CursorsAt(m, cursors', i, t)
      invariant i < |m| ==> Passed(m[i].points, cursors'[i], t)
      invariant DistinctVector(vec) && AllAt(vec, t)
      invariant VecOf(vec) == Column(TableOf(m[..i]), t)
    {
      ColumnStep(m, i, t, vec);
      var ps := m[i].points;
      var c := Seek(ps, cursors'[i], t);
      CursorsStep(m, cursors', i, t, c);
      if c < |ps| && ps[c].ts == t {
        vec := vec + [InstantSample(m[i].labels, t, ps[c].v)];
        c := c + 1;
      }
      cursors' := cursors'[i := c];
      CursorsCurrent(m, cursors', i + 1, t);
    }
    CursorsEnds(m, cursors', t);
    assert m[..|m|] == m;
  }

  lemma CursorsCurrent(m: Matrix, cursors: seq<nat>, i: nat, t: int)
    requires CursorsAt(m, cursors, i, t)
    ensures |cursors| == |m| && (i < |m| ==> Passed(m[i].points, cursors[i], t))
  {
  }

  lemma ColumnClean(tab: Table, t: int)
    requires CleanTable(tab)
    ensures CleanVec(Column(tab, t))
  {
  }

  lemma {:induction false} AggregateChainNothing(lib: Lib, chain: seq<AggStep>)
    ensures AggregateChain(lib, map[], chain) == map[]
  {
    if chain != [] {
      AggregateChainNothing(lib, chain[..|chain| - 1]);
      InstantEval.AggregateNothing(lib, chain[|chain| - 1]);
    }
  }

  /** The table `tab'` is `tab` aggregated time by time. */
  ghost predicate IsAggregated(lib: Lib, chain: seq<AggStep>, tab: Table, tab': Table) {
    Normal(tab') && forall t :: Column(tab', t) == AggregateChain(lib, Column(tab, t), chain)
  }

  lemma ColumnwiseAggregates(lib: Lib, chain: seq<AggStep>, tab: Table, ts: seq<int>, f: int -> Vec)
    requires IncreasingTimes(ts)
    requires forall l :: l in tab ==> forall k :: 0 <= k < |tab[l]| ==> tab[l][k].ts in ts
    requires forall t :: f(t) == AggregateChain(lib, Column(tab, t), chain)
    ensures IsAggregated(lib, chain, tab, Columnwise(ts, f))
  {
    ColumnwiseMeaning(ts, f);
    forall t | t !in ts ensures AggregateChain(lib, Column(tab, t), chain) == map[] {
      EmptyElsewhere(tab, ts, t);
      AggregateChainNothing(lib, chain);
    }
  }

  /** aggregateMatrixSlow: builds the vector of every timestamp and runs the whole chain on
      it. */
  method AggregateMatrixSlow(lib: Lib, m: Matrix, chain: seq<AggStep>) returns (result: Matrix)
    requires WellFormed(m)
    ensures DistinctMatrix(result) && IsAggregated(lib, chain, TableOf(m), TableOf(result))
  {
    ghost var tab := TableOf(m);
    ghost var f := (t: int) => AggregateChain(lib, Column(tab, t), chain);
    var ts := CollectTimestamps(m);
    var cursors: seq<nat> := seq(|m|, i => 0);
    var acc: Table := map[];
    hide AggregateChain;
    for k := 0 to |ts|
      invariant k < |ts| ==> CursorsPassed(m, cursors, ts[k])
      invariant acc == Columnwise(ts[..k], f)
    {
      assert ts[..k + 1][..k] == ts[..k];
      var vec, cursors' := ColumnVector(m, cursors, ts[k]);
      ColumnClean(tab, ts[k]);
      cursors := cursors';
      vec := InstantEval.ApplyAggChain(lib, vec, chain, ts[k]);
      acc := StepFirst.AccumulateStep(acc, ts[k], vec);
    }
    assert ts[..|ts|] == ts;
    ColumnwiseAggregates(lib, chain, tab, ts, f);
    result := StepFirst.ToMatrix(acc);
  }
}

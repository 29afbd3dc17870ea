/** Single-level aggregation of a matrix with group keys computed once per series
    (eval/evaluator.go:634-775). */
module MatrixAggregation {
  import opened Types
  import Reals
  import opened SetSum
  import opened Columns
  import opened Plans
  import opened LabelKeys
  import opened Aggregation
  import opened VectorAggregation
  import opened MatrixColumns
  import InstantEval
  import Variance

  predicate Simple(op: AggOp) {
    op.Sum? || op.Avg? || op.Min? || op.Max? || op.Count? || op.Group?
  }

  /** What is precomputed for each series. */
  datatype Meta = Meta(groupKey: string, groupLabels: Labels)

  /** A group with its value and its number of contributions per timestamp. */
  datatype MGroup = MGroup(labels: Labels, samples: map<int, real>, counts: map<int, nat>)

  // ---- One slot: a group at one timestamp ----

  /** The new value of a slot that holds `v` after `n` contributions. */
  function UpdateSlot(op: AggOp, v: real, n: nat, x: real): real {
    match op
    case Sum => v + x
    case Avg => Variance.WelfordMean(v, (n + 1) as real, x)
    case Min => if n == 0 || x < v then x else v
    case Max => if n == 0 || x > v then x else v
    case Count => (n + 1) as real
    case _ => 1.0
  }

  /** The slot holds the aggregate of the members `s`; the value of an empty slot reads as
      zero. */
  ghost predicate SlotInv(lib: Lib, op: AggOp, m: Vec, s: set<Labels>, v: real, n: nat) {
    && s <= m.Keys
    && n == |s|
    && if s == {} then v == 0.0 else IsAggregate(lib, op, m, s, v)
  }

  lemma MeanFromTimes(v: real, n: real, sum: real)
    requires n > 0.0
    ensures Reals.Times(v, n) == sum <==> v == sum / n
  {
  }

  lemma SlotUpdateMean(lib: Lib, m: Vec, s: set<Labels>, l: Labels, v: real, n: nat)
    requires SlotInv(lib, Avg, m, s, v, n) && l in m && l !in s
    ensures SlotInv(lib, Avg, m, s + {l}, UpdateSlot(Avg, v, n, m[l]), n + 1)
  {
    hide Variance.WelfordMean;
    hide Reals.Times;
    SumOverAdd(m, s, l);
    if s == {} {
      ZeroTimes(0.0);
    } else {
      MeanFromTimes(v, n as real, SumOver(m, s));
    }
    Variance.WelfordStep(v, -Reals.Times(v, SumOver(m, s)), n as real, SumOver(m, s), 0.0, m[l]);
    MeanFromTimes(Variance.WelfordMean(v, (n + 1) as real, m[l]), (n + 1) as real, SumOver(m, s + {l}));
  }

  lemma SlotUpdateExtreme(lib: Lib, op: AggOp, m: Vec, s: set<Labels>, l: Labels, v: real, n: nat)
    requires op.Min? || op.Max?
    requires SlotInv(lib, op, m, s, v, n) && l in m && l !in s
    ensures SlotInv(lib, op, m, s + {l}, UpdateSlot(op, v, n, m[l]), n + 1)
  {
    hide IsLeast;
    hide IsGreatest;
    if op.Min? {
      LeastAdd(m, s, l, v);
    } else {
      GreatestAdd(m, s, l, v);
    }
  }

  lemma SlotUpdate(lib: Lib, op: AggOp, m: Vec, s: set<Labels>, l: Labels, v: real, n: nat)
    requires Simple(op) && SlotInv(lib, op, m, s, v, n) && l in m && l !in s
    ensures SlotInv(lib, op, m, s + {l}, UpdateSlot(op, v, n, m[l]), n + 1)
  {
    if op.Avg? {
      hide SlotInv;
      SlotUpdateMean(lib, m, s, l, v, n);
    } else if op.Min? || op.Max? {
      hide SlotInv;
      SlotUpdateExtreme(lib, op, m, s, l, v, n);
    } else {
      SumOverAdd(m, s, l);
    }
  }

  // ---- All slots ----

  /** `visited` says which series have contributed at which timestamp. */
  type Visited = map<int, set<Labels>>

  function SampleAt(g: MGroup, t: int): real {
    if t in g.samples then g.samples[t] else 0.0
  }

  function CountAt(g: MGroup, t: int): nat {
    if t in g.counts then g.counts[t] else 0
  }

  ghost predicate SlotsInv(lib: Lib, step: AggStep, tab: Table, visited: Visited, g: MGroup, key: string) {
    && (forall t :: t in g.samples ==> t in visited && KeyMembers(step, visited[t], key) != {})
    && (forall t :: t in visited && KeyMembers(step, visited[t], key) != {} ==> t in g.samples)
    && (forall t :: t in visited ==>
          SlotInv(lib, step.op, Column(tab, t), KeyMembers(step, visited[t], key), SampleAt(g, t), CountAt(g, t)))
  }

  ghost predicate GroupInv(lib: Lib, step: AggStep, tab: Table, visited: Visited, g: MGroup, key: string) {
    && g.samples != map[]
    && g.samples.Keys == g.counts.Keys
    && (exists l :: l in tab && Key(step, l) == key && g.labels == GroupLabels(l, step.grouping, step.without))
    && SlotsInv(lib, step, tab, visited, g, key)
  }

  ghost predicate TableGroups(lib: Lib, step: AggStep, tab: Table, visited: Visited, groups: map<string, MGroup>,
                              order: seq<string>) {
    && Distinct(order)
    && (forall k :: k in groups <==> k in order)
    && (forall t :: t in visited ==> forall l :: l in visited[t] ==> Key(step, l) in groups)
    && (forall k :: k in groups ==> GroupInv(lib, step, tab, visited, groups[k], k))
  }

  /** The group after one more contribution at `t`. */
  function VisitSlot(op: AggOp, g: MGroup, t: int, x: real): MGroup {
    g.(samples := g.samples[t := UpdateSlot(op, SampleAt(g, t), CountAt(g, t), x)],
       counts := g.counts[t := CountAt(g, t) + 1])
  }

  function GroupOrNew(groups: map<string, MGroup>, meta: Meta): MGroup {
    if meta.groupKey in groups then groups[meta.groupKey] else MGroup(meta.groupLabels, map[], map[])
  }

  function MetaOf(step: AggStep, l: Labels, key: string): Meta {
    Meta(key, GroupLabels(l, step.grouping, step.without))
  }

  function Visit'(visited: Visited, t: int, l: Labels): Visited {
    visited[t := (if t in visited then visited[t] else {}) + {l}]
  }

  lemma VisitKeepsSlots(lib: Lib, step: AggStep, tab: Table, visited: Visited, g: MGroup, key: string, t: int, l: Labels)
    requires Simple(step.op) && SlotsInv(lib, step, tab, visited, g, key)
    requires t in visited && l in Column(tab, t) && l !in visited[t] && Key(step, l) == key
    ensures SlotsInv(lib, step, tab, Visit'(visited, t, l), VisitSlot(step.op, g, t, Column(tab, t)[l]), key)
  {
    hide SlotInv;
    hide UpdateSlot;
    hide KeyOf;
    var was := KeyMembers(step, visited[t], key);
    var visited' := Visit'(visited, t, l);
    assert KeyMembers(step, visited'[t], key) == was + {l};
    SlotInvCount(lib, step.op, Column(tab, t), was, SampleAt(g, t), CountAt(g, t));
    SlotUpdate(lib, step.op, Column(tab, t), was, l, SampleAt(g, t), CountAt(g, t));
  }

  lemma SlotInvCount(lib: Lib, op: AggOp, m: Vec, s: set<Labels>, v: real, n: nat)
    requires SlotInv(lib, op, m, s, v, n)
    ensures s <= m.Keys
  {
  }

  lemma OtherSlots(lib: Lib, step: AggStep, tab: Table, visited: Visited, g: MGroup, key: string, t: int, l: Labels)
    requires SlotsInv(lib, step, tab, visited, g, key)
    requires t in visited && Key(step, l) != key
    ensures SlotsInv(lib, step, tab, Visit'(visited, t, l), g, key)
  {
    hide SlotInv;
    hide KeyOf;
    var visited' := Visit'(visited, t, l);
    forall u | u in visited ensures KeyMembers(step, visited'[u], key) == KeyMembers(step, visited[u], key) {
    }
  }

  lemma NewSlots(lib: Lib, step: AggStep, tab: Table, visited: Visited, groups: map<string, MGroup>, order: seq<string>,
                 labels: Labels, key: string)
    requires TableGroups(lib, step, tab, visited, groups, order) && key !in groups
    ensures SlotsInv(lib, step, tab, visited, MGroup(labels, map[], map[]), key)
  {
    hide KeyOf;
    hide IsAggregate;
    forall t | t in visited ensures KeyMembers(step, visited[t], key) == {} {
    }
  }

  lemma VisitedGroup(lib: Lib, step: AggStep, tab: Table, visited: Visited, groups: map<string, MGroup>,
                     order: seq<string>, t: int, l: Labels)
    requires Simple(step.op) && TableGroups(lib, step, tab, visited, groups, order)
    requires t in visited && l in Column(tab, t) && l !in visited[t]
    ensures var key := Key(step, l);
            var g := GroupOrNew(groups, MetaOf(step, l, key));
            GroupInv(lib, step, tab, Visit'(visited, t, l), VisitSlot(step.op, g, t, Column(tab, t)[l]), key)
  {
    var key := Key(step, l);
    var g := GroupOrNew(groups, MetaOf(step, l, key));
    if key !in groups {
      NewSlots(lib, step, tab, visited, groups, order, g.labels, key);
    }
    VisitKeepsSlots(lib, step, tab, visited, g, key, t, l);
    assert l in tab;
    assert t in VisitSlot(step.op, g, t, Column(tab, t)[l]).samples;
  }

  lemma UnvisitedGroup(lib: Lib, step: AggStep, tab: Table, visited: Visited, g: MGroup, key: string, t: int, l: Labels)
    requires GroupInv(lib, step, tab, visited, g, key)
    requires t in visited && Key(step, l) != key
    ensures GroupInv(lib, step, tab, Visit'(visited, t, l), g, key)
  {
    OtherSlots(lib, step, tab, visited, g, key, t, l);
  }

  /** One contribution keeps every slot in step with the series visited. */
  lemma VisitKeepsTable(lib: Lib, step: AggStep, tab: Table, visited: Visited, groups: map<string, MGroup>,
                        order: seq<string>, t: int, l: Labels)
    requires Simple(step.op) && TableGroups(lib, step, tab, visited, groups, order)
    requires t in visited && l in Column(tab, t) && l !in visited[t]
    ensures var key := Key(step, l);
            var g := GroupOrNew(groups, MetaOf(step, l, key));
            TableGroups(lib, step, tab, Visit'(visited, t, l), groups[key := VisitSlot(step.op, g, t, Column(tab, t)[l])],
                        if key in groups then order else order + [key])
  {
    hide GroupInv;
    hide VisitSlot;
    hide KeyOf;
    hide GroupOrNew;
    var key := Key(step, l);
    VisitedGroup(lib, step, tab, visited, groups, order, t, l);
    forall k | k in groups && k != key ensures GroupInv(lib, step, tab, Visit'(visited, t, l), groups[k], k) {
      UnvisitedGroup(lib, step, tab, visited, groups[k], k, t, l);
    }
  }

  lemma NextTime(lib: Lib, step: AggStep, tab: Table, visited: Visited, groups: map<string, MGroup>, order: seq<string>, t: int)
    requires TableGroups(lib, step, tab, visited, groups, order) && t !in visited
    ensures TableGroups(lib, step, tab, visited[t := {}], groups, order)
  {
    hide SlotsInv;
    hide KeyOf;
    forall k | k in groups ensures SlotsInv(lib, step, tab, visited[t := {}], groups[k], k) {
      assert GroupInv(lib, step, tab, visited, groups[k], k);
      assert t !in groups[k].counts by {
        NotSampledYet(lib, step, tab, visited, groups[k], k, t);
      }
      NextTimeSlots(lib, step, tab, visited, groups[k], k, t);
    }
  }

  lemma NotSampledYet(lib: Lib, step: AggStep, tab: Table, visited: Visited, g: MGroup, key: string, t: int)
    requires GroupInv(lib, step, tab, visited, g, key) && t !in visited
    ensures t !in g.counts
  {
    assert t !in g.samples.Keys;
  }

  lemma NextTimeSlots(lib: Lib, step: AggStep, tab: Table, visited: Visited, g: MGroup, key: string, t: int)
    requires SlotsInv(lib, step, tab, visited, g, key) && t !in visited
    requires t !in g.counts
    ensures SlotsInv(lib, step, tab, visited[t := {}], g, key)
  {
    hide SlotInv;
    hide KeyOf;
    assert KeyMembers(step, {}, key) == {};
    EmptySlot(lib, step.op, Column(tab, t));
  }

  lemma EmptySlot(lib: Lib, op: AggOp, m: Vec)
    ensures SlotInv(lib, op, m, {}, 0.0, 0)
  {
  }

  // ---- Turning the groups into series ----

  function PointsOf(ts: seq<int>, samples: map<int, real>): seq<Point> {
    if ts == [] then []
    else
      var t := ts[|ts| - 1];
      PointsOf(ts[..|ts| - 1], samples) + if t in samples then [Point(t, samples[t])] else []
  }

  lemma {:induction false} PointsOfIncrease(ts: seq<int>, samples: map<int, real>)
    requires IncreasingTimes(ts)
    ensures IncreasingPoints(PointsOf(ts, samples))
    ensures forall i :: 0 <= i < |PointsOf(ts, samples)| ==> PointsOf(ts, samples)[i].ts in ts
  {
    if ts != [] {
      var n := |ts| - 1;
      var front, ps := ts[..n], PointsOf(ts[..n], samples);
      assert ts == front + [ts[n]];
      PointsOfIncrease(front, samples);
      forall i | 0 <= i < |ps| ensures ps[i].ts < ts[n] {
        assert ps[i].ts in front;
      }
    }
  }

  lemma {:induction false} PointsOfAt(ts: seq<int>, samples: map<int, real>, t: int)
    requires IncreasingTimes(ts)
    ensures PointAt(PointsOf(ts, samples), t) == if t in ts && t in samples then Some(samples[t]) else None
  {
    if ts != [] {
      var n := |ts| - 1;
      var front, ps := ts[..n], PointsOf(ts[..n], samples);
      assert ts == front + [ts[n]];
      PointsOfIncrease(front, samples);
      PointsOfAt(front, samples, t);
      if ts[n] in samples {
        forall i | 0 <= i < |ps| ensures ps[i].ts < ts[n] {
          assert ps[i].ts in front;
        }
        PointAtSnoc(ps, Point(ts[n], samples[ts[n]]), t);
      } else {
        assert PointsOf(ts, samples) == ps;
      }
    }
  }

  function ToSeries(g: MGroup, ts: seq<int>): Series {
    Series(g.labels, PointsOf(ts, g.samples))
  }

  /** The finished groups as series, in order of first appearance. */
  ghost predicate Finished(groups: map<string, MGroup>, order: seq<string>, ts: seq<int>, result: Matrix)
    requires forall k :: k in order ==> k in groups
  {
    |result| == |order| && forall i :: 0 <= i < |order| ==> result[i] == ToSeries(groups[order[i]], ts)
  }

  /** Every series has contributed at every timestamp it has a sample at. */
  ghost predicate AllVisited(tab: Table, visited: Visited, ts: seq<int>) {
    && (forall t :: t in visited <==> t in ts)
    && (forall t :: t in visited ==> visited[t] == Column(tab, t).Keys)
  }

  lemma GroupMembers(step: AggStep, tab: Table, labels: Labels, key: string, m: Vec)
    requires CleanTable(tab) && m.Keys <= tab.Keys
    requires exists l :: l in tab && Key(step, l) == key && labels == GroupLabels(l, step.grouping, step.without)
    ensures Members(m, step, labels) == KeyMembers(step, m.Keys, key)
  {
    hide KeyOf;
    var l0 :| l0 in tab && Key(step, l0) == key && labels == GroupLabels(l0, step.grouping, step.without);
    forall l | l in m ensures Key(step, l) == key <==> GroupLabels(l, step.grouping, step.without) == labels {
      GroupKeyCanonical(l, l0, step.grouping, step.without);
    }
  }

  lemma GroupOfSeries(lib: Lib, step: AggStep, tab: Table, visited: Visited, g: MGroup, key: string, t: int)
    requires CleanTable(tab) && GroupInv(lib, step, tab, visited, g, key)
    requires t in visited && visited[t] == Column(tab, t).Keys
    ensures t in g.samples <==> g.labels in Groups(Column(tab, t), step)
    ensures t in g.samples ==>
              && Members(Column(tab, t), step, g.labels) != {}
              && g.samples[t] == Aggregate(lib, step.op, Column(tab, t), Members(Column(tab, t), step, g.labels))
  {
    var m := Column(tab, t);
    GroupMembers(step, tab, g.labels, key, m);
    GroupHasMembers(m, step, g.labels);
    assert SlotInv(lib, step.op, m, KeyMembers(step, visited[t], key), SampleAt(g, t), CountAt(g, t));
    hide KeyMembers;
    hide Members;
    hide Groups;
    if t in g.samples {
      SlotAggregate(lib, step.op, m, Members(m, step, g.labels), g.samples[t], CountAt(g, t));
    }
  }

  lemma SlotAggregate(lib: Lib, op: AggOp, m: Vec, s: set<Labels>, v: real, n: nat)
    requires SlotInv(lib, op, m, s, v, n) && s != {}
    ensures s <= m.Keys && v == Aggregate(lib, op, m, s)
  {
    AggregateUnique(lib, op, m, s, v);
  }

  lemma DistinctGroups(lib: Lib, step: AggStep, tab: Table, visited: Visited, groups: map<string, MGroup>,
                       order: seq<string>, ts: seq<int>, result: Matrix)
    requires CleanTable(tab) && TableGroups(lib, step, tab, visited, groups, order)
    requires Finished(groups, order, ts, result)
    ensures DistinctMatrix(result)
  {
    hide SlotsInv;
    hide KeyOf;
    hide PointsOf;
    forall i, j | 0 <= i < j < |result| ensures result[i].labels != result[j].labels {
      var g, h := groups[order[i]], groups[order[j]];
      var l :| l in tab && Key(step, l) == order[i] && g.labels == GroupLabels(l, step.grouping, step.without);
      var k :| k in tab && Key(step, k) == order[j] && h.labels == GroupLabels(k, step.grouping, step.without);
      GroupKeyCanonical(l, k, step.grouping, step.without);
    }
  }

  lemma FinishedSeries(lib: Lib, step: AggStep, tab: Table, visited: Visited, groups: map<string, MGroup>,
                       order: seq<string>, ts: seq<int>, result: Matrix, i: nat)
    requires IncreasingTimes(ts) && TableGroups(lib, step, tab, visited, groups, order)
    requires AllVisited(tab, visited, ts) && Finished(groups, order, ts, result) && i < |result|
    ensures result[i].points != [] && IncreasingPoints(result[i].points)
    ensures forall t :: PointAt(result[i].points, t)
                     == if t in groups[order[i]].samples then Some(groups[order[i]].samples[t]) else None
  {
    hide SlotInv;
    hide KeyOf;
    var g := groups[order[i]];
    PointsOfIncrease(ts, g.samples);
    forall t ensures PointAt(result[i].points, t) == if t in g.samples then Some(g.samples[t]) else None {
      PointsOfAt(ts, g.samples, t);
    }
    var t := Pick(g.samples.Keys);
    assert PointAt(result[i].points, t).Some?;
  }

  /** Series `i` has a sample at `t` iff its group has members then, and it is their
      aggregate. */
  lemma FinishedPoint(lib: Lib, step: AggStep, tab: Table, visited: Visited, groups: map<string, MGroup>,
                      order: seq<string>, ts: seq<int>, result: Matrix, t: int, i: nat)
    requires IncreasingTimes(ts) && CleanTable(tab) && TableGroups(lib, step, tab, visited, groups, order)
    requires AllVisited(tab, visited, ts) && Finished(groups, order, ts, result) && i < |result|
    requires t in ts
    ensures var out := AggregateVec(lib, Column(tab, t), step);
            PointAt(result[i].points, t) == (if result[i].labels in out then Some(out[result[i].labels]) else None)
  {
    FinishedSeries(lib, step, tab, visited, groups, order, ts, result, i);
    GroupOfSeries(lib, step, tab, visited, groups[order[i]], order[i], t);
  }

  lemma FinishedColumn(lib: Lib, step: AggStep, tab: Table, visited: Visited, groups: map<string, MGroup>,
                       order: seq<string>, ts: seq<int>, result: Matrix, t: int)
    requires IncreasingTimes(ts) && CleanTable(tab) && TableGroups(lib, step, tab, visited, groups, order)
    requires AllVisited(tab, visited, ts) && Finished(groups, order, ts, result) && DistinctMatrix(result)
    requires t in ts
    ensures Column(TableOf(result), t) == AggregateVec(lib, Column(tab, t), step)
  {
    TableOfElements(result);
    var out := AggregateVec(lib, Column(tab, t), step);
    assert forall g :: g in out ==> g in Groups(Column(tab, t), step);
    hide *;
    forall i | 0 <= i < |result|
      ensures PointAt(result[i].points, t)
           == if result[i].labels in out then Some(out[result[i].labels]) else None
    {
      FinishedPoint(lib, step, tab, visited, groups, order, ts, result, t, i);
    }
    forall g | g in out ensures exists i :: 0 <= i < |result| && result[i].labels == g {
      var i := SeriesOfGroup(lib, step, tab, visited, groups, order, ts, result, t, g);
    }
    ColumnFromSeries(result, t, out);
  }

  lemma ColumnFromSeries(result: Matrix, t: int, out: Vec)
    requires DistinctMatrix(result)
    requires forall i :: 0 <= i < |result| ==>
               PointAt(result[i].points, t) == if result[i].labels in out then Some(out[result[i].labels]) else None
    requires forall g :: g in out ==> exists i :: 0 <= i < |result| && result[i].labels == g
    ensures Column(TableOf(result), t) == out
  {
    TableOfElements(result);
    hide TableOf;
    var col := Column(TableOf(result), t);
    forall g | g in out ensures g in col && col[g] == out[g] {
      var i :| 0 <= i < |result| && result[i].labels == g;
      assert TableOf(result)[result[i].labels] == result[i].points;
    }
    forall g | g in col ensures g in out {
      var i :| 0 <= i < |result| && result[i].labels == g;
      assert TableOf(result)[result[i].labels] == result[i].points;
    }
  }

  lemma SeriesOfGroup(lib: Lib, step: AggStep, tab: Table, visited: Visited, groups: map<string, MGroup>,
                      order: seq<string>, ts: seq<int>, result: Matrix, t: int, g: Labels) returns (i: nat)
    requires CleanTable(tab) && TableGroups(lib, step, tab, visited, groups, order)
    requires AllVisited(tab, visited, ts) && Finished(groups, order, ts, result)
    requires t in ts && g in Groups(Column(tab, t), step)
    ensures i < |result| && result[i].labels == g
  {
    hide SlotsInv;
    hide KeyOf;
    hide PointsOf;
    var l :| l in Column(tab, t) && GroupLabels(l, step.grouping, step.without) == g;
    assert Key(step, l) in order;
    i :| 0 <= i < |order| && order[i] == Key(step, l);
    var l0 :| l0 in tab && Key(step, l0) == order[i]
              && groups[order[i]].labels == GroupLabels(l0, step.grouping, step.without);
    GroupKeyCanonical(l, l0, step.grouping, step.without);
  }

  lemma FinishedNormal(lib: Lib, step: AggStep, tab: Table, visited: Visited, groups: map<string, MGroup>,
                       order: seq<string>, ts: seq<int>, result: Matrix)
    requires IncreasingTimes(ts) && TableGroups(lib, step, tab, visited, groups, order)
    requires AllVisited(tab, visited, ts) && Finished(groups, order, ts, result) && DistinctMatrix(result)
    ensures Normal(TableOf(result))
  {
    TableOfElements(result);
    hide TableOf;
    hide TableGroups;
    hide AllVisited;
    hide PointsOf;
    forall l | l in TableOf(result) ensures TableOf(result)[l] != [] && IncreasingPoints(TableOf(result)[l]) {
      var i :| 0 <= i < |result| && result[i].labels == l;
      FinishedSeries(lib, step, tab, visited, groups, order, ts, result, i);
    }
  }

  /** The finished matrix is the input aggregated time by time. */
  lemma FinishedMatrix(lib: Lib, step: AggStep, tab: Table, visited: Visited, groups: map<string, MGroup>,
                       order: seq<string>, ts: seq<int>, result: Matrix)
    requires IncreasingTimes(ts) && CleanTable(tab) && TableGroups(lib, step, tab, visited, groups, order)
    requires AllVisited(tab, visited, ts) && Finished(groups, order, ts, result)
    requires forall l :: l in tab ==> forall k :: 0 <= k < |tab[l]| ==> tab[l][k].ts in ts
    ensures DistinctMatrix(result) && IsAggregated(lib, [step], tab, TableOf(result))
  {
    hide TableOf;
    hide TableGroups;
    hide AllVisited;
    hide Finished;
    hide Normal;
    hide Column;
    hide AggregateVec;
    hide AggregateChain;
    hide DistinctMatrix;
    DistinctGroups(lib, step, tab, visited, groups, order, ts, result);
    FinishedNormal(lib, step, tab, visited, groups, order, ts, result);
    forall t ensures Column(TableOf(result), t) == AggregateChain(lib, Column(tab, t), [step]) {
      OneStepChain(lib, Column(tab, t), step);
      if t in ts {
        FinishedColumn(lib, step, tab, visited, groups, order, ts, result, t);
      } else {
        FinishedElsewhere(lib, step, tab, visited, groups, order, ts, result, t);
      }
    }
  }

  lemma OneStepChain(lib: Lib, m: Vec, step: AggStep)
    ensures AggregateChain(lib, m, [step]) == AggregateVec(lib, m, step)
  {
    assert [step][..0] == [];
  }

  lemma FinishedElsewhere(lib: Lib, step: AggStep, tab: Table, visited: Visited, groups: map<string, MGroup>,
                          order: seq<string>, ts: seq<int>, result: Matrix, t: int)
    requires IncreasingTimes(ts) && TableGroups(lib, step, tab, visited, groups, order)
    requires AllVisited(tab, visited, ts) && Finished(groups, order, ts, result) && DistinctMatrix(result)
    requires forall l :: l in tab ==> forall k :: 0 <= k < |tab[l]| ==> tab[l][k].ts in ts
    requires t !in ts
    ensures Column(TableOf(result), t) == AggregateVec(lib, Column(tab, t), step) == map[]
  {
    EmptyElsewhere(tab, ts, t);
    InstantEval.AggregateNothing(lib, step);
    TableOfElements(result);
    hide TableOf;
    hide TableGroups;
    hide PointsOf;
    forall l | l in TableOf(result) ensures PointAt(TableOf(result)[l], t) == None {
      var i :| 0 <= i < |result| && result[i].labels == l;
      PointsOfAt(ts, groups[order[i]].samples, t);
    }
  }

  // ---- The program ----

  ghost predicate MetasOf(m: Matrix, step: AggStep, metas: seq<Meta>) {
    |metas| == |m| && forall i :: 0 <= i < |m| ==> metas[i] == MetaOf(step, m[i].labels, Key(step, m[i].labels))
  }

  /** Group keys and group labels, computed once per series. */
  method PrecomputeMetas(m: Matrix, step: AggStep) returns (metas: seq<Meta>)
    ensures MetasOf(m, step, metas)
  {
    metas := [];
    for i := 0 to |m|
      invariant |metas| == i
      invariant forall j :: 0 <= j < i ==> metas[j] == MetaOf(step, m[j].labels, Key(step, m[j].labels))
    {
      var key := MatchingKey(m[i].labels, !step.without, step.grouping);
      var labels := BuildGroupLabels(m[i].labels, step.grouping, step.without);
      metas := metas + [Meta(key, labels)];
    }
  }

  /** The labels of the first `i` series that have a sample at `t`. */
  ghost function Seen(m: Matrix, i: nat, t: int): set<Labels>
    requires i <= |m|
  {
    Column(TableOf(m[..i]), t).Keys
  }

  lemma SeenStep(m: Matrix, i: nat, t: int)
    requires DistinctMatrix(m) && i < |m|
    ensures m[i].labels in TableOf(m) && TableOf(m)[m[i].labels] == m[i].points
    ensures m[i].labels !in Seen(m, i, t)
    ensures PointAt(m[i].points, t).Some? ==>
              && m[i].labels in Column(TableOf(m), t)
              && Column(TableOf(m), t)[m[i].labels] == PointAt(m[i].points, t).value
    ensures Seen(m, i + 1, t) == Seen(m, i, t) + if PointAt(m[i].points, t).Some? then {m[i].labels} else {}
  {
    TableOfStep(m, i);
    hide TableOf;
    hide PointAt;
    ColumnSnoc(TableOf(m[..i]), m[i].labels, m[i].points, t);
  }

  lemma SeenAll(m: Matrix, t: int)
    ensures Seen(m, 0, t) == {} && Seen(m, |m|, t) == Column(TableOf(m), t).Keys
  {
    assert m[..|m|] == m;
  }

  lemma VisitMore(visited: Visited, t: int, seen: set<Labels>, l: Labels)
    ensures Visit'(visited[t := seen], t, l) == visited[t := seen + {l}]
  {
  }

  /** One sample of series `l` at `t` goes to the slot of its group. */
  method Contribute(ghost lib: Lib, step: AggStep, ghost tab: Table, ghost visited: Visited, meta: Meta, t: int,
                    ghost l: Labels, x: real, groups: map<string, MGroup>, order: seq<string>)
    returns (groups': map<string, MGroup>, order': seq<string>)
    requires Simple(step.op) && TableGroups(lib, step, tab, visited, groups, order)
    requires t in visited && l in Column(tab, t) && l !in visited[t] && Column(tab, t)[l] == x
    requires meta == MetaOf(step, l, Key(step, l))
    ensures TableGroups(lib, step, tab, Visit'(visited, t, l), groups', order')
  {
    VisitKeepsTable(lib, step, tab, visited, groups, order, t, l);
    hide TableGroups;
    var g := GroupOrNew(groups, meta);
    order' := if meta.groupKey in groups then order else order + [meta.groupKey];
    groups' := groups[meta.groupKey := VisitSlot(step.op, g, t, x)];
  }

  method ContributeAt(ghost lib: Lib, step: AggStep, ghost tab: Table, ghost visited: Visited, ghost seen: set<Labels>,
                      meta: Meta, t: int, ghost l: Labels, x: real, groups: map<string, MGroup>, order: seq<string>)
    returns (groups': map<string, MGroup>, order': seq<string>)
    requires Simple(step.op) && TableGroups(lib, step, tab, visited[t := seen], groups, order)
    requires l in Column(tab, t) && l !in seen && Column(tab, t)[l] == x
    requires meta == MetaOf(step, l, Key(step, l))
    ensures TableGroups(lib, step, tab, visited[t := seen + {l}], groups', order')
  {
    hide *;
    groups', order' := Contribute(lib, step, tab, visited[t := seen], meta, t, l, x, groups, order);
    VisitMore(visited, t, seen, l);
  }

  /** The inner loop: every series contributes its sample at `t`, if it has one, to the
      slot of its group. */
  method AggregateAt(lib: Lib, m: Matrix, metas: seq<Meta>, step: AggStep, t: int, cursors: seq<nat>,
                     groups: map<string, MGroup>, order: seq<string>, ghost visited: Visited)
    returns (cursors': seq<nat>, groups': map<string, MGroup>, order': seq<string>)
    requires Simple(step.op) && WellFormed(m) && MetasOf(m, step, metas)
    requires CursorsPassed(m, cursors, t) && t !in visited
    requires TableGroups(lib, step, TableOf(m), visited, groups, order)
    ensures CursorsPassed(m, cursors', t + 1)
    ensures TableGroups(lib, step, TableOf(m), visited[t := Column(TableOf(m), t).Keys], groups', order')
  {
    ghost var tab := TableOf(m);
    cursors', groups', order' := cursors, groups, order;
    NextTime(lib, step, tab, visited, groups, order, t);
    ghost var seen: set<Labels> := {};
    SeenAll(m, t);
    SeriesIncrease(m);
    assert forall j :: 0 <= j < |m| ==> metas[j] == MetaOf(step, m[j].labels, Key(step, m[j].labels));
    CursorsEnds(m, cursors, t);
    hide *;
    for i := 0 to |m|
      invariant |cursors'| == |m| && CursorsAt(m, cursors', i, t)
      invariant seen == Seen(m, i, t)
      invariant TableGroups(lib, step, tab, visited[t := seen], groups', order')
    {
      CursorsCurrent(m, cursors', i, t);
      SeenStep(m, i, t);
      var ps := m[i].points;
      var c := Seek(ps, cursors'[i], t);
      CursorsStep(m, cursors', i, t, c);
      if c < |ps| && ps[c].ts == t {
        ghost var l := m[i].labels;
        groups', order' := ContributeAt(lib, step, tab, visited, seen, metas[i], t, l, ps[c].v, groups', order');
        seen := seen + {l};
        c := c + 1;
      }
      cursors' := cursors'[i := c];
    }
    CursorsEnds(m, cursors', t);
  }

  lemma SeriesIncrease(m: Matrix)
    requires WellFormed(m)
    ensures forall j :: 0 <= j < |m| ==> IncreasingPoints(m[j].points)
  {
    TableOfElements(m);
  }

  /** aggregateMatrixSimple: group keys and cursors instead of one grouping per step. */
  method AggregateMatrixSimple(lib: Lib, m: Matrix, metas: seq<Meta>, ts: seq<int>, step: AggStep) returns (result: Matrix)
    requires Simple(step.op) && WellFormed(m) && MetasOf(m, step, metas) && IncreasingTimes(ts)
    requires forall l :: l in TableOf(m) ==> forall k :: 0 <= k < |TableOf(m)[l]| ==> TableOf(m)[l][k].ts in ts
    ensures DistinctMatrix(result) && IsAggregated(lib, [step], TableOf(m), TableOf(result))
  {
    ghost var tab := TableOf(m);
    var groups: map<string, MGroup>, order: seq<string> := map[], [];
    var cursors: seq<nat> := seq(|m|, i => 0);
    ghost var visited: Visited := map[];
    assert TableGroups(lib, step, tab, visited, groups, order);
    hide TableGroups;
    hide TableOf;
    for k := 0 to |ts|
      invariant k < |ts| ==> CursorsPassed(m, cursors, ts[k])
      invariant forall t :: t in visited <==> t in ts[..k]
      invariant forall t :: t in visited ==> visited[t] == Column(tab, t).Keys
      invariant TableGroups(lib, step, tab, visited, groups, order)
    {
      var t := ts[k];
      assert t !in ts[..k] && ts[..k + 1] == ts[..k] + [t];
      cursors, groups, order := AggregateAt(lib, m, metas, step, t, cursors, groups, order, visited);
      visited := visited[t := Column(tab, t).Keys];
    }
    assert ts[..|ts|] == ts;
    result := FinishGroups(lib, step, tab, visited, groups, order, ts);
    FinishedMatrix(lib, step, tab, visited, groups, order, ts, result);
  }

  method FinishGroups(lib: Lib, ghost step: AggStep, ghost tab: Table, ghost visited: Visited, groups: map<string, MGroup>,
                      order: seq<string>, ts: seq<int>) returns (result: Matrix)
    requires TableGroups(lib, step, tab, visited, groups, order)
    ensures Finished(groups, order, ts, result)
  {
    assert forall k :: k in order ==> k in groups;
    hide TableGroups;
    result := FinishEach(groups, order, ts);
  }

  method FinishEach(groups: map<string, MGroup>, order: seq<string>, ts: seq<int>) returns (result: Matrix)
    requires forall k :: k in order ==> k in groups
    ensures Finished(groups, order, ts, result)
  {
    hide PointsOf;
    result := [];
    for i := 0 to |order|
      invariant |result| == i
      invariant forall j :: 0 <= j < i ==> result[j] == ToSeries(groups[order[j]], ts)
    {
      var g := groups[order[i]];
      var points := CollectPoints(ts, g.samples);
      assert Series(g.labels, points) == ToSeries(g, ts);
      hide ToSeries;
      result := result + [Series(g.labels, points)];
    }
  }

  /** The samples of one group in the order of the timestamps. */
  method CollectPoints(ts: seq<int>, samples: map<int, real>) returns (points: seq<Point>)
    ensures points == PointsOf(ts, samples)
  {
    hide PointsOf;
    points := [];
    PointsOfNothing(samples);
    assert ts[..0] == [];
    for n := 0 to |ts|
      invariant points == PointsOf(ts[..n], samples)
    {
      PointsOfStep(ts, n, samples);
      if ts[n] in samples {
        points := points + [Point(ts[n], samples[ts[n]])];
      }
    }
    assert ts[..|ts|] == ts;
  }

  lemma PointsOfNothing(samples: map<int, real>)
    ensures PointsOf([], samples) == []
  {
  }

  lemma PointsOfStep(ts: seq<int>, n: nat, samples: map<int, real>)
    requires n < |ts|
    ensures PointsOf(ts[..n + 1], samples)
         == if ts[n] in samples then PointsOf(ts[..n], samples) + [Point(ts[n], samples[ts[n]])] else PointsOf(ts[..n], samples)
  {
    assert ts[..n + 1][..n] == ts[..n];
    assert PointsOf(ts[..n], samples) + [] == PointsOf(ts[..n], samples);
  }

  /** aggregateMatrix: the pre-keyed form for one simple step, the general form otherwise.
      Either way every column of the result is the aggregated column of the input. */
  method AggregateMatrix(lib: Lib, m: Matrix, chain: seq<AggStep>) returns (result: Matrix)
    requires WellFormed(m) && |chain| > 0
    ensures DistinctMatrix(result) && IsAggregated(lib, chain, TableOf(m), TableOf(result))
  {
    if |chain| > 1 {
      result := AggregateMatrixSlow(lib, m, chain);
      return;
    }
    var step := chain[0];
    var metas := PrecomputeMetas(m, step);
    var ts := CollectTimestamps(m);
    if Simple(step.op) {
      assert chain == [step];
      result := AggregateMatrixSimple(lib, m, metas, ts, step);
    } else {
      result := AggregateMatrixSlow(lib, m, chain);
    }
  }
}

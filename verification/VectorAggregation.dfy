/** The grouping loops of AggregateVector and applyAggChain
    (eval/aggregations.go:18-111, eval/evaluator.go:1264-1291). */
module VectorAggregation {
  import opened Types
  import opened Columns
  import opened Plans
  import opened LabelKeys
  import opened Aggregation

  ghost function Key(step: AggStep, l: Labels): string {
    KeyOf(l, !step.without, step.grouping)
  }

  ghost function KeyMembers(step: AggStep, s: set<Labels>, key: string): set<Labels> {
    set l | l in s && Key(step, l) == key
  }

  ghost predicate Distinct(order: seq<string>) {
    forall i, j :: 0 <= i < j < |order| ==> order[i] != order[j]
  }

  /** The hash map of groups after the series `s` have been visited. */
  ghost predicate GroupsInv(step: AggStep, m: Vec, s: set<Labels>, groups: map<string, Acc>, order: seq<string>) {
    && s <= m.Keys
    && Distinct(order)
    && (forall k :: k in groups <==> k in order)
    && (forall l :: l in s ==> Key(step, l) in groups
                               && groups[Key(step, l)].labels == GroupLabels(l, step.grouping, step.without))
    && (forall k :: k in groups ==> KeyMembers(step, s, k) != {} && AccInv(step.op, groups[k], m, KeyMembers(step, s, k)))
  }

  function Fresh(labels: Labels): Acc {
    Acc(labels, 0, 0.0, 0.0, None, None, 0.0, 0.0, 0)
  }

  /** The record of a group after visiting series `l`. */
  function Visit(step: AggStep, groups: map<string, Acc>, key: string, l: Labels, x: real): Acc {
    Update(step.op, if key in groups then groups[key] else Fresh(GroupLabels(l, step.grouping, step.without)), x)
  }

  lemma VisitAcc(step: AggStep, m: Vec, s: set<Labels>, groups: map<string, Acc>, order: seq<string>, l: Labels)
    requires CleanVec(m) && GroupsInv(step, m, s, groups, order) && l in m && l !in s
    ensures var key := Key(step, l);
            && Visit(step, groups, key, l, m[l]).labels == GroupLabels(l, step.grouping, step.without)
            && AccInv(step.op, Visit(step, groups, key, l, m[l]), m, KeyMembers(step, s + {l}, key))
  {
    hide AccInv;
    hide Update;
    var key := Key(step, l);
    var was := KeyMembers(step, s, key);
    assert KeyMembers(step, s + {l}, key) == was + {l};
    if key in groups {
      var k :| k in was;
      GroupKeyCanonical(k, l, step.grouping, step.without);
      AccUpdate(step.op, groups[key], m, was, l);
    } else {
      var start := Fresh(GroupLabels(l, step.grouping, step.without));
      assert was == {} by {
        assert forall k :: k in s ==> Key(step, k) in groups;
      }
      AccStart(step.op, start.labels, m);
      AccUpdate(step.op, start, m, {}, l);
    }
  }

  /** Visiting one more series keeps the groups in step with the series visited. */
  lemma VisitKeepsGroups(step: AggStep, m: Vec, s: set<Labels>, groups: map<string, Acc>, order: seq<string>, l: Labels)
    requires CleanVec(m) && GroupsInv(step, m, s, groups, order) && l in m && l !in s
    ensures var key := Key(step, l);
            GroupsInv(step, m, s + {l}, groups[key := Visit(step, groups, key, l, m[l])],
                      if key in groups then order else order + [key])
  {
    hide AccInv;
    hide Visit;
    hide KeyOf;
    var key := Key(step, l);
    VisitAcc(step, m, s, groups, order, l);
    var groups' := groups[key := Visit(step, groups, key, l, m[l])];
    forall k | k in groups' ensures KeyMembers(step, s + {l}, k) != {}
                                 && AccInv(step.op, groups'[k], m, KeyMembers(step, s + {l}, k)) {
      if k == key {
        assert l in KeyMembers(step, s + {l}, k);
      } else {
        assert KeyMembers(step, s + {l}, k) == KeyMembers(step, s, k);
      }
    }
    forall k | k in s + {l} && Key(step, k) == key
      ensures GroupLabels(k, step.grouping, step.without) == groups'[key].labels
    {
      GroupKeyCanonical(k, l, step.grouping, step.without);
    }
  }

  /** The sample that a finished group is turned into. */
  function Reply(lib: Lib, step: AggStep, g: Acc, t: int): InstantSample {
    InstantSample(g.labels, t, Report(lib, step.op, g))
  }

  ghost predicate Reported(lib: Lib, step: AggStep, groups: map<string, Acc>, order: seq<string>, t: int, result: Vector)
    requires forall k :: k in order ==> k in groups
  {
    |result| == |order| && forall i :: 0 <= i < |order| ==> result[i] == Reply(lib, step, groups[order[i]], t)
  }

  lemma ReportedElement(lib: Lib, step: AggStep, m: Vec, groups: map<string, Acc>, order: seq<string>,
                        t: int, result: Vector, i: nat)
    requires CleanVec(m) && GroupsInv(step, m, m.Keys, groups, order)
    requires Reported(lib, step, groups, order, t, result) && i < |order|
    ensures var members := Members(m, step, result[i].labels);
            && members == KeyMembers(step, m.Keys, order[i]) != {}
            && result[i].v == Aggregate(lib, step.op, m, members)
            && result[i].labels in Groups(m, step)
  {
    hide AccInv;
    hide Report;
    hide KeyOf;
    var members := KeyMembers(step, m.Keys, order[i]);
    var l :| l in members;
    forall k | k in m
      ensures Key(step, k) == order[i] <==> GroupLabels(k, step.grouping, step.without) == result[i].labels
    {
      GroupKeyCanonical(k, l, step.grouping, step.without);
    }
    assert members == Members(m, step, result[i].labels);
    ReportIsAggregate(lib, step.op, groups[order[i]], m, members);
    GroupHasMembers(m, step, result[i].labels);
  }

  lemma ReportedDistinct(lib: Lib, step: AggStep, m: Vec, groups: map<string, Acc>, order: seq<string>, t: int, result: Vector)
    requires CleanVec(m) && GroupsInv(step, m, m.Keys, groups, order)
    requires Reported(lib, step, groups, order, t, result)
    ensures DistinctVector(result)
  {
    hide AccInv;
    hide Report;
    hide Members;
    hide KeyMembers;
    hide Groups;
    forall i, j | 0 <= i < j < |result| ensures result[i].labels != result[j].labels {
      ReportedElement(lib, step, m, groups, order, t, result, i);
      ReportedElement(lib, step, m, groups, order, t, result, j);
      KeyMembersDisjoint(step, m.Keys, order[i], order[j]);
    }
  }

  lemma ReportedGroup(lib: Lib, step: AggStep, m: Vec, groups: map<string, Acc>, order: seq<string>, t: int, result: Vector,
                      g: Labels) returns (i: nat)
    requires CleanVec(m) && GroupsInv(step, m, m.Keys, groups, order)
    requires Reported(lib, step, groups, order, t, result) && g in Groups(m, step)
    ensures i < |result| && result[i].labels == g
  {
    hide AccInv;
    hide Report;
    hide KeyOf;
    var l :| l in m && GroupLabels(l, step.grouping, step.without) == g;
    assert Key(step, l) in order;
    i :| 0 <= i < |order| && order[i] == Key(step, l);
  }

  lemma ReportedHas(lib: Lib, step: AggStep, m: Vec, groups: map<string, Acc>, order: seq<string>, t: int, result: Vector,
                    g: Labels)
    requires CleanVec(m) && GroupsInv(step, m, m.Keys, groups, order)
    requires Reported(lib, step, groups, order, t, result) && DistinctVector(result)
    requires g in Groups(m, step)
    ensures Members(m, step, g) != {}
    ensures g in VecOf(result) && VecOf(result)[g] == Aggregate(lib, step.op, m, Members(m, step, g))
  {
    VecOfElements(result);
    hide GroupsInv;
    hide Report;
    hide Members;
    hide KeyMembers;
    hide Groups;
    hide VecOf;
    hide Aggregate;
    var i := ReportedGroup(lib, step, m, groups, order, t, result, g);
    ReportedElement(lib, step, m, groups, order, t, result, i);
    assert VecOf(result)[result[i].labels] == result[i].v;
  }

  lemma ReportedOnly(lib: Lib, step: AggStep, m: Vec, groups: map<string, Acc>, order: seq<string>, t: int, result: Vector,
                     g: Labels)
    requires CleanVec(m) && GroupsInv(step, m, m.Keys, groups, order)
    requires Reported(lib, step, groups, order, t, result) && DistinctVector(result)
    requires g in VecOf(result)
    ensures g in Groups(m, step)
  {
    VecOfElements(result);
    hide GroupsInv;
    hide Groups;
    var i :| 0 <= i < |result| && result[i].labels == g;
    ReportedElement(lib, step, m, groups, order, t, result, i);
  }

  /** The reported list is the aggregated vector, one element per group. */
  lemma ReportedVector(lib: Lib, step: AggStep, m: Vec, groups: map<string, Acc>, order: seq<string>, t: int, result: Vector)
    requires CleanVec(m) && GroupsInv(step, m, m.Keys, groups, order)
    requires Reported(lib, step, groups, order, t, result)
    ensures DistinctVector(result) && VecOf(result) == AggregateVec(lib, m, step)
  {
    assert forall g :: Members(m, step, g) <= m.Keys;
    hide *;
    ReportedDistinct(lib, step, m, groups, order, t, result);
    forall g | g in Groups(m, step)
      ensures Members(m, step, g) != {}
      ensures g in VecOf(result) && VecOf(result)[g] == Aggregate(lib, step.op, m, Members(m, step, g))
    {
      ReportedHas(lib, step, m, groups, order, t, result, g);
    }
    forall g | g in VecOf(result) ensures g in Groups(m, step) {
      ReportedOnly(lib, step, m, groups, order, t, result, g);
    }
    AggregatedElements(lib, step, m, VecOf(result));
  }

  /** The aggregated vector by its elements. */
  lemma AggregatedElements(lib: Lib, step: AggStep, m: Vec, v: Vec)
    requires forall g :: g in Groups(m, step) ==>
               && Members(m, step, g) != {}
               && g in v && v[g] == Aggregate(lib, step.op, m, Members(m, step, g))
    requires forall g :: g in v ==> g in Groups(m, step)
    ensures v == AggregateVec(lib, m, step)
  {
    hide Members;
    hide Groups;
    hide Aggregate;
  }

  lemma KeyMembersDisjoint(step: AggStep, s: set<Labels>, k: string, k': string)
    requires k != k' && KeyMembers(step, s, k) != {}
    ensures KeyMembers(step, s, k) != KeyMembers(step, s, k')
  {
    var l :| l in KeyMembers(step, s, k);
    assert l !in KeyMembers(step, s, k');
  }

  /** The timestamp of an aggregated vector: the first one of the input that is not 0. */
  function SampleTime(vec: Vector): int {
    if vec == [] then 0
    else
      var t := SampleTime(vec[..|vec| - 1]);
      if t == 0 then vec[|vec| - 1].t else t
  }

  ghost predicate AllAt(vec: Vector, t: int) {
    forall i :: 0 <= i < |vec| ==> vec[i].t == t
  }

  lemma {:induction false} SampleTimeOfStep(vec: Vector, t: int)
    requires AllAt(vec, t) && vec != []
    ensures SampleTime(vec) == t
  {
    if |vec| > 1 {
      SampleTimeOfStep(vec[..|vec| - 1], t);
    }
  }

  /** The two loops of the program: collect the groups, then report them in order of
      first appearance. */
  method AggregateVector(lib: Lib, vec: Vector, step: AggStep) returns (result: Vector)
    requires DistinctVector(vec) && CleanVec(VecOf(vec))
    ensures DistinctVector(result)
    ensures VecOf(result) == AggregateVec(lib, VecOf(vec), step)
    ensures AllAt(result, SampleTime(vec))
  {
    var groups, order, sampleT := CollectGroups(vec, step);
    assert forall k :: k in order ==> k in groups;
    hide GroupsInv;
    result := ReportGroups(lib, step, groups, order, sampleT);
    ReportedVector(lib, step, VecOf(vec), groups, order, sampleT, result);
  }

  method ReportGroups(lib: Lib, step: AggStep, groups: map<string, Acc>, order: seq<string>, t: int) returns (result: Vector)
    requires forall k :: k in order ==> k in groups
    ensures Reported(lib, step, groups, order, t, result)
  {
    hide Reply;
    result := [];
    for i := 0 to |order|
      invariant |result| == i
      invariant forall j :: 0 <= j < i ==> result[j] == Reply(lib, step, groups[order[j]], t)
    {
      result := result + [Reply(lib, step, groups[order[i]], t)];
    }
  }

  method CollectGroups(vec: Vector, step: AggStep)
    returns (groups: map<string, Acc>, order: seq<string>, sampleT: int)
    requires DistinctVector(vec) && CleanVec(VecOf(vec))
    ensures GroupsInv(step, VecOf(vec), VecOf(vec).Keys, groups, order)
    ensures sampleT == SampleTime(vec)
  {
    ghost var m := VecOf(vec);
    groups, order, sampleT := map[], [], 0;
    NoGroupsYet(step, m);
    assert VecOf(vec[..0]).Keys == {};
    hide *;
    ghost var seen: set<Labels> := {};
    assert SampleTime(vec[..0]) == 0 by { SampleTimeSnoc(vec, 0); }
    for i := 0 to |vec|
      invariant seen == VecOf(vec[..i]).Keys
      invariant GroupsInv(step, m, seen, groups, order)
      invariant sampleT == SampleTime(vec[..i])
    {
      var s := vec[i];
      KeysOfStep(vec, i);
      SampleTimeSnoc(vec, i);
      if sampleT == 0 && s.t != 0 {
        sampleT := s.t;
      }
      var key := MatchingKey(s.labels, !step.without, step.grouping);
      VisitKeepsGroups(step, m, seen, groups, order, s.labels);
      assert key == Key(step, s.labels) by { KeyUnfolded(step, s.labels); }
      if key !in groups {
        order := order + [key];
      }
      groups := groups[key := Visit(step, groups, key, s.labels, s.v)];
      seen := seen + {s.labels};
    }
    assert vec[..|vec|] == vec;
  }

  lemma KeyUnfolded(step: AggStep, l: Labels)
    ensures Key(step, l) == KeyOf(l, !step.without, step.grouping)
  {
  }

  lemma SampleTimeSnoc(vec: Vector, i: nat)
    requires i < |vec| || i == 0
    ensures SampleTime(vec[..0]) == 0
    ensures i < |vec| ==>
              SampleTime(vec[..i + 1]) == if SampleTime(vec[..i]) == 0 then vec[i].t else SampleTime(vec[..i])
  {
    if i < |vec| {
      assert vec[..i + 1][..i] == vec[..i];
    }
  }

  lemma KeysOfStep(vec: Vector, i: nat)
    requires DistinctVector(vec) && i < |vec|
    ensures vec[i].labels in VecOf(vec) && VecOf(vec)[vec[i].labels] == vec[i].v
    ensures vec[i].labels !in VecOf(vec[..i]).Keys
    ensures VecOf(vec[..i + 1]).Keys == VecOf(vec[..i]).Keys + {vec[i].labels}
  {
    VecOfStep(vec, i);
    hide VecOf;
  }

  lemma NoGroupsYet(step: AggStep, m: Vec)
    ensures GroupsInv(step, m, {}, map[], [])
  {
  }
}

/** The evaluation steps and the time window that is fetched for them
    (eval/evaluator.go:1115-1132, translator/matrix_selector.go:27-43,
    translator/vector_selector.go:26-40, translator/plan.go:147-154). */
module FetchWindow {
  import opened Types
  import Columns
  import opened Plans
  import opened RangeFunctions
  import opened InstantEval
  import opened Staleness
  import StepFirst

  // ---- Evaluation steps ----

  const NANOS_PER_MILLI: int := 1_000_000

  function UnixMilli(nanos: int): int { nanos / NANOS_PER_MILLI }

  /** Start and end of the query and its step, in nanoseconds. */
  function StepsOf(start: int, end: int, step: int): seq<int> {
    if step <= 0 || end < start then [UnixMilli(end)]
    else seq((end - start) / step + 1, i requires 0 <= i => StepTime(start, step, i))
  }

  function StepTime(start: int, step: int, i: int): int { UnixMilli(start + i * step) }

  lemma ProductMonotone(i: int, j: int, step: int)
    requires 0 < step && i <= j
    ensures i * step <= j * step
  {
    assert (j - i) * step >= 0;
  }

  lemma StepIndex(d: int, step: int, i: int)
    requires 0 < step && 0 <= d && 0 <= i
    ensures i * step <= d <==> i <= d / step
  {
    var q := d / step;
    assert q * step <= d < q * step + step;
    if i <= q {
      ProductMonotone(i, q, step);
    } else {
      ProductMonotone(q + 1, i, step);
      assert (q + 1) * step == q * step + step;
    }
  }

  method GenerateSteps(start: int, end: int, step: int) returns (steps: seq<int>)
    ensures steps == StepsOf(start, end, step)
  {
    if step <= 0 {
      return [UnixMilli(end)];
    }
    if end - start < 0 {
      return [UnixMilli(end)];
    }
    steps := [];
    var t := start;
    StepIndex(end - start, step, 0);
    while t <= end
      invariant t == start + |steps| * step
      invariant |steps| <= (end - start) / step + 1
      invariant forall i :: 0 <= i < |steps| ==> steps[i] == StepTime(start, step, i)
      decreases end - t
    {
      StepIndex(end - start, step, |steps|);
      steps := steps + [UnixMilli(t)];
      t := t + step;
    }
    StepIndex(end - start, step, |steps|);
    if |steps| == 0 {
      steps := [UnixMilli(end)];
    }
  }

  lemma MilliMonotone(a: int, b: int)
    requires a <= b
    ensures UnixMilli(a) <= UnixMilli(b)
    ensures b - a >= NANOS_PER_MILLI ==> UnixMilli(a) < UnixMilli(b)
  {
  }

  lemma StepBounds(start: int, end: int, step: int, i: int)
    requires 0 < step && start <= end && 0 <= i <= (end - start) / step
    ensures UnixMilli(start) <= StepTime(start, step, i) <= UnixMilli(end)
  {
    StepIndex(end - start, step, i);
    assert i * step >= 0;
    MilliMonotone(start, start + i * step);
    MilliMonotone(start + i * step, end);
  }

  lemma StepIncrease(start: int, step: int, i: int, j: int)
    requires 0 <= i < j && NANOS_PER_MILLI <= step
    ensures StepTime(start, step, i) < StepTime(start, step, j)
  {
    assert (j - i - 1) * step >= 0;
    assert j * step - i * step == (j - i - 1) * step + step;
    MilliMonotone(start + i * step, start + j * step);
  }

  /** The steps of a query that starts before it ends lie between start and end, and
      strictly increase when the step is at least a millisecond. */
  lemma StepsWithinQuery(start: int, end: int, step: int)
    requires start <= end
    ensures forall t :: t in StepsOf(start, end, step) ==> UnixMilli(start) <= t <= UnixMilli(end)
    ensures step >= NANOS_PER_MILLI ==> IncreasingTimes(StepsOf(start, end, step))
  {
    hide StepTime;
    var steps := StepsOf(start, end, step);
    MilliMonotone(start, end);
    if step > 0 {
      forall i | 0 <= i < |steps| ensures UnixMilli(start) <= steps[i] <= UnixMilli(end) {
        StepBounds(start, end, step, i);
      }
    }
    if step >= NANOS_PER_MILLI {
      forall i, j | 0 <= i < j < |steps| ensures steps[i] < steps[j] {
        StepIncrease(start, step, i, j);
      }
    }
  }

  /** A step is the millisecond that holds its nanosecond. */
  predicate HoldsNanos(milli: int, nanos: int) { milli * 1_000_000 <= nanos < (milli + 1) * 1_000_000 }

  /** The steps of a query are the milliseconds of start, start + step and so on, up to the
      end and no further; a query without steps is evaluated at its end. */
  lemma StepsAreMilliseconds(start: int, end: int, step: int)
    ensures var steps := StepsOf(start, end, step);
            && (0 < step && start <= end ==>
                  && (forall i :: 0 <= i < |steps| ==> HoldsNanos(steps[i], start + i * step))
                  && start + (|steps| - 1) * step <= end < start + |steps| * step)
            && (step <= 0 || end < start ==> |steps| == 1 && HoldsNanos(steps[0], end))
  {
    if 0 < step && start <= end {
      var n := (end - start) / step;
      StepIndex(end - start, step, n);
      StepIndex(end - start, step, n + 1);
    }
  }

  // ---- The fetched window ----

  /** DataStartMs and DataEndMs of a range selector. */
  function RangeData(start: int, end: int, rangeMs: int, offset: int, staleness: int): (int, int) {
    (start - rangeMs - staleness - offset, end - offset)
  }

  /** DataStartMs and DataEndMs of an instant selector. */
  function InstantData(start: int, end: int, offset: int, staleness: int): (int, int) {
    (start - staleness - offset, end - offset)
  }

  /** The rows that the rendered query returns; a series without rows does not appear. */
  function Fetch(db: Db, data: (int, int)): Db {
    map l | l in db && Between(db[l], data.0, data.1) != [] :: Between(db[l], data.0, data.1)
  }

  lemma {:induction false} BetweenWider(s: seq<Sample>, a: int, b: int, a': int, b': int)
    requires a <= a' && b' <= b
    ensures Between(Between(s, a, b), a', b') == Between(s, a', b')
  {
    if s != [] {
      BetweenWider(s[1..], a, b, a', b');
      if a < s[0].ts <= b {
        assert Between(s, a, b)[1..] == Between(s[1..], a, b);
      }
    }
  }

  lemma BetweenIncreasing(s: seq<Sample>, a: int, b: int)
    requires Increasing(s)
    ensures Increasing(Between(s, a, b))
  {
    BetweenMembers(s, a, b);
  }

  lemma FetchValid(db: Db, data: (int, int))
    requires ValidDb(db)
    ensures ValidDb(Fetch(db, data))
  {
    forall l | l in db ensures Increasing(Between(db[l], data.0, data.1)) {
      BetweenIncreasing(db[l], data.0, data.1);
    }
  }

  lemma SameWindowSameValue(lib: Lib, plan: EvalPlan, s: seq<Sample>, s': seq<Sample>, t: int, staleness: int)
    requires Increasing(s) && Increasing(s') && plan.funcName in RANGE_FUNCTIONS
    requires Between(s, t - plan.offsetMs - plan.rangeMs, t - plan.offsetMs)
          == Between(s', t - plan.offsetMs - plan.rangeMs, t - plan.offsetMs)
    ensures ComputeValue(lib, plan, s, t, staleness) == ComputeValue(lib, plan, s', t, staleness)
  {
    hide WindowValue;
    hide Between;
    hide Increasing;
  }

  lemma NoRowsNoValue(lib: Lib, plan: EvalPlan, t: int, staleness: int)
    requires plan.funcName in RANGE_FUNCTIONS
    ensures ComputeValue(lib, plan, [], t, staleness) == None
  {
    var u := t - plan.offsetMs;
    EmptyWindowIsSilent(lib, plan.funcName, plan.aggParam, plan.smoothing, u - plan.rangeMs, u);
    hide WindowValue;
  }

  /** A range function computes the same value from the fetched rows as from the whole
      history, at every step of the query and for every offset. */
  lemma RangeValueFromFetched(lib: Lib, plan: EvalPlan, s: seq<Sample>, start: int, end: int, staleness: int, t: int)
    requires Increasing(s) && plan.funcName in RANGE_FUNCTIONS && 0 <= staleness && start <= t <= end
    ensures var data := RangeData(start, end, plan.rangeMs, plan.offsetMs, staleness);
            var rows := Between(s, data.0, data.1);
            && Increasing(rows)
            && ComputeValue(lib, plan, rows, t, staleness) == ComputeValue(lib, plan, s, t, staleness)
  {
    hide ComputeValue;
    hide Between;
    hide Increasing;
    var data := RangeData(start, end, plan.rangeMs, plan.offsetMs, staleness);
    var u := t - plan.offsetMs;
    assert data.0 <= u - plan.rangeMs && u <= data.1;
    hide RangeData;
    BetweenIncreasing(s, data.0, data.1);
    BetweenWider(s, data.0, data.1, u - plan.rangeMs, u);
    SameWindowSameValue(lib, plan, Between(s, data.0, data.1), s, t, staleness);
  }

  /** The fetch restricted to one series keeps its value, absent series having none. */
  lemma SeriesFromFetched(lib: Lib, plan: EvalPlan, db: Db, start: int, end: int, staleness: int, t: int, l: Labels)
    requires ValidDb(db) && plan.funcName in RANGE_FUNCTIONS && 0 <= staleness && start <= t <= end && l in db
    ensures var rows := Fetch(db, RangeData(start, end, plan.rangeMs, plan.offsetMs, staleness));
            && ValidDb(rows)
            && ComputeValue(lib, plan, db[l], t, staleness)
            == (if l in rows then ComputeValue(lib, plan, rows[l], t, staleness) else None)
  {
    var data := RangeData(start, end, plan.rangeMs, plan.offsetMs, staleness);
    FetchValid(db, data);
    RangeValueFromFetched(lib, plan, db[l], start, end, staleness, t);
    NoRowsNoValue(lib, plan, t, staleness);
    hide ComputeValue;
    hide Between;
  }

  lemma InstantFromFetched(lib: Lib, plan: EvalPlan, db: Db, start: int, end: int, staleness: int, t: int)
    requires ValidDb(db) && plan.funcName in RANGE_FUNCTIONS && 0 <= staleness && start <= t <= end
    ensures var rows := Fetch(db, RangeData(start, end, plan.rangeMs, plan.offsetMs, staleness));
            ValidDb(rows) && InstantVec(lib, plan, rows, t, staleness) == InstantVec(lib, plan, db, t, staleness)
  {
    hide ComputeValue;
    hide Between;
    var data := RangeData(start, end, plan.rangeMs, plan.offsetMs, staleness);
    FetchValid(db, data);
    var rows := Fetch(db, data);
    assert rows.Keys <= db.Keys;
    forall l | l in db
      ensures ComputeValue(lib, plan, db[l], t, staleness)
           == if l in rows then ComputeValue(lib, plan, rows[l], t, staleness) else None
    {
      SeriesFromFetched(lib, plan, db, start, end, staleness, t, l);
    }
    hide Fetch;
  }

  /** Whole range queries of range functions do not notice that only a window was
      fetched. */
  lemma RangeQueryFromFetched(lib: Lib, f: (MathStep, real) -> real, plan: EvalPlan, db: Db, start: int, end: int,
                              staleness: int, steps: seq<int>, tab: Columns.Table)
    requires ValidDb(db) && plan.funcName in RANGE_FUNCTIONS && 0 <= staleness
    requires forall t :: t in steps ==> start <= t <= end
    ensures var rows := Fetch(db, RangeData(start, end, plan.rangeMs, plan.offsetMs, staleness));
            && ValidDb(rows)
            && (StepFirst.IsRangeResult(lib, f, plan, rows, steps, staleness, tab)
                <==> StepFirst.IsRangeResult(lib, f, plan, db, steps, staleness, tab))
  {
    var data := RangeData(start, end, plan.rangeMs, plan.offsetMs, staleness);
    var rows := Fetch(db, data);
    FetchValid(db, data);
    forall t | t in steps ensures StepVec(lib, f, plan, rows, t, staleness) == StepVec(lib, f, plan, db, t, staleness) {
      InstantFromFetched(lib, plan, db, start, end, staleness, t);
    }
  }

  /** A live sample sits exactly at the exclusive start of the fetch and is the one that a
      lookup at the first step needs. */
  ghost predicate LostAtBoundary(s: seq<Sample>, start: int, offset: int, staleness: int) {
    exists x :: LatestAt(s, start - offset, x) && x.ts == start - offset - staleness && !x.stale
  }

  lemma LatestInFetched(s: seq<Sample>, a: int, b: int, u: int, x: Sample)
    requires Increasing(s) && u <= b && LatestAt(s, u, x)
    ensures Increasing(Between(s, a, b))
    ensures a < x.ts ==> LatestAt(Between(s, a, b), u, x)
    ensures x.ts <= a ==> forall y :: y in Between(s, a, b) ==> u < y.ts
  {
    BetweenMembers(s, a, b);
  }

  lemma LookupLatest(s: seq<Sample>, u: int, staleness: int, x: Sample)
    requires Increasing(s) && LatestAt(s, u, x)
    ensures InstantValue(s, u, staleness) == if x.ts < u - staleness || x.stale then None else Some(x.v)
  {
    FirstAfterSplits(s, u);
    var i :| 0 <= i < |s| && s[i] == x;
    var n := FirstAfter(s, u);
    assert s[n - 1] in s;
  }

  lemma LookupNone(s: seq<Sample>, u: int, staleness: int)
    requires Increasing(s) && forall y :: y in s ==> u < y.ts
    ensures InstantValue(s, u, staleness) == None
  {
    FirstAfterSplits(s, u);
    if |s| > 0 {
      assert u < s[0].ts;
    }
  }

  lemma BoundaryMeaning(s: seq<Sample>, start: int, offset: int, staleness: int, x: Sample)
    requires Increasing(s) && LatestAt(s, start - offset, x)
    ensures LostAtBoundary(s, start, offset, staleness) <==> x.ts == start - offset - staleness && !x.stale
  {
    OnlyLatest(s, start - offset, x);
    hide LatestAt;
  }

  lemma LookupFromFetched(s: seq<Sample>, a: int, b: int, u: int, staleness: int, x: Sample)
    requires Increasing(s) && a <= u - staleness && u <= b && LatestAt(s, u, x)
    ensures Increasing(Between(s, a, b))
    ensures InstantValue(Between(s, a, b), u, staleness) == InstantValue(s, u, staleness)
            <==> !(x.ts == a == u - staleness && !x.stale)
  {
    LatestInFetched(s, a, b, u, x);
    hide Between;
    hide InstantValue;
    hide LatestAt;
    hide Increasing;
    LookupLatest(s, u, staleness, x);
    if a < x.ts {
      LookupLatest(Between(s, a, b), u, staleness, x);
    } else {
      LookupNone(Between(s, a, b), u, staleness);
    }
  }

  /** For an instant selector the fetched rows give the value of the whole history, except
      at the first step for a sample lost at the boundary: the fetch excludes its start
      while the staleness test includes it. */
  lemma InstantValueFromFetched(s: seq<Sample>, start: int, end: int, offset: int, staleness: int, t: int)
    requires Increasing(s) && 0 <= staleness && start <= t <= end
    ensures var data := InstantData(start, end, offset, staleness);
            var rows := Between(s, data.0, data.1);
            InstantValue(rows, t - offset, staleness) == InstantValue(s, t - offset, staleness)
            <==> !(t == start && LostAtBoundary(s, start, offset, staleness))
  {
    var data := InstantData(start, end, offset, staleness);
    var u := t - offset;
    hide Between;
    hide InstantValue;
    hide LatestAt;
    hide Increasing;
    if x :| LatestAt(s, u, x) {
      LookupFromFetched(s, data.0, data.1, u, staleness, x);
      if t == start {
        hide LostAtBoundary;
        BoundaryMeaning(s, start, offset, staleness, x);
      }
    } else {
      NothingToLookUp(s, data.0, data.1, u, staleness);
    }
  }

  lemma NothingToLookUp(s: seq<Sample>, a: int, b: int, u: int, staleness: int)
    requires Increasing(s) && !exists x :: LatestAt(s, u, x)
    ensures Increasing(Between(s, a, b))
    ensures InstantValue(s, u, staleness) == None == InstantValue(Between(s, a, b), u, staleness)
  {
    NoneAtOrBefore(s, u);
    BetweenMembers(s, a, b);
    hide Between;
    hide InstantValue;
    hide LatestAt;
    LookupNone(s, u, staleness);
    LookupNone(Between(s, a, b), u, staleness);
  }

  lemma OnlyLatest(s: seq<Sample>, u: int, x: Sample)
    requires Increasing(s) && LatestAt(s, u, x)
    ensures forall y :: LatestAt(s, u, y) ==> y == x
  {
    forall y | LatestAt(s, u, y) ensures y == x {
      assert y.ts == x.ts;
      var i :| 0 <= i < |s| && s[i] == x;
      var j :| 0 <= j < |s| && s[j] == y;
    }
  }

  lemma NoneAtOrBefore(s: seq<Sample>, u: int)
    requires Increasing(s) && !exists x :: LatestAt(s, u, x)
    ensures forall y :: y in s ==> u < y.ts
  {
    FirstAfterSplits(s, u);
    var n := FirstAfter(s, u);
    if n > 0 {
      assert LatestAt(s, u, s[n - 1]);
    }
  }
}

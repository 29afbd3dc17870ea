/** Downsampling tiers and the routing of a query range to them
    (proxy/config/config.go:63-215). Times and durations are in nanoseconds; the clock is
    a parameter. */
module Segments {
  import opened Types

  datatype Tier = Tier(name: string, resolution: int, table: string, compactAfter: int, minStep: int)

  datatype Downsampling = Downsampling(enabled: bool, rawRetention: int, tiers: seq<Tier>)

  /** QuerySegment; `tier` is the index of its tier, None for raw samples. */
  datatype Segment = Segment(source: string, table: string, tier: Option<nat>, start: int, end: int)

  const HOUR: int := 3600 * 1_000_000_000
  const RAW_OVERLAP: int := 2 * HOUR

  // ---- Validation ----

  ghost predicate IsValid(d: Downsampling) {
    d.enabled ==>
      && d.tiers != []
      && d.rawRetention > d.tiers[0].compactAfter
      && forall i, j :: 0 <= i < j < |d.tiers| ==>
           d.tiers[i].compactAfter < d.tiers[j].compactAfter && d.tiers[i].minStep < d.tiers[j].minStep
  }

  ghost predicate Ascending(tiers: seq<Tier>) {
    forall i, j :: 0 <= i < j < |tiers| ==>
      tiers[i].compactAfter < tiers[j].compactAfter && tiers[i].minStep < tiers[j].minStep
  }

  lemma AscendingSnoc(tiers: seq<Tier>, n: nat)
    requires 0 < n < |tiers| && Ascending(tiers[..n])
    ensures Ascending(tiers[..n + 1]) <==>
            tiers[n - 1].compactAfter < tiers[n].compactAfter && tiers[n - 1].minStep < tiers[n].minStep
  {
    var before, after := tiers[..n], tiers[..n + 1];
    assert forall i :: 0 <= i < n ==> before[i] == after[i];
    assert after[n - 1] == tiers[n - 1] && after[n] == tiers[n];
    if tiers[n - 1].compactAfter < tiers[n].compactAfter && tiers[n - 1].minStep < tiers[n].minStep {
      forall i, j | 0 <= i < j < n + 1
        ensures after[i].compactAfter < after[j].compactAfter && after[i].minStep < after[j].minStep
      {
        if j == n && i < n - 1 {
          assert before[i].compactAfter < before[n - 1].compactAfter && before[i].minStep < before[n - 1].minStep;
        }
      }
    }
  }

  /** Validate only compares neighbours. */
  method Validate(d: Downsampling) returns (ok: bool)
    ensures ok <==> IsValid(d)
  {
    if !d.enabled {
      return true;
    }
    if |d.tiers| == 0 {
      return false;
    }
    if d.rawRetention <= d.tiers[0].compactAfter {
      return false;
    }
    for i := 1 to |d.tiers|
      invariant Ascending(d.tiers[..i])
    {
      AscendingSnoc(d.tiers, i);
      if d.tiers[i].compactAfter <= d.tiers[i - 1].compactAfter {
        NotAscending(d.tiers, i);
        return false;
      }
      if d.tiers[i].minStep <= d.tiers[i - 1].minStep {
        NotAscending(d.tiers, i);
        return false;
      }
    }
    assert d.tiers[..|d.tiers|] == d.tiers;
    return true;
  }

  lemma NotAscending(tiers: seq<Tier>, n: nat)
    requires 0 < n < |tiers|
    requires tiers[n].compactAfter <= tiers[n - 1].compactAfter || tiers[n].minStep <= tiers[n - 1].minStep
    ensures !Ascending(tiers)
  {
  }

  // ---- Selection ----

  /** The last-listed tier whose minimum step is met. */
  ghost predicate IsSelected(d: Downsampling, step: int, r: Option<nat>) {
    match r
    case None => !d.enabled || forall i :: 0 <= i < |d.tiers| ==> step < d.tiers[i].minStep
    case Some(k) =>
      && d.enabled && k < |d.tiers| && d.tiers[k].minStep <= step
      && forall i :: k < i < |d.tiers| ==> step < d.tiers[i].minStep
  }

  method SelectTier(d: Downsampling, step: int) returns (selected: Option<nat>)
    ensures IsSelected(d, step, selected)
  {
    if !d.enabled {
      return None;
    }
    selected := None;
    for i := 0 to |d.tiers|
      invariant selected.None? ==> forall j :: 0 <= j < i ==> step < d.tiers[j].minStep
      invariant selected.Some? ==>
                  && selected.value < i && d.tiers[selected.value].minStep <= step
                  && forall j :: selected.value < j < i ==> step < d.tiers[j].minStep
    {
      if step >= d.tiers[i].minStep {
        selected := Some(i);
      }
    }
  }

  /** Of a valid configuration, the selected tier has the largest minimum step that the
      query step allows. */
  lemma SelectedIsCoarsestAllowed(d: Downsampling, step: int, k: nat, i: nat)
    requires d.enabled && IsValid(d) && IsSelected(d, step, Some(k)) && i < |d.tiers|
    ensures d.tiers[i].minStep <= step <==> i <= k
  {
  }

  // ---- Routing ----

  /** Up to this time the tier holds compacted data, with two hours to spare. */
  function Boundary(tier: Tier, now: int): int {
    now - tier.compactAfter - RAW_OVERLAP
  }

  /** The last-listed tier whose boundary lies after the instant; None stands for raw. */
  function Owner(tiers: seq<Tier>, now: int, x: int): (r: Option<nat>)
    ensures r.Some? ==>
              && r.value < |tiers| && x < Boundary(tiers[r.value], now)
              && forall j :: r.value < j < |tiers| ==> Boundary(tiers[j], now) <= x
    ensures r.None? ==> forall j :: 0 <= j < |tiers| ==> Boundary(tiers[j], now) <= x
  {
    if tiers == [] then None
    else if x < Boundary(tiers[|tiers| - 1], now) then Some(|tiers| - 1)
    else Owner(tiers[..|tiers| - 1], now, x)
  }

  predicate Used(tiers: seq<Tier>, selected: Tier, owner: Option<nat>) {
    owner.Some? && owner.value < |tiers| ==> tiers[owner.value].resolution <= selected.resolution
  }

  ghost predicate Holds(s: Segment, x: int) {
    s.start <= x < s.end
  }

  ghost predicate Covers(segs: seq<Segment>, x: int) {
    exists i :: 0 <= i < |segs| && Holds(segs[i], x)
  }

  /** Non-empty segments, one after the other, within the range. */
  ghost predicate Ordered(segs: seq<Segment>, qs: int, qe: int) {
    && (forall i :: 0 <= i < |segs| ==> qs <= segs[i].start < segs[i].end <= qe)
    && (forall i, j :: 0 <= i < j < |segs| ==> segs[i].end <= segs[j].start)
  }

  /** Up to `upTo`, the segments hold exactly the instants of used owners, each in a segment
      of its owner. */
  ghost predicate RoutedUpTo(tiers: seq<Tier>, selected: Tier, now: int, segs: seq<Segment>, qs: int, upTo: int) {
    && Ordered(segs, qs, upTo)
    && (forall i, x :: 0 <= i < |segs| && Holds(segs[i], x) ==> segs[i].tier == Owner(tiers, now, x))
    && (forall x :: qs <= x < upTo ==> (Covers(segs, x) <==> Used(tiers, selected, Owner(tiers, now, x))))
  }

  /** Every segment names what it is read from: the tier and its table, or the raw samples. */
  ghost predicate ReadsItsTable(tiers: seq<Tier>, s: Segment) {
    match s.tier
    case Some(k) => k < |tiers| && s.source == tiers[k].name && s.table == tiers[k].table
    case None => s.source == "raw" && s.table == "samples"
  }

  ghost predicate ReadTheirTables(tiers: seq<Tier>, segs: seq<Segment>) {
    forall i :: 0 <= i < |segs| ==> ReadsItsTable(tiers, segs[i])
  }

  function TierSegment(tiers: seq<Tier>, i: nat, start: int, end: int): Segment
    requires i < |tiers|
  {
    Segment(tiers[i].name, tiers[i].table, Some(i), start, end)
  }

  function RawSegment(start: int, end: int): Segment {
    Segment("raw", "samples", None, start, end)
  }

  /** The next stretch of the range, which one owner has, with or without a segment. */
  lemma RouteStretch(tiers: seq<Tier>, selected: Tier, now: int, segs: seq<Segment>, qs: int, from: int, upTo: int,
                     owner: Option<nat>, s: Segment)
    requires RoutedUpTo(tiers, selected, now, segs, qs, from) && qs <= from < upTo
    requires forall x :: from <= x < upTo ==> Owner(tiers, now, x) == owner
    requires s.tier == owner && s.start == from && s.end == upTo
    ensures RoutedUpTo(tiers, selected, now, if Used(tiers, selected, owner) then segs + [s] else segs, qs, upTo)
  {
    var all := segs + [s];
    assert forall i :: 0 <= i < |segs| ==> all[i] == segs[i];
    assert all[|segs|] == s;
    forall x ensures Covers(all, x) <==> Covers(segs, x) || Holds(s, x) {
    }
    forall x | from <= x < upTo ensures !Covers(segs, x) && Holds(s, x) {
    }
    hide Owner;
  }

  ghost predicate Passed(tiers: seq<Tier>, now: int, i: nat, segStart: int, qe: int) {
    segStart < qe ==> forall j :: i <= j < |tiers| ==> Boundary(tiers[j], now) <= segStart
  }

  lemma OwnerOfStretch(tiers: seq<Tier>, now: int, i: nat, from: int, upTo: int)
    requires i < |tiers| && from < upTo <= Boundary(tiers[i], now)
    requires forall j :: i < j < |tiers| ==> Boundary(tiers[j], now) <= from
    ensures forall x :: from <= x < upTo ==> Owner(tiers, now, x) == Some(i)
  {
  }

  lemma RouteNothing(tiers: seq<Tier>, selected: Tier, now: int, qs: int)
    ensures RoutedUpTo(tiers, selected, now, [], qs, qs)
  {
  }

  /** What the loop has done when the tiers from `i` on are dealt with, up to `segStart`. */
  ghost predicate Routed(tiers: seq<Tier>, selected: Tier, now: int, qs: int, qe: int, segs: seq<Segment>, segStart: int, i: nat) {
    && qs <= segStart && (qs < qe ==> segStart <= qe) && (qe <= qs ==> segStart == qs && segs == [])
    && RoutedUpTo(tiers, selected, now, segs, qs, segStart)
    && Passed(tiers, now, i, segStart, qe)
    && ReadTheirTables(tiers, segs)
  }

  lemma TierPassed(tiers: seq<Tier>, selected: Tier, now: int, qs: int, qe: int, segs: seq<Segment>, segStart: int, i: nat)
    requires i < |tiers| && Routed(tiers, selected, now, qs, qe, segs, segStart, i + 1)
    requires !(segStart < Boundary(tiers[i], now)) || !(segStart < qe)
    ensures Routed(tiers, selected, now, qs, qe, segs, segStart, i)
  {
    hide RoutedUpTo;
    hide ReadTheirTables;
    hide Boundary;
  }

  lemma TierRouted(tiers: seq<Tier>, selected: Tier, now: int, qs: int, qe: int, segs: seq<Segment>, segStart: int, i: nat,
                   segEnd: int)
    requires i < |tiers| && Routed(tiers, selected, now, qs, qe, segs, segStart, i + 1)
    requires segStart < Boundary(tiers[i], now) && segStart < qe
    requires segEnd == if Boundary(tiers[i], now) > qe then qe else Boundary(tiers[i], now)
    ensures Routed(tiers, selected, now, qs, qe,
                   if tiers[i].resolution <= selected.resolution then segs + [TierSegment(tiers, i, segStart, segEnd)] else segs,
                   segEnd, i)
  {
    OwnerOfStretch(tiers, now, i, segStart, segEnd);
    hide RoutedUpTo;
    hide Boundary;
    RouteStretch(tiers, selected, now, segs, qs, segStart, segEnd, Some(i), TierSegment(tiers, i, segStart, segEnd));
    hide Owner;
  }

  /** What no tier has taken is read raw. */
  lemma RestIsRaw(tiers: seq<Tier>, selected: Tier, now: int, qs: int, qe: int, segs: seq<Segment>, segStart: int)
    requires Routed(tiers, selected, now, qs, qe, segs, segStart, 0)
    ensures var all := if segStart < qe then segs + [RawSegment(segStart, qe)] else segs;
            && (qs < qe ==> RoutedUpTo(tiers, selected, now, all, qs, qe)) && (qe <= qs ==> all == [])
            && ReadTheirTables(tiers, all)
  {
    hide RoutedUpTo;
    hide Boundary;
    if segStart < qe {
      forall x | segStart <= x < qe ensures Owner(tiers, now, x) == None {
      }
      RouteStretch(tiers, selected, now, segs, qs, segStart, qe, None, RawSegment(segStart, qe));
    }
    hide Owner;
  }

  /** QuerySegments. Without a selected tier everything is read raw. */
  method QuerySegments(d: Downsampling, qs: int, qe: int, selectedTier: Option<Tier>, now: int) returns (segs: seq<Segment>)
    ensures !d.enabled || selectedTier.None? ==> segs == [RawSegment(qs, qe)]
    ensures d.enabled && selectedTier.Some? && qs < qe ==> RoutedUpTo(d.tiers, selectedTier.value, now, segs, qs, qe)
    ensures d.enabled && selectedTier.Some? && qe <= qs ==> segs == []
    ensures ReadTheirTables(d.tiers, segs)
  {
    if !d.enabled || selectedTier.None? {
      return [RawSegment(qs, qe)];
    }
    var selected := selectedTier.value;
    var tiers := d.tiers;
    segs := [];
    var segStart := qs;
    var i := |tiers|;
    RouteNothing(tiers, selected, now, qs);
    assert Routed(tiers, selected, now, qs, qe, segs, segStart, i);
    hide Routed;
    hide RoutedUpTo;
    hide ReadTheirTables;
    while i > 0
      invariant 0 <= i <= |tiers|
      invariant Routed(tiers, selected, now, qs, qe, segs, segStart, i)
    {
      i := i - 1;
      var boundary := Boundary(tiers[i], now);
      if !(segStart < boundary) || !(segStart < qe) {
        TierPassed(tiers, selected, now, qs, qe, segs, segStart, i);
        continue;
      }
      var segEnd := boundary;
      if segEnd > qe {
        segEnd := qe;
      }
      TierRouted(tiers, selected, now, qs, qe, segs, segStart, i, segEnd);
      if tiers[i].resolution <= selected.resolution {
        segs := segs + [TierSegment(tiers, i, segStart, segEnd)];
      }
      segStart := segEnd;
    }
    RestIsRaw(tiers, selected, now, qs, qe, segs, segStart);
    if segStart < qe {
      segs := segs + [RawSegment(segStart, qe)];
    }
  }

  // ---- What is read raw ----

  /** Of a valid configuration everything younger than the age at which the first tier
      compacts, and two hours older than that, is read from the raw samples, and nothing
      else is. */
  lemma YoungIsRaw(d: Downsampling, selected: Tier, now: int, segs: seq<Segment>, qs: int, qe: int, x: int)
    requires d.enabled && IsValid(d) && RoutedUpTo(d.tiers, selected, now, segs, qs, qe) && qs <= x < qe
    ensures (exists i :: 0 <= i < |segs| && Holds(segs[i], x) && segs[i].tier.None?)
            <==> x >= now - d.tiers[0].compactAfter - 7_200_000_000_000
  {
    FirstTierLeavesRaw(d.tiers, now, x);
    var owner := Owner(d.tiers, now, x);
    if owner.None? {
      assert Covers(segs, x);
      var i :| 0 <= i < |segs| && Holds(segs[i], x);
    }
    hide Owner;
  }

  /** The tier that owns an instant is the coarsest that has compacted it two hours ago. */
  lemma FirstTierLeavesRaw(tiers: seq<Tier>, now: int, x: int)
    requires tiers != [] && Ascending(tiers)
    ensures Owner(tiers, now, x).None? <==> x >= now - tiers[0].compactAfter - 7_200_000_000_000
    ensures forall k :: 0 <= k < |tiers| ==>
              (Owner(tiers, now, x) == Some(k)
               <==> x < now - tiers[k].compactAfter - 7_200_000_000_000
                    && (k + 1 == |tiers| || x >= now - tiers[k + 1].compactAfter - 7_200_000_000_000))
  {
    forall k | 0 <= k < |tiers| ensures Boundary(tiers[k], now) == now - tiers[k].compactAfter - 7_200_000_000_000 {
    }
    forall j, k | 0 <= j < k < |tiers| ensures Boundary(tiers[k], now) < Boundary(tiers[j], now) {
    }
    hide Boundary;
  }

  // ---- When the segments tile the range ----

  ghost predicate Tiles(segs: seq<Segment>, qs: int, qe: int) {
    forall x :: qs <= x < qe ==> Covers(segs, x)
  }

  /** The uncovered instants are those of the tiers that are skipped as too coarse. */
  lemma UncoveredInstants(tiers: seq<Tier>, selected: Tier, now: int, segs: seq<Segment>, qs: int, qe: int, x: int)
    requires RoutedUpTo(tiers, selected, now, segs, qs, qe) && qs <= x < qe
    ensures !Covers(segs, x) <==>
            Owner(tiers, now, x).Some? && tiers[Owner(tiers, now, x).value].resolution > selected.resolution
  {
  }

  lemma OldestOwner(tiers: seq<Tier>, now: int, k: nat, x: int)
    requires k < |tiers| && Ascending(tiers)
    ensures (Owner(tiers, now, x).Some? && Owner(tiers, now, x).value > k)
            <==> k + 1 < |tiers| && x < Boundary(tiers[k + 1], now)
  {
    var owner := Owner(tiers, now, x);
    if owner.Some? && owner.value > k {
      assert k + 1 < owner.value ==> tiers[k + 1].compactAfter < tiers[owner.value].compactAfter;
    }
  }

  /** With a valid configuration whose resolutions grow with the tiers, the segments for
      the k-th tier tile the range exactly when it is the last tier or the range starts
      after the next tier has taken over. */
  lemma TilesExactlyWhen(d: Downsampling, k: nat, now: int, segs: seq<Segment>, qs: int, qe: int)
    requires d.enabled && IsValid(d) && k < |d.tiers| && qs < qe
    requires forall i, j :: 0 <= i < j < |d.tiers| ==> d.tiers[i].resolution < d.tiers[j].resolution
    requires RoutedUpTo(d.tiers, d.tiers[k], now, segs, qs, qe)
    ensures Tiles(segs, qs, qe) <==> k + 1 == |d.tiers| || Boundary(d.tiers[k + 1], now) <= qs
  {
    forall x | qs <= x < qe
      ensures Covers(segs, x) <==> k + 1 == |d.tiers| || Boundary(d.tiers[k + 1], now) <= x
    {
      UncoveredInstants(d.tiers, d.tiers[k], now, segs, qs, qe, x);
      OldestOwner(d.tiers, now, k, x);
    }
    hide Covers;
    hide RoutedUpTo;
    if Tiles(segs, qs, qe) {
      assert Covers(segs, qs);
    }
  }
}

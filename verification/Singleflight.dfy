/** Concurrent fetches through the cache (proxy/cache/cache.go:132-161) as a step machine:
    every step is one atomic action of one thread, in any interleaving and under any clock.
    The cache operations and the singleflight group are atomic because each holds its own
    mutex. */
module Singleflight {
  import opened Types
  import opened Lru

  type Thread = int
  type Id = nat

  /** Where a call of Fetch stands. A thread may fetch again once it is done. */
  datatype Pc =
    | Idle
    | Missed(key: Key, store: bool)
    | Waiting(key: Key, id: Id)
    | Done(key: Key, result: Result<Entry>, hit: bool, flight: Option<Id>)

  /** The body of a flight: the second lookup, the computation, the store, the result. */
  datatype Stage =
    | Checking
    | Running
    | Storing(e: Entry)
    | Returning(r: Result<Entry>)
    | Published(r: Result<Entry>)

  /** A flight; `store` is that of the thread that leads it, and `outcome` what the function
      returned, if it ran. */
  datatype Flight = Flight(key: Key, store: bool, stage: Stage, outcome: Option<Result<Entry>>)

  /** `group` is the map of the singleflight group from keys to flights in progress. */
  datatype State = State(
    cache: seq<Slot>,
    flights: seq<Flight>,
    group: map<Key, Id>,
    threads: map<Thread, Pc>,
    hits: nat,
    misses: nat)

  datatype Params = Params(ttl: int, maxSize: nat)

  datatype Action =
    | Begin(t: Thread, key: Key, store: bool, now: int)
    | Join(t: Thread)
    | Check(id: Id, now: int)
    | Return(id: Id, outcome: Result<Entry>)
    | Store(id: Id, now: int)
    | Publish(id: Id)
    | Receive(t: Thread)

  function PcOf(s: State, t: Thread): Pc {
    if t in s.threads then s.threads[t] else Idle
  }

  predicate AtStage(s: State, id: Id, stage: Stage) {
    id < |s.flights| && s.flights[id].stage == stage
  }

  predicate Enabled(s: State, a: Action) {
    match a
    case Begin(t, _, _, _) => PcOf(s, t).Idle? || PcOf(s, t).Done?
    case Join(t) => PcOf(s, t).Missed?
    case Check(id, _) => AtStage(s, id, Checking)
    case Return(id, _) => AtStage(s, id, Running)
    case Store(id, _) => id < |s.flights| && s.flights[id].stage.Storing?
    case Publish(id) => id < |s.flights| && s.flights[id].stage.Returning?
    case Receive(t) =>
      PcOf(s, t).Waiting? && PcOf(s, t).id < |s.flights| && s.flights[PcOf(s, t).id].stage.Published?
  }

  function SetPc(s: State, t: Thread, pc: Pc): State {
    s.(threads := s.threads[t := pc])
  }

  function SetFlight(s: State, id: Id, f: Flight): State
    requires id < |s.flights|
  {
    s.(flights := s.flights[id := f])
  }

  /** The first lookup of Fetch, which counts a hit or a miss. */
  function DoBegin(s: State, t: Thread, key: Key, store: bool, now: int): State {
    var s1 := s.(cache := AfterGet(s.cache, key, now));
    match Lookup(s.cache, key, now)
    case Some(e) => SetPc(s1, t, Done(key, Ok(e), true, None)).(hits := s.hits + 1)
    case None => SetPc(s1, t, Missed(key, store)).(misses := s.misses + 1)
  }

  /** The entry of singleflight Do: wait for the flight of the key, or lead a new one. */
  function DoJoin(s: State, t: Thread): State
    requires PcOf(s, t).Missed?
  {
    var pc := PcOf(s, t);
    if pc.key in s.group then SetPc(s, t, Waiting(pc.key, s.group[pc.key]))
    else
      SetPc(s, t, Waiting(pc.key, |s.flights|)).(
        flights := s.flights + [Flight(pc.key, pc.store, Checking, None)],
        group := s.group[pc.key := |s.flights|])
  }

  /** The second lookup, inside the flight. */
  function DoCheck(s: State, id: Id, now: int): State
    requires id < |s.flights|
  {
    var f := s.flights[id];
    var stage := match Lookup(s.cache, f.key, now) case Some(e) => Returning(Ok(e)) case None => Running;
    SetFlight(s, id, f.(stage := stage)).(cache := AfterGet(s.cache, f.key, now))
  }

  /** The function returns; only the success of a storing flight is stored. */
  function DoReturn(s: State, id: Id, outcome: Result<Entry>): State
    requires id < |s.flights|
  {
    var f := s.flights[id];
    var stage := if outcome.Ok? && f.store then Storing(outcome.value) else Returning(outcome);
    SetFlight(s, id, f.(stage := stage, outcome := Some(outcome)))
  }

  function Apply(s: State, a: Action, p: Params): State
    requires Enabled(s, a)
  {
    match a
    case Begin(t, key, store, now) => DoBegin(s, t, key, store, now)
    case Join(t) => DoJoin(s, t)
    case Check(id, now) => DoCheck(s, id, now)
    case Return(id, outcome) => DoReturn(s, id, outcome)
    case Store(id, now) =>
      var f := s.flights[id];
      SetFlight(s, id, f.(stage := Returning(Ok(f.stage.e)))).(
        cache := AfterSet(s.cache, f.key, f.stage.e, now, p.ttl, p.maxSize))
    case Publish(id) =>
      var f := s.flights[id];
      SetFlight(s, id, f.(stage := Published(f.stage.r))).(group := s.group - {f.key})
    case Receive(t) =>
      var pc := PcOf(s, t);
      SetPc(s, t, Done(pc.key, s.flights[pc.id].stage.r, false, Some(pc.id)))
  }

  const INITIAL: State := State([], [], map[], map[], 0, 0)

  /** The states of a run: every action is enabled where it happens. */
  ghost predicate IsRun(actions: seq<Action>, states: seq<State>, p: Params) {
    && |states| == |actions| + 1
    && states[0] == INITIAL
    && forall i :: 0 <= i < |actions| ==> Enabled(states[i], actions[i]) && states[i + 1] == Apply(states[i], actions[i], p)
  }

  // ---- Invariant ----

  /** A flight in progress is the one that the group holds for its key, and the reverse. */
  ghost predicate GroupInv(s: State) {
    && (forall id :: 0 <= id < |s.flights| && !s.flights[id].stage.Published? ==>
          s.flights[id].key in s.group && s.group[s.flights[id].key] == id)
    && (forall k :: k in s.group ==>
          s.group[k] < |s.flights| && s.flights[s.group[k]].key == k && !s.flights[s.group[k]].stage.Published?)
  }

  /** What the function returned, in a flight for the key that was to be stored. */
  ghost predicate Computed(s: State, key: Key, e: Entry) {
    exists id :: 0 <= id < |s.flights| && IsSource(s.flights[id], key, e)
  }

  ghost predicate IsSource(f: Flight, key: Key, e: Entry) {
    f.key == key && f.store && f.outcome == Some(Ok(e))
  }

  /** Everything in the cache was computed for its key by a storing flight. */
  ghost predicate CacheInv(s: State) {
    DistinctKeys(s.cache) && forall x :: x in s.cache ==> Computed(s, x.key, x.entry)
  }

  /** The stage of a flight agrees with what its function returned. */
  ghost predicate FlightInv(s: State, f: Flight) {
    match f.stage
    case Checking => f.outcome == None
    case Running => f.outcome == None && Find(s.cache, f.key) == None
    case Storing(e) => f.store && f.outcome == Some(Ok(e)) && Find(s.cache, f.key) == None
    case Returning(r) => IsAnswer(s, f, r)
    case Published(r) => IsAnswer(s, f, r)
  }

  /** The function's own outcome, or an entry that the second lookup found. */
  ghost predicate IsAnswer(s: State, f: Flight, r: Result<Entry>) {
    f.outcome == Some(r) || (f.outcome == None && r.Ok? && Computed(s, f.key, r.value))
  }

  ghost predicate FlightsInv(s: State) {
    forall id :: 0 <= id < |s.flights| ==> FlightInv(s, s.flights[id])
  }

  ghost predicate ThreadInv(s: State, pc: Pc) {
    match pc
    case Waiting(key, id) => id < |s.flights| && s.flights[id].key == key
    case Done(key, result, hit, flight) =>
      if flight.Some? then
        && !hit && flight.value < |s.flights| && s.flights[flight.value].key == key
        && s.flights[flight.value].stage == Published(result)
      else hit && result.Ok? && Computed(s, key, result.value)
    case _ => true
  }

  ghost predicate ThreadsInv(s: State) {
    forall t :: t in s.threads ==> ThreadInv(s, s.threads[t])
  }

  ghost predicate Inv(s: State) {
    GroupInv(s) && CacheInv(s) && FlightsInv(s) && ThreadsInv(s)
  }

  // ---- Every action keeps it ----

  /** Flights only gain: what was computed stays computed, what is published stays. */
  ghost predicate Grows(s: State, s': State) {
    && |s.flights| <= |s'.flights|
    && forall id :: 0 <= id < |s.flights| ==>
         && s'.flights[id].key == s.flights[id].key
         && s'.flights[id].store == s.flights[id].store
         && (s.flights[id].outcome.Some? ==> s'.flights[id].outcome == s.flights[id].outcome)
         && (s.flights[id].stage.Published? ==> s'.flights[id] == s.flights[id])
  }

  lemma StillComputed(s: State, s': State, key: Key, e: Entry)
    requires Grows(s, s') && Computed(s, key, e)
    ensures Computed(s', key, e)
  {
    var id :| 0 <= id < |s.flights| && IsSource(s.flights[id], key, e);
    assert IsSource(s'.flights[id], key, e);
  }

  lemma StillAnswer(s: State, s': State, f: Flight, r: Result<Entry>)
    requires Grows(s, s') && IsAnswer(s, f, r)
    ensures IsAnswer(s', f, r)
  {
    if f.outcome == None {
      StillComputed(s, s', f.key, r.value);
    }
  }

  lemma StillThread(s: State, s': State, pc: Pc)
    requires Grows(s, s') && ThreadInv(s, pc)
    ensures ThreadInv(s', pc)
  {
    if pc.Done? && pc.flight.None? {
      StillComputed(s, s', pc.key, pc.result.value);
    }
  }

  lemma ActionGrows(s: State, a: Action, p: Params)
    requires Inv(s) && Enabled(s, a)
    ensures Grows(s, Apply(s, a, p))
  {
  }

  /** A lookup removes slots or reorders them. */
  lemma GetShrinks(q: seq<Slot>, key: Key, now: int)
    requires DistinctKeys(q)
    ensures DistinctKeys(AfterGet(q, key, now))
    ensures forall x :: x in AfterGet(q, key, now) ==> x in q
    ensures forall k :: Find(q, k) == None ==> Find(AfterGet(q, key, now), k) == None
    ensures Lookup(q, key, now) == None ==> Find(AfterGet(q, key, now), key) == None
    ensures Lookup(q, key, now).Some? ==> exists x :: x in q && x.key == key && x.entry == Lookup(q, key, now).value
  {
    GetKeepsInvariant(q, key, now, |q|);
    DropMeaning(q, key);
    FindMeaning(q, key);
    var q' := AfterGet(q, key, now);
    forall k ensures Find(q, k) == None ==> Find(q', k) == None {
      FindMeaning(q, k);
      FindMeaning(q', k);
    }
    FindMeaning(q', key);
  }

  /** A store adds one slot and touches no other key. */
  lemma SetAdds(q: seq<Slot>, key: Key, e: Entry, now: int, p: Params)
    requires DistinctKeys(q)
    ensures DistinctKeys(AfterSet(q, key, e, now, p.ttl, p.maxSize))
    ensures forall x :: x in AfterSet(q, key, e, now, p.ttl, p.maxSize) ==> x in q || x == Slot(key, e, now + p.ttl)
    ensures forall k :: k != key && Find(q, k) == None ==> Find(AfterSet(q, key, e, now, p.ttl, p.maxSize), k) == None
  {
    var q' := AfterSet(q, key, e, now, p.ttl, p.maxSize);
    DropMeaning(q, key);
    DropDistinct(q, key);
    ConsDistinct(Drop(q, key), key);
    forall k | k != key && Find(q, k) == None ensures Find(q', k) == None {
      FindMeaning(q, k);
      FindMeaning(q', k);
    }
  }

  lemma KeepsGroup(s: State, a: Action, p: Params)
    requires Inv(s) && Enabled(s, a)
    ensures GroupInv(Apply(s, a, p))
  {
    hide CacheInv;
    hide FlightsInv;
    hide ThreadsInv;
    hide AfterGet;
    hide AfterSet;
    hide Lookup;
  }

  lemma EntriesStillComputed(s: State, s': State)
    requires Grows(s, s') && CacheInv(s)
    ensures forall x :: x in s.cache ==> Computed(s', x.key, x.entry)
  {
    forall x | x in s.cache ensures Computed(s', x.key, x.entry) {
      StillComputed(s, s', x.key, x.entry);
    }
  }

  lemma KeepsCache(s: State, a: Action, p: Params)
    requires Inv(s) && Enabled(s, a)
    ensures CacheInv(Apply(s, a, p))
  {
    var s' := Apply(s, a, p);
    ActionGrows(s, a, p);
    EntriesStillComputed(s, s');
    match a
    case Begin(t, key, store, now) =>
      GetShrinks(s.cache, key, now);
    case Check(id, now) =>
      GetShrinks(s.cache, s.flights[id].key, now);
    case Store(id, now) =>
      var f := s.flights[id];
      assert FlightInv(s, f);
      SetAdds(s.cache, f.key, f.stage.e, now, p);
      assert IsSource(s'.flights[id], f.key, f.stage.e);
    case _ =>
  }

  /** The keys that are absent from the cache stay absent, but for the one that is stored. */
  lemma AbsentStays(s: State, a: Action, p: Params, k: Key)
    requires Inv(s) && Enabled(s, a) && Find(s.cache, k) == None
    requires a.Store? ==> s.flights[a.id].key != k
    ensures Find(Apply(s, a, p).cache, k) == None
  {
    match a
    case Begin(t, key, store, now) =>
      GetShrinks(s.cache, key, now);
    case Check(id, now) =>
      GetShrinks(s.cache, s.flights[id].key, now);
    case Store(id, now) =>
      SetAdds(s.cache, s.flights[id].key, s.flights[id].stage.e, now, p);
    case _ =>
  }

  lemma OneFlightPerKey(s: State, i: Id, j: Id)
    requires GroupInv(s) && i < |s.flights| && j < |s.flights|
    requires !s.flights[i].stage.Published? && !s.flights[j].stage.Published?
    requires s.flights[i].key == s.flights[j].key
    ensures i == j
  {
  }

  /** A flight that the action leaves alone. */
  lemma OtherFlight(s: State, a: Action, p: Params, f: Flight)
    requires Inv(s) && Enabled(s, a) && FlightInv(s, f)
    requires a.Store? && (f.stage.Running? || f.stage.Storing?) ==> s.flights[a.id].key != f.key
    ensures FlightInv(Apply(s, a, p), f)
  {
    ActionGrows(s, a, p);
    match f.stage
    case Checking =>
    case Running =>
      AbsentStays(s, a, p, f.key);
    case Storing(e) =>
      AbsentStays(s, a, p, f.key);
    case Returning(r) =>
      StillAnswer(s, Apply(s, a, p), f, r);
    case Published(r) =>
      StillAnswer(s, Apply(s, a, p), f, r);
  }

  /** The flight that the action advances. */
  lemma OwnFlight(s: State, a: Action, p: Params)
    requires Inv(s) && Enabled(s, a) && (a.Check? || a.Return? || a.Store? || a.Publish?)
    ensures FlightInv(Apply(s, a, p), Apply(s, a, p).flights[a.id])
  {
    var s', f := Apply(s, a, p), s.flights[a.id];
    ActionGrows(s, a, p);
    assert FlightInv(s, f);
    match a
    case Check(id, now) =>
      GetShrinks(s.cache, f.key, now);
      if Lookup(s.cache, f.key, now).Some? {
        var x :| x in s.cache && x.key == f.key && x.entry == Lookup(s.cache, f.key, now).value;
        StillComputed(s, s', f.key, x.entry);
      }
    case Publish(id) =>
      StillAnswer(s, s', f, f.stage.r);
      assert s'.flights[id] == f.(stage := Published(f.stage.r));
    case _ =>
  }

  lemma KeepsFlights(s: State, a: Action, p: Params)
    requires Inv(s) && Enabled(s, a)
    ensures FlightsInv(Apply(s, a, p))
  {
    var s' := Apply(s, a, p);
    forall id | 0 <= id < |s'.flights| ensures FlightInv(s', s'.flights[id]) {
      if (a.Check? || a.Return? || a.Store? || a.Publish?) && a.id == id {
        OwnFlight(s, a, p);
      } else if id < |s.flights| {
        assert s'.flights[id] == s.flights[id];
        OtherFlight(s, a, p, s.flights[id]);
      }
    }
  }

  lemma KeepsThreads(s: State, a: Action, p: Params)
    requires Inv(s) && Enabled(s, a)
    ensures ThreadsInv(Apply(s, a, p))
  {
    var s' := Apply(s, a, p);
    ActionGrows(s, a, p);
    forall t | t in s'.threads ensures ThreadInv(s', s'.threads[t]) {
      if t in s.threads && s'.threads[t] == s.threads[t] {
        StillThread(s, s', s.threads[t]);
      } else if a.Begin? {
        GetShrinks(s.cache, a.key, a.now);
        if Lookup(s.cache, a.key, a.now).Some? {
          var x :| x in s.cache && x.key == a.key && x.entry == Lookup(s.cache, a.key, a.now).value;
          StillComputed(s, s', x.key, x.entry);
        }
      }
    }
  }

  lemma ActionKeepsInvariant(s: State, a: Action, p: Params)
    requires Inv(s) && Enabled(s, a)
    ensures Inv(Apply(s, a, p))
  {
    KeepsGroup(s, a, p);
    KeepsCache(s, a, p);
    KeepsFlights(s, a, p);
    KeepsThreads(s, a, p);
  }

  lemma {:induction false} RunInvariant(actions: seq<Action>, states: seq<State>, p: Params, n: nat)
    requires IsRun(actions, states, p) && n < |states|
    ensures Inv(states[n])
  {
    if n > 0 {
      RunInvariant(actions, states, p, n - 1);
      assert Enabled(states[n - 1], actions[n - 1]);
      ActionKeepsInvariant(states[n - 1], actions[n - 1], p);
    } else {
      assert Inv(INITIAL);
    }
  }

  // ---- What callers rely on ----

  predicate RunsFor(f: Flight, key: Key) {
    f.key == key && f.stage.Running?
  }

  /** In every reachable state the function runs at most once per key, and only for a key
      that is not in the cache. */
  lemma OneRunPerKey(actions: seq<Action>, states: seq<State>, p: Params, n: nat, key: Key, i: Id, j: Id)
    requires IsRun(actions, states, p) && n < |states|
    requires i < |states[n].flights| && RunsFor(states[n].flights[i], key)
    requires j < |states[n].flights| && RunsFor(states[n].flights[j], key)
    ensures i == j
    ensures Find(states[n].cache, key) == None
  {
    RunInvariant(actions, states, p, n);
    OneFlightPerKey(states[n], i, j);
    assert FlightInv(states[n], states[n].flights[i]);
  }

  /** The entry is in the cache, and a lookup of its key, by a fetch or inside a flight,
      comes after it has expired. */
  predicate SeesExpired(s: State, a: Action, x: Slot) {
    && x in s.cache
    && ((a.Begin? && a.key == x.key && a.now > x.expiresAt)
        || (a.Check? && a.id < |s.flights| && s.flights[a.id].key == x.key && a.now > x.expiresAt))
  }

  /** A store of another key pushes the entry, the last one, out of a full cache. */
  predicate Evicts(s: State, a: Action, p: Params, x: Slot) {
    && a.Store? && a.id < |s.flights| && s.flights[a.id].key != x.key
    && |s.cache| == p.maxSize > 0 && x == s.cache[|s.cache| - 1]
  }

  /** An entry leaves the cache only when a lookup finds it expired, or as the least
      recently used one when another key is stored in a full cache. */
  lemma EntryLeaves(s: State, a: Action, p: Params, x: Slot)
    requires Inv(s) && Enabled(s, a) && 1 <= p.maxSize && |s.cache| <= p.maxSize
    requires x in s.cache && x !in Apply(s, a, p).cache
    ensures SeesExpired(s, a, x) || Evicts(s, a, p, x)
  {
    if a.Store? {
      NotCachedWhileStoring(s, a.id);
    }
    assert DistinctKeys(s.cache);
    hide Inv;
    hide AfterGet;
    hide AfterSet;
    hide Lookup;
    match a
    case Begin(t, key, store, now) =>
      LookupKeeps(s.cache, key, now, x);
    case Check(id, now) =>
      LookupKeeps(s.cache, s.flights[id].key, now, x);
    case Store(id, now) =>
      var f := s.flights[id];
      StoreEvicts(s.cache, f.key, f.stage.e, now, p, x);
    case _ =>
  }

  lemma NotCachedWhileStoring(s: State, id: Id)
    requires Inv(s) && id < |s.flights| && s.flights[id].stage.Storing?
    ensures Find(s.cache, s.flights[id].key) == None
  {
    assert FlightInv(s, s.flights[id]);
  }

  lemma StoreEvicts(q: seq<Slot>, key: Key, e: Entry, now: int, p: Params, x: Slot)
    requires Find(q, key) == None && 1 <= p.maxSize && |q| <= p.maxSize
    requires x in q && x !in AfterSet(q, key, e, now, p.ttl, p.maxSize)
    ensures x.key != key && |q| == p.maxSize && x == q[|q| - 1]
  {
    DropMeaning(q, key);
    FindMeaning(q, key);
    hide Trim;
    EvictedIsLast(q, Slot(key, e, now + p.ttl), p.maxSize, x);
  }

  lemma LookupKeeps(q: seq<Slot>, key: Key, now: int, x: Slot)
    requires DistinctKeys(q) && x in q && x !in AfterGet(q, key, now)
    ensures x.key == key && now > x.expiresAt
  {
    DropMeaning(q, key);
    FindMeaning(q, key);
    FindUnique(q, x);
  }

  lemma EvictedIsLast(q: seq<Slot>, s: Slot, maxSize: nat, x: Slot)
    requires 1 <= maxSize && |q| <= maxSize && x in q && x !in Trim([s] + q, maxSize)
    ensures |q| == maxSize && x == q[|q| - 1]
  {
    var i :| 0 <= i < |q| && q[i] == x;
    var all := [s] + q;
    assert all[i + 1] == x;
    var kept := Trim(all, maxSize);
    assert forall j :: 0 <= j < |kept| ==> all[j] == kept[j] && kept[j] in kept;
  }

  lemma {:induction false} RunSize(actions: seq<Action>, states: seq<State>, p: Params, n: nat)
    requires IsRun(actions, states, p) && n < |states|
    ensures |states[n].cache| <= p.maxSize
  {
    if n > 0 {
      RunSize(actions, states, p, n - 1);
      RunInvariant(actions, states, p, n - 1);
      assert Enabled(states[n - 1], actions[n - 1]);
      SizeKept(states[n - 1], actions[n - 1], p);
    }
  }

  lemma SizeKept(s: State, a: Action, p: Params)
    requires DistinctKeys(s.cache) && |s.cache| <= p.maxSize && Enabled(s, a)
    ensures |Apply(s, a, p).cache| <= p.maxSize
  {
    match a
    case Begin(t, key, store, now) =>
      GetKeepsInvariant(s.cache, key, now, p.maxSize);
    case Check(id, now) =>
      GetKeepsInvariant(s.cache, s.flights[id].key, now, p.maxSize);
    case _ =>
  }

  /** The entry that is stored is in the cache afterwards. */
  lemma StoreIsCached(s: State, id: Id, now: int, p: Params)
    requires Inv(s) && Enabled(s, Store(id, now)) && 1 <= p.maxSize
    ensures Slot(s.flights[id].key, s.flights[id].stage.e, now + p.ttl) in Apply(s, Store(id, now), p).cache
  {
    var f := s.flights[id];
    var x := Slot(f.key, f.stage.e, now + p.ttl);
    assert AfterSet(s.cache, f.key, f.stage.e, now, p.ttl, p.maxSize)[0] == x;
  }

  /** A cached entry is still there at a later state of the run, or some action in between
      has seen it expired or has evicted it. */
  lemma {:induction false} StaysUntil(actions: seq<Action>, states: seq<State>, p: Params, m: nat, n: nat, x: Slot)
    requires IsRun(actions, states, p) && 1 <= p.maxSize && m <= n < |states| && x in states[m].cache
    ensures x in states[n].cache
            || exists k :: m <= k < n && (SeesExpired(states[k], actions[k], x) || Evicts(states[k], actions[k], p, x))
    decreases n - m
  {
    hide Apply;
    hide Inv;
    hide SeesExpired;
    hide Evicts;
    if m < n {
      StaysUntil(actions, states, p, m, n - 1, x);
      if x in states[n - 1].cache && x !in states[n].cache {
        RunInvariant(actions, states, p, n - 1);
        RunSize(actions, states, p, n - 1);
        assert Enabled(states[n - 1], actions[n - 1]);
        EntryLeaves(states[n - 1], actions[n - 1], p, x);
      }
    }
  }

  /** A flight starts the function only when its lookup finds no live entry. */
  lemma StartMeans(s: State, a: Action, p: Params, x: Slot)
    requires Inv(s) && Enabled(s, a) && a.Check? && x in s.cache
    requires RunsFor(Apply(s, a, p).flights[a.id], x.key)
    ensures SeesExpired(s, a, x)
  {
    FindUnique(s.cache, x);
  }

  /** Once a flight has stored an entry, the function starts again for its key only after a
      lookup of the key has found that entry expired, or after a store of another key has
      evicted it from a full cache as the least recently used one. */
  lemma NoStartAfterStore(actions: seq<Action>, states: seq<State>, p: Params, i: nat, j: nat, e: Entry)
    requires IsRun(actions, states, p) && 1 <= p.maxSize && i < j < |actions|
    requires actions[i].Store? && AtStage(states[i], actions[i].id, Storing(e))
    requires actions[j].Check? && actions[j].id < |states[j + 1].flights|
    requires RunsFor(states[j + 1].flights[actions[j].id], states[i].flights[actions[i].id].key)
    ensures var x := Slot(states[i].flights[actions[i].id].key, e, actions[i].now + p.ttl);
            || (exists k :: i < k <= j && SeesExpired(states[k], actions[k], x))
            || (exists k :: i < k < j && Evicts(states[k], actions[k], p, x))
  {
    var x := Slot(states[i].flights[actions[i].id].key, e, actions[i].now + p.ttl);
    RunInvariant(actions, states, p, i);
    RunInvariant(actions, states, p, j);
    assert Enabled(states[i], actions[i]) && Enabled(states[j], actions[j]);
    StoreIsCached(states[i], actions[i].id, actions[i].now, p);
    StaysUntil(actions, states, p, i + 1, j, x);
    if x in states[j].cache {
      StartMeans(states[j], actions[j], p, x);
    }
  }

  function Begins(actions: seq<Action>): nat {
    if actions == [] then 0
    else Begins(actions[..|actions| - 1]) + if actions[|actions| - 1].Begin? then 1 else 0
  }

  /** Every fetch counts as a hit or as a miss, once. */
  lemma {:induction false} CountersAddUp(actions: seq<Action>, states: seq<State>, p: Params, n: nat)
    requires IsRun(actions, states, p) && n < |states|
    ensures states[n].hits + states[n].misses == Begins(actions[..n])
  {
    if n > 0 {
      CountersAddUp(actions, states, p, n - 1);
      assert actions[..n][..n - 1] == actions[..n - 1];
      assert Enabled(states[n - 1], actions[n - 1]);
    }
  }

  /** The fetches among the first `n` actions that were answered by the first lookup. */
  ghost function AnsweredAtOnce(actions: seq<Action>, states: seq<State>, n: nat): nat
    requires n <= |actions| < |states|
  {
    if n == 0 then 0
    else
      var a := actions[n - 1];
      AnsweredAtOnce(actions, states, n - 1)
      + if a.Begin? && PcOf(states[n], a.t).Done? then 1 else 0
  }

  /** The cache holds the slot, for the key, and it has not expired. */
  predicate IsLive(s: State, key: Key, now: int, x: Slot) {
    x in s.cache && x.key == key && now <= x.expiresAt
  }

  /** A fetch is done at once exactly when the cache holds a live entry of the key, and then
      with that entry, as a hit. */
  ghost predicate AnswersIfLive(s: State, a: Action, s': State)
    requires a.Begin?
  {
    && (PcOf(s', a.t).Done? ==> exists x :: IsLive(s, a.key, a.now, x) && PcOf(s', a.t) == Done(a.key, Ok(x.entry), true, None))
    && ((exists x :: IsLive(s, a.key, a.now, x)) ==> PcOf(s', a.t).Done?)
  }

  lemma BeginAnswers(s: State, a: Action, p: Params)
    requires Inv(s) && a.Begin? && Enabled(s, a)
    ensures AnswersIfLive(s, a, Apply(s, a, p))
    ensures Apply(s, a, p).hits == s.hits + if PcOf(Apply(s, a, p), a.t).Done? then 1 else 0
  {
    FindMeaning(s.cache, a.key);
    assert DistinctKeys(s.cache);
    hide Inv;
    if Lookup(s.cache, a.key, a.now).Some? {
      assert IsLive(s, a.key, a.now, Find(s.cache, a.key).value);
    }
    if x :| IsLive(s, a.key, a.now, x) {
      FindUnique(s.cache, x);
    }
  }

  /** The hits are the fetches that were done as soon as they had begun, and those are the
      ones that found a live entry of their key. */
  lemma {:induction false} HitsAreAnswers(actions: seq<Action>, states: seq<State>, p: Params, n: nat)
    requires IsRun(actions, states, p) && n <= |actions|
    ensures states[n].hits == AnsweredAtOnce(actions, states, n)
    ensures forall i :: 0 <= i < n && actions[i].Begin? ==> AnswersIfLive(states[i], actions[i], states[i + 1])
  {
    if n > 0 {
      HitsAreAnswers(actions, states, p, n - 1);
      RunInvariant(actions, states, p, n - 1);
      assert Enabled(states[n - 1], actions[n - 1]);
      if actions[n - 1].Begin? {
        BeginAnswers(states[n - 1], actions[n - 1], p);
        hide Apply;
      }
      hide Inv;
      hide AnswersIfLive;
    }
  }

  /** All members of a flight are given the same entry or the same error, at whatever time
      they pick it up. */
  lemma SameResultForMembers(actions: seq<Action>, states: seq<State>, p: Params, m: nat, n: nat, t: Thread, u: Thread)
    requires IsRun(actions, states, p) && m <= n < |states|
    requires t in states[m].threads && states[m].threads[t].Done? && states[m].threads[t].flight.Some?
    requires u in states[n].threads && states[n].threads[u].Done?
    requires states[n].threads[u].flight == states[m].threads[t].flight
    ensures states[n].threads[u].result == states[m].threads[t].result
    ensures states[n].threads[u].key == states[m].threads[t].key
  {
    RunInvariant(actions, states, p, m);
    RunInvariant(actions, states, p, n);
    RunGrows(actions, states, p, m, n);
    assert ThreadInv(states[m], states[m].threads[t]);
    assert ThreadInv(states[n], states[n].threads[u]);
  }

  lemma {:induction false} RunGrows(actions: seq<Action>, states: seq<State>, p: Params, m: nat, n: nat)
    requires IsRun(actions, states, p) && m <= n < |states|
    ensures Grows(states[m], states[n])
    decreases n - m
  {
    hide Apply;
    hide Inv;
    hide Grows;
    hide Enabled;
    if m == n {
      GrowsReflexive(states[m]);
    } else {
      RunGrows(actions, states, p, m, n - 1);
      RunInvariant(actions, states, p, n - 1);
      assert Enabled(states[n - 1], actions[n - 1]);
      ActionGrows(states[n - 1], actions[n - 1], p);
      GrowsTransitive(states[m], states[n - 1], states[n]);
    }
  }

  lemma GrowsReflexive(a: State)
    ensures Grows(a, a)
  {
  }

  lemma GrowsTransitive(a: State, b: State, c: State)
    requires Grows(a, b) && Grows(b, c)
    ensures Grows(a, c)
  {
  }

  /** Errors, and what is computed in flights led without `store`, never reach the cache:
      every cached entry was returned by the function, for that key, in a storing flight. */
  lemma CachedWasComputed(actions: seq<Action>, states: seq<State>, p: Params, n: nat, x: Slot)
    requires IsRun(actions, states, p) && n < |states| && x in states[n].cache
    ensures Computed(states[n], x.key, x.entry)
  {
    RunInvariant(actions, states, p, n);
  }

// ---- The cache of a run ----

  /** What an action does to the cache, as an operation on the list. */
  function OperationsOf(s: State, a: Action): seq<Op>
    requires Enabled(s, a)
  {
    match a
    case Begin(_, key, _, now) => [Get(key, now)]
    case Check(id, now) => [Get(s.flights[id].key, now)]
    case Store(id, now) => [Set(s.flights[id].key, s.flights[id].stage.e, now)]
    case _ => []
  }

  /** The operations of the first `n` actions, in their order. */
  ghost function Trace(actions: seq<Action>, states: seq<State>, p: Params, n: nat): seq<Op>
    requires IsRun(actions, states, p) && n <= |actions|
  {
    if n == 0 then [] else Trace(actions, states, p, n - 1) + OperationsOf(states[n - 1], actions[n - 1])
  }

  lemma RunSnoc(ops: seq<Op>, op: Op, ttl: int, maxSize: nat)
    ensures Run(ops + [op], ttl, maxSize) == Step(Run(ops, ttl, maxSize), op, ttl, maxSize)
  {
    assert (ops + [op])[..|ops|] == ops;
  }

  /** However fetches interleave, the cache is that of a sequence of lookups and stores: one
      lookup when a fetch begins, one when its flight checks, one store when it stores. */
  lemma {:induction false} CacheIsSequential(actions: seq<Action>, states: seq<State>, p: Params, n: nat)
    requires IsRun(actions, states, p) && n <= |actions|
    ensures states[n].cache == Run(Trace(actions, states, p, n), p.ttl, p.maxSize)
  {
    if n > 0 {
      CacheIsSequential(actions, states, p, n - 1);
      var s, a := states[n - 1], actions[n - 1];
      assert Enabled(s, a) && states[n] == Apply(s, a, p);
      var ops := Trace(actions, states, p, n - 1);
      var next := OperationsOf(s, a);
      if next == [] {
        assert ops + next == ops;
      } else {
        RunSnoc(ops, next[0], p.ttl, p.maxSize);
      }
    }
  }

  // ---- Who leads a flight ----

  /** Action `i` is the latest start of a fetch by the thread before `n`, and asks this. */
  ghost predicate Began(actions: seq<Action>, n: nat, t: Thread, key: Key, store: bool, i: nat) {
    && i < n <= |actions|
    && actions[i].Begin? && actions[i].t == t && actions[i].key == key && actions[i].store == store
    && forall k :: i < k < n && actions[k].Begin? ==> actions[k].t != t
  }

  /** That was the wish of the thread when it last started a fetch. */
  ghost predicate Wished(actions: seq<Action>, n: nat, t: Thread, key: Key, store: bool) {
    exists i: nat :: Began(actions, n, t, key, store, i)
  }

  /** Action `j` opens flight `id` for a fetch that asked for this. */
  ghost predicate Opens(actions: seq<Action>, states: seq<State>, id: Id, key: Key, store: bool, j: nat) {
    && j < |actions| && j < |states| && actions[j].Join? && |states[j].flights| == id
    && Wished(actions, j, actions[j].t, key, store)
  }

  /** One of the first `n` actions did. */
  ghost predicate Opened(actions: seq<Action>, states: seq<State>, n: nat, id: Id, f: Flight) {
    exists j: nat :: j < n && Opens(actions, states, id, f.key, f.store, j)
  }

  /** What the threads that missed have asked. */
  ghost predicate MissedBegan(actions: seq<Action>, n: nat, s: State) {
    forall t :: PcOf(s, t).Missed? ==> Wished(actions, n, t, PcOf(s, t).key, PcOf(s, t).store)
  }

  ghost predicate FlightsOpened(actions: seq<Action>, states: seq<State>, n: nat, s: State) {
    forall id :: 0 <= id < |s.flights| ==> Opened(actions, states, n, id, s.flights[id])
  }

  lemma MissedStep(actions: seq<Action>, n: nat, s: State, p: Params)
    requires n < |actions| && Enabled(s, actions[n]) && MissedBegan(actions, n, s)
    ensures MissedBegan(actions, n + 1, Apply(s, actions[n], p))
  {
    var a, s' := actions[n], Apply(s, actions[n], p);
    forall t | PcOf(s', t).Missed?
      ensures Wished(actions, n + 1, t, PcOf(s', t).key, PcOf(s', t).store)
    {
      if a.Begin? && a.t == t {
        assert Began(actions, n + 1, t, a.key, a.store, n);
      } else {
        assert PcOf(s', t) == PcOf(s, t);
        var i: nat :| Began(actions, n, t, PcOf(s, t).key, PcOf(s, t).store, i);
        assert Began(actions, n + 1, t, PcOf(s, t).key, PcOf(s, t).store, i);
      }
    }
  }

  /** A flight keeps its key and its leader's wish; only a joining thread that missed opens
      another. */
  lemma FlightsGrow(s: State, a: Action, p: Params)
    requires Enabled(s, a)
    ensures var s' := Apply(s, a, p);
            && |s.flights| <= |s'.flights|
            && (forall id :: 0 <= id < |s.flights| ==>
                  s'.flights[id].key == s.flights[id].key && s'.flights[id].store == s.flights[id].store)
            && (forall id :: |s.flights| <= id < |s'.flights| ==>
                  && a.Join? && id == |s.flights|
                  && s'.flights[id].key == PcOf(s, a.t).key && s'.flights[id].store == PcOf(s, a.t).store)
  {
  }

  lemma FlightsStep(actions: seq<Action>, states: seq<State>, n: nat, p: Params)
    requires n < |actions| && n < |states| && Enabled(states[n], actions[n])
    requires MissedBegan(actions, n, states[n]) && FlightsOpened(actions, states, n, states[n])
    ensures FlightsOpened(actions, states, n + 1, Apply(states[n], actions[n], p))
  {
    var s, s' := states[n], Apply(states[n], actions[n], p);
    FlightsGrow(s, actions[n], p);
    assert actions[n].Join? ==> PcOf(s, actions[n].t).Missed?;
    hide Apply;
    hide Enabled;
    hide Wished;
    forall id | 0 <= id < |s'.flights| ensures Opened(actions, states, n + 1, id, s'.flights[id]) {
      if id < |s.flights| {
        hide Opens;
        assert Opened(actions, states, n, id, s.flights[id]);
      } else {
        assert Opens(actions, states, id, s'.flights[id].key, s'.flights[id].store, n);
      }
    }
  }

  /** Every flight was opened by a thread whose latest fetch asked for the key of the flight,
      and the flight stores exactly if that fetch wanted it to. */
  lemma {:induction false} LeadersDecide(actions: seq<Action>, states: seq<State>, p: Params, n: nat)
    requires IsRun(actions, states, p) && n <= |actions|
    ensures MissedBegan(actions, n, states[n]) && FlightsOpened(actions, states, n, states[n])
  {
    if n > 0 {
      LeadersDecide(actions, states, p, n - 1);
      assert Enabled(states[n - 1], actions[n - 1]) && states[n] == Apply(states[n - 1], actions[n - 1], p);
      MissedStep(actions, n - 1, states[n - 1], p);
      FlightsStep(actions, states, n - 1, p);
    }
  }

  /** What nobody asked to store is never in the cache. */
  lemma StoredWasAsked(actions: seq<Action>, states: seq<State>, p: Params, n: nat, x: Slot) returns (i: nat)
    requires IsRun(actions, states, p) && n <= |actions| && x in states[n].cache
    ensures i < n && actions[i].Begin? && actions[i].key == x.key && actions[i].store
  {
    CachedWasComputed(actions, states, p, n, x);
    LeadersDecide(actions, states, p, n);
    var id: nat :| id < |states[n].flights| && IsSource(states[n].flights[id], x.key, x.entry);
    assert Opened(actions, states, n, id, states[n].flights[id]);
    var j: nat :| j < n && Opens(actions, states, id, x.key, true, j);
    i :| Began(actions, j, actions[j].t, x.key, true, i);
  }

  /** A fetch returns what the function returned for its key, in its own flight or in an
      earlier storing one; an error only comes from its own flight; a hit is never an
      error. */
  lemma FetchedWasComputed(actions: seq<Action>, states: seq<State>, p: Params, n: nat, t: Thread)
    requires IsRun(actions, states, p) && n < |states|
    requires t in states[n].threads && states[n].threads[t].Done?
    ensures var pc := states[n].threads[t];
            && (pc.hit <==> pc.flight.None?)
            && ((pc.result.Ok? && Computed(states[n], pc.key, pc.result.value))
                || (pc.flight.Some? && pc.flight.value < |states[n].flights|
                    && states[n].flights[pc.flight.value].key == pc.key
                    && states[n].flights[pc.flight.value].outcome == Some(pc.result)))
  {
    RunInvariant(actions, states, p, n);
    var pc := states[n].threads[t];
    assert ThreadInv(states[n], pc);
    if pc.flight.Some? {
      assert FlightInv(states[n], states[n].flights[pc.flight.value]);
    }
  }

  /** No fetch is ever stuck: whoever is not done can act, or the flight it waits for can. */
  lemma NoDeadlock(s: State, t: Thread)
    requires Inv(s) && t in s.threads && !s.threads[t].Done?
    ensures exists a :: Enabled(s, a)
    ensures s.threads[t].Waiting? ==>
              Enabled(s, Receive(t)) || Enabled(s, Publish(s.threads[t].id)) || Enabled(s, Store(s.threads[t].id, 0))
              || Enabled(s, Check(s.threads[t].id, 0)) || Enabled(s, Return(s.threads[t].id, Err("")))
  {
    var pc := s.threads[t];
    assert ThreadInv(s, pc);
    match pc
    case Idle => assert Enabled(s, Begin(t, 0, true, 0));
    case Missed(_, _) => assert Enabled(s, Join(t));
    case Waiting(_, id) =>
      match s.flights[id].stage
      case Checking => assert Enabled(s, Check(id, 0));
      case Running => assert Enabled(s, Return(id, Err("")));
      case Storing(_) => assert Enabled(s, Store(id, 0));
      case Returning(_) => assert Enabled(s, Publish(id));
      case Published(_) => assert Enabled(s, Receive(t));
  }
}

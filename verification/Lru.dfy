/** The least-recently-used list of the result cache as a function of its operations
    (proxy/cache/cache.go:88-130), and what holds over every run. */
module Lru {
  import opened Types

  type Key = int

  /** Entry: a rendered response. */
  datatype Entry = Entry(body: seq<bv8>, contentType: string)

  /** One element of the list, front first in the order of use. */
  datatype Slot = Slot(key: Key, entry: Entry, expiresAt: int)

  // ---- The operations ----

  function Find(q: seq<Slot>, k: Key): Option<Slot> {
    if q == [] then None else if q[0].key == k then Some(q[0]) else Find(q[1..], k)
  }

  function Drop(q: seq<Slot>, k: Key): seq<Slot> {
    if q == [] then [] else if q[0].key == k then Drop(q[1..], k) else [q[0]] + Drop(q[1..], k)
  }

  function Trim(q: seq<Slot>, maxSize: nat): seq<Slot> {
    if |q| <= maxSize then q else q[..maxSize]
  }

  /** What a lookup returns. */
  function Lookup(q: seq<Slot>, k: Key, now: int): Option<Entry> {
    match Find(q, k)
    case Some(s) => if now > s.expiresAt then None else Some(s.entry)
    case None => None
  }

  /** A live entry moves to the front, an expired one is removed. */
  function AfterGet(q: seq<Slot>, k: Key, now: int): seq<Slot> {
    match Find(q, k)
    case Some(s) => if now > s.expiresAt then Drop(q, k) else [s] + Drop(q, k)
    case None => q
  }

  /** The entry moves or is put to the front; the last ones fall off. */
  function AfterSet(q: seq<Slot>, k: Key, e: Entry, now: int, ttl: int, maxSize: nat): seq<Slot> {
    Trim([Slot(k, e, now + ttl)] + Drop(q, k), maxSize)
  }

  // ---- Invariant ----

  ghost predicate DistinctKeys(q: seq<Slot>) {
    forall i, j :: 0 <= i < j < |q| ==> q[i].key != q[j].key
  }

  ghost predicate Wellformed(q: seq<Slot>, maxSize: nat) {
    DistinctKeys(q) && |q| <= maxSize
  }

  lemma {:induction false} FindMeaning(q: seq<Slot>, k: Key)
    ensures Find(q, k).Some? ==> Find(q, k).value in q && Find(q, k).value.key == k
    ensures Find(q, k).None? <==> forall s :: s in q ==> s.key != k
  {
    if q != [] && q[0].key != k {
      FindMeaning(q[1..], k);
      assert q == [q[0]] + q[1..];
    }
  }

  lemma {:induction false} FindUnique(q: seq<Slot>, s: Slot)
    requires DistinctKeys(q) && s in q
    ensures Find(q, s.key) == Some(s)
  {
    if q[0] != s {
      assert s in q[1..];
      var i :| 1 <= i < |q| && q[i] == s;
      assert q[0].key != q[i].key;
      FindUnique(q[1..], s);
    }
  }

  lemma {:induction false} DropMeaning(q: seq<Slot>, k: Key)
    ensures |Drop(q, k)| <= |q|
    ensures forall s :: s in Drop(q, k) <==> s in q && s.key != k
    ensures Find(q, k).Some? ==> |Drop(q, k)| < |q|
    ensures Find(q, k).None? ==> Drop(q, k) == q
  {
    if q != [] {
      DropMeaning(q[1..], k);
      assert q == [q[0]] + q[1..];
    }
  }

  lemma {:induction false} DropDistinct(q: seq<Slot>, k: Key)
    requires DistinctKeys(q)
    ensures DistinctKeys(Drop(q, k))
  {
    if q != [] {
      DropDistinct(q[1..], k);
      DropMeaning(q[1..], k);
      var rest := Drop(q[1..], k);
      forall s | s in rest ensures s.key != q[0].key {
        var j :| 0 <= j < |q[1..]| && q[1..][j] == s;
        assert q[j + 1].key != q[0].key;
      }
    }
  }

  lemma GetKeepsInvariant(q: seq<Slot>, k: Key, now: int, maxSize: nat)
    requires Wellformed(q, maxSize)
    ensures Wellformed(AfterGet(q, k, now), maxSize)
  {
    DropMeaning(q, k);
    DropDistinct(q, k);
    FindMeaning(q, k);
    ConsDistinct(Drop(q, k), k);
  }

  lemma ConsDistinct(q: seq<Slot>, k: Key)
    requires DistinctKeys(q) && forall s :: s in q ==> s.key != k
    ensures forall s: Slot :: s.key == k ==> DistinctKeys([s] + q)
  {
  }

  lemma SetKeepsInvariant(q: seq<Slot>, k: Key, e: Entry, now: int, ttl: int, maxSize: nat)
    requires Wellformed(q, maxSize)
    ensures Wellformed(AfterSet(q, k, e, now, ttl, maxSize), maxSize)
  {
    DropMeaning(q, k);
    DropDistinct(q, k);
    ConsDistinct(Drop(q, k), k);
  }

  // ---- Runs ----

  datatype Op = Get(key: Key, now: int) | Set(key: Key, entry: Entry, now: int)

  function Step(q: seq<Slot>, op: Op, ttl: int, maxSize: nat): seq<Slot> {
    match op
    case Get(k, now) => AfterGet(q, k, now)
    case Set(k, e, now) => AfterSet(q, k, e, now, ttl, maxSize)
  }

  /** The list after the operations, oldest first, on an empty cache. */
  function Run(ops: seq<Op>, ttl: int, maxSize: nat): seq<Slot> {
    if ops == [] then [] else Step(Run(ops[..|ops| - 1], ttl, maxSize), ops[|ops| - 1], ttl, maxSize)
  }

  lemma {:induction false} RunWellformed(ops: seq<Op>, ttl: int, maxSize: nat)
    ensures Wellformed(Run(ops, ttl, maxSize), maxSize)
  {
    if ops != [] {
      var q, op := Run(ops[..|ops| - 1], ttl, maxSize), ops[|ops| - 1];
      RunWellformed(ops[..|ops| - 1], ttl, maxSize);
      match op
      case Get(k, now) => GetKeepsInvariant(q, k, now, maxSize);
      case Set(k, e, now) => SetKeepsInvariant(q, k, e, now, ttl, maxSize);
    }
  }

  // ---- Stack inclusion ----

  /** The slots of `a`, in their order, are among those of `b`. */
  ghost predicate Sub(a: seq<Slot>, b: seq<Slot>) {
    if a == [] then true
    else if b == [] then false
    else if a[0] == b[0] then Sub(a[1..], b[1..])
    else Sub(a, b[1..])
  }

  lemma {:induction false} SubMembers(a: seq<Slot>, b: seq<Slot>)
    requires Sub(a, b)
    ensures |a| <= |b| && forall s :: s in a ==> s in b
  {
    if a != [] {
      assert a == [a[0]] + a[1..] && b == [b[0]] + b[1..];
      if a[0] == b[0] {
        SubMembers(a[1..], b[1..]);
      } else {
        SubMembers(a, b[1..]);
      }
    }
  }

  lemma {:induction false} SubTail(a: seq<Slot>, b: seq<Slot>)
    requires Sub(a, b) && a != []
    ensures Sub(a[1..], b)
    decreases |a| + |b|, 0
  {
    if a[0] == b[0] {
      SubWider(a[1..], b[1..], b[0]);
      assert b == [b[0]] + b[1..];
    } else {
      SubTail(a, b[1..]);
      SubWider(a[1..], b[1..], b[0]);
      assert b == [b[0]] + b[1..];
    }
  }

  /** One more slot in front of the larger list. */
  lemma {:induction false} SubWider(a: seq<Slot>, b: seq<Slot>, s: Slot)
    requires Sub(a, b)
    ensures Sub(a, [s] + b)
    decreases |a| + |b|, 1
  {
    assert ([s] + b)[1..] == b;
    if a != [] && a[0] == s {
      SubTail(a, b);
    }
  }

  lemma SubCons(a: seq<Slot>, b: seq<Slot>, s: Slot)
    requires Sub(a, b)
    ensures Sub([s] + a, [s] + b)
  {
    assert ([s] + a)[1..] == a && ([s] + b)[1..] == b;
  }

  lemma {:induction false} SubDropBoth(a: seq<Slot>, b: seq<Slot>, k: Key)
    requires Sub(a, b)
    ensures Sub(Drop(a, k), Drop(b, k))
  {
    if a != [] {
      if a[0] == b[0] {
        SubDropBoth(a[1..], b[1..], k);
        if a[0].key != k {
          SubCons(Drop(a[1..], k), Drop(b[1..], k), a[0]);
        }
      } else {
        SubDropBoth(a, b[1..], k);
        if b[0].key != k {
          SubWider(Drop(a, k), Drop(b[1..], k), b[0]);
        }
      }
    }
  }

  lemma {:induction false} SubFront(a: seq<Slot>, b: seq<Slot>)
    requires Sub(a, b) && a != []
    ensures Sub(a[..|a| - 1], b)
  {
    var front := a[..|a| - 1];
    if |a| > 1 {
      assert front[0] == a[0];
      if a[0] == b[0] {
        SubFront(a[1..], b[1..]);
        assert front[1..] == a[1..][..|a| - 2];
      } else {
        SubFront(a, b[1..]);
      }
    }
  }

  /** Dropping the last slot of both lists. */
  lemma {:induction false} SubFronts(a: seq<Slot>, b: seq<Slot>)
    requires Sub(a, b) && a != []
    ensures Sub(a[..|a| - 1], b[..|b| - 1])
  {
    var fa, fb := a[..|a| - 1], b[..|b| - 1];
    SubMembers(a, b);
    if |a| > 1 {
      assert fa[0] == a[0] && fb[0] == b[0];
      if a[0] == b[0] {
        SubFronts(a[1..], b[1..]);
        assert fa[1..] == a[1..][..|a| - 2] && fb[1..] == b[1..][..|b| - 2];
      } else {
        SubFronts(a, b[1..]);
        assert fb[1..] == b[1..][..|b| - 2];
      }
    }
  }

  /** A smaller and a larger cache that have seen the same operations: the smaller holds
      part of the larger, and has no more room left. */
  ghost predicate Included(a: seq<Slot>, b: seq<Slot>, small: nat, large: nat) {
    && Wellformed(a, small) && Wellformed(b, large)
    && Sub(a, b) && |b| - |a| <= large - small
  }

  lemma SameSlot(a: seq<Slot>, b: seq<Slot>, k: Key)
    requires Sub(a, b) && DistinctKeys(b)
    ensures Find(a, k).Some? ==> Find(b, k) == Find(a, k)
  {
    SubMembers(a, b);
    FindMeaning(a, k);
    if Find(a, k).Some? {
      FindUnique(b, Find(a, k).value);
    }
  }

  lemma {:induction false} DropLength(q: seq<Slot>, k: Key)
    requires DistinctKeys(q)
    ensures |Drop(q, k)| == if Find(q, k).Some? then |q| - 1 else |q|
  {
    if q != [] {
      DropLength(q[1..], k);
      if q[0].key == k {
        FindMeaning(q[1..], k);
        assert Find(q[1..], k).None?;
      }
    }
  }

  lemma GetIncluded(a: seq<Slot>, b: seq<Slot>, small: nat, large: nat, k: Key, now: int)
    requires Included(a, b, small, large)
    ensures Included(AfterGet(a, k, now), AfterGet(b, k, now), small, large)
  {
    GetKeepsInvariant(a, k, now, small);
    GetKeepsInvariant(b, k, now, large);
    SameSlot(a, b, k);
    SubDropBoth(a, b, k);
    DropLength(a, k);
    DropLength(b, k);
    if Find(a, k).Some? {
      SubCons(Drop(a, k), Drop(b, k), Find(a, k).value);
    } else {
      DropMeaning(a, k);
      if Find(b, k).Some? {
        SubWider(a, Drop(b, k), Find(b, k).value);
      }
    }
  }

  lemma SetIncluded(a: seq<Slot>, b: seq<Slot>, small: nat, large: nat, k: Key, e: Entry, now: int, ttl: int)
    requires Included(a, b, small, large) && 1 <= small <= large
    ensures Included(AfterSet(a, k, e, now, ttl, small), AfterSet(b, k, e, now, ttl, large), small, large)
  {
    var s := Slot(k, e, now + ttl);
    SetKeepsInvariant(a, k, e, now, ttl, small);
    SetKeepsInvariant(b, k, e, now, ttl, large);
    SameSlot(a, b, k);
    SubDropBoth(a, b, k);
    DropLength(a, k);
    DropLength(b, k);
    var a', b' := [s] + Drop(a, k), [s] + Drop(b, k);
    SubCons(Drop(a, k), Drop(b, k), s);
    if |a'| > small {
      SubFront(a', b');
      SubFronts(a', b');
      assert a'[..|a'| - 1] == a'[..small];
      if |b'| > large {
        assert b'[..|b'| - 1] == b'[..large];
      }
    }
  }

  /** On the same operations a larger cache holds everything a smaller one holds. */
  lemma {:induction false} StackInclusion(ops: seq<Op>, ttl: int, small: nat, large: nat)
    requires 1 <= small <= large
    ensures Included(Run(ops, ttl, small), Run(ops, ttl, large), small, large)
  {
    assert Included([], [], small, large);
    hide Included;
    if ops != [] {
      var a, b := Run(ops[..|ops| - 1], ttl, small), Run(ops[..|ops| - 1], ttl, large);
      StackInclusion(ops[..|ops| - 1], ttl, small, large);
      match ops[|ops| - 1]
      case Get(k, now) => GetIncluded(a, b, small, large, k, now);
      case Set(k, e, now) => SetIncluded(a, b, small, large, k, e, now, ttl);
    }
  }

  /** A larger cache never turns a hit into a miss or into another answer. */
  lemma LargerCacheHits(ops: seq<Op>, ttl: int, small: nat, large: nat, k: Key, now: int)
    requires 1 <= small <= large
    ensures Lookup(Run(ops, ttl, small), k, now).Some? ==>
              Lookup(Run(ops, ttl, large), k, now) == Lookup(Run(ops, ttl, small), k, now)
  {
    StackInclusion(ops, ttl, small, large);
    SameSlot(Run(ops, ttl, small), Run(ops, ttl, large), k);
  }

  // ---- Order of use ----

  /** The operation uses the key: a store, or a lookup that hits. */
  predicate Touches(q: seq<Slot>, op: Op, k: Key) {
    op.key == k && (op.Set? || Lookup(q, k, op.now).Some?)
  }

  /** The number of the last operation that used the key; zero for none. */
  function LastTouch(ops: seq<Op>, ttl: int, maxSize: nat, k: Key): nat {
    if ops == [] then 0
    else
      var front, op := ops[..|ops| - 1], ops[|ops| - 1];
      if Touches(Run(front, ttl, maxSize), op, k) then |ops| else LastTouch(front, ttl, maxSize, k)
  }

  lemma {:induction false} LastTouchBound(ops: seq<Op>, ttl: int, maxSize: nat, k: Key)
    ensures LastTouch(ops, ttl, maxSize, k) <= |ops|
  {
    if ops != [] {
      LastTouchBound(ops[..|ops| - 1], ttl, maxSize, k);
    }
  }

  ghost predicate Descending(q: seq<Slot>, rank: Key -> nat) {
    forall i, j :: 0 <= i < j < |q| ==> rank(q[i].key) > rank(q[j].key)
  }

  lemma {:induction false} DropDescending(q: seq<Slot>, k: Key, rank: Key -> nat)
    requires Descending(q, rank)
    ensures Descending(Drop(q, k), rank)
  {
    if q != [] {
      DropDescending(q[1..], k, rank);
      DropMeaning(q[1..], k);
      var rest := Drop(q[1..], k);
      forall i | 0 <= i < |rest| ensures rank(rest[i].key) < rank(q[0].key) {
        assert rest[i] in rest;
        var j :| 0 <= j < |q[1..]| && q[1..][j] == rest[i];
        assert rank(q[j + 1].key) < rank(q[0].key);
      }
      ConsDescending(q[0], rest, rank);
    }
  }

  lemma ConsDescending(s: Slot, rest: seq<Slot>, rank: Key -> nat)
    requires Descending(rest, rank) && forall i :: 0 <= i < |rest| ==> rank(rest[i].key) < rank(s.key)
    ensures Descending([s] + rest, rank)
  {
    var q := [s] + rest;
    forall i, j | 0 <= i < j < |q| ensures rank(q[i].key) > rank(q[j].key) {
      assert q[j] == rest[j - 1];
      if i > 0 {
        assert q[i] == rest[i - 1];
      }
    }
  }

  lemma DescendingCons(q: seq<Slot>, s: Slot, rank: Key -> nat, rank': Key -> nat, top: nat)
    requires Descending(q, rank)
    requires forall x :: x in q ==> rank'(x.key) == rank(x.key) < top
    requires rank'(s.key) == top
    ensures Descending([s] + q, rank')
  {
  }

  function TouchRank(ops: seq<Op>, ttl: int, maxSize: nat): Key -> nat {
    k => LastTouch(ops, ttl, maxSize, k)
  }

  lemma RankStep(ops: seq<Op>, ttl: int, maxSize: nat, x: Key)
    requires ops != []
    ensures TouchRank(ops[..|ops| - 1], ttl, maxSize)(x) < |ops|
    ensures x != ops[|ops| - 1].key ==> TouchRank(ops, ttl, maxSize)(x) == TouchRank(ops[..|ops| - 1], ttl, maxSize)(x)
  {
    LastTouchBound(ops[..|ops| - 1], ttl, maxSize, x);
  }

  /** The slot of the key in use goes in front of the others. */
  lemma FrontIsLatest(ops: seq<Op>, ttl: int, maxSize: nat, s: Slot)
    requires ops != [] && s.key == ops[|ops| - 1].key
    requires LastTouch(ops, ttl, maxSize, s.key) == |ops|
    requires Descending(Run(ops[..|ops| - 1], ttl, maxSize), TouchRank(ops[..|ops| - 1], ttl, maxSize))
    ensures Descending([s] + Drop(Run(ops[..|ops| - 1], ttl, maxSize), s.key), TouchRank(ops, ttl, maxSize))
  {
    var q := Run(ops[..|ops| - 1], ttl, maxSize);
    var rank, rank' := TouchRank(ops[..|ops| - 1], ttl, maxSize), TouchRank(ops, ttl, maxSize);
    DropDescending(q, s.key, rank);
    DropMeaning(q, s.key);
    assert rank'(s.key) == |ops|;
    hide *;
    forall x | x in Drop(q, s.key) ensures rank'(x.key) == rank(x.key) < |ops| {
      RankStep(ops, ttl, maxSize, x.key);
    }
    DescendingCons(Drop(q, s.key), s, rank, rank', |ops|);
  }

  lemma TrimDescending(q: seq<Slot>, maxSize: nat, rank: Key -> nat)
    requires Descending(q, rank)
    ensures Descending(Trim(q, maxSize), rank)
  {
  }

  lemma SameRankDescending(q: seq<Slot>, rank: Key -> nat, rank': Key -> nat)
    requires Descending(q, rank) && forall x :: rank'(x) == rank(x)
    ensures Descending(q, rank')
  {
  }

  lemma OrderAfterUse(ops: seq<Op>, ttl: int, maxSize: nat)
    requires ops != []
    requires var op := ops[|ops| - 1]; op.Set? || Lookup(Run(ops[..|ops| - 1], ttl, maxSize), op.key, op.now).Some?
    requires Descending(Run(ops[..|ops| - 1], ttl, maxSize), TouchRank(ops[..|ops| - 1], ttl, maxSize))
    ensures Descending(Run(ops, ttl, maxSize), TouchRank(ops, ttl, maxSize))
  {
    var s := FrontSlot(ops, ttl, maxSize);
    var q := [s] + Drop(Run(ops[..|ops| - 1], ttl, maxSize), s.key);
    TouchedNow(ops, ttl, maxSize);
    hide *;
    FrontIsLatest(ops, ttl, maxSize, s);
    TrimDescending(q, maxSize, TouchRank(ops, ttl, maxSize));
  }

  /** The slot that an operation which uses its key puts in front. */
  lemma FrontSlot(ops: seq<Op>, ttl: int, maxSize: nat) returns (s: Slot)
    requires ops != []
    requires var op := ops[|ops| - 1]; op.Set? || Lookup(Run(ops[..|ops| - 1], ttl, maxSize), op.key, op.now).Some?
    ensures s.key == ops[|ops| - 1].key
    ensures var q := [s] + Drop(Run(ops[..|ops| - 1], ttl, maxSize), s.key);
            Run(ops, ttl, maxSize) == q || Run(ops, ttl, maxSize) == Trim(q, maxSize)
  {
    var op := ops[|ops| - 1];
    var q := Run(ops[..|ops| - 1], ttl, maxSize);
    FindMeaning(q, op.key);
    hide Trim;
    hide Drop;
    s := if op.Set? then Slot(op.key, op.entry, op.now + ttl) else Find(q, op.key).value;
  }

  lemma OrderAfterMiss(ops: seq<Op>, ttl: int, maxSize: nat)
    requires ops != []
    requires var op := ops[|ops| - 1]; op.Get? && Lookup(Run(ops[..|ops| - 1], ttl, maxSize), op.key, op.now).None?
    requires Descending(Run(ops[..|ops| - 1], ttl, maxSize), TouchRank(ops[..|ops| - 1], ttl, maxSize))
    ensures Descending(Run(ops, ttl, maxSize), TouchRank(ops, ttl, maxSize))
  {
    var op := ops[|ops| - 1];
    var q := Run(ops[..|ops| - 1], ttl, maxSize);
    var rank, rank' := TouchRank(ops[..|ops| - 1], ttl, maxSize), TouchRank(ops, ttl, maxSize);
    UntouchedNow(ops, ttl, maxSize);
    assert forall x :: rank'(x) == rank(x);
    hide Descending;
    hide TouchRank;
    hide LastTouch;
    DropDescending(q, op.key, rank);
    SameRankDescending(AfterGet(q, op.key, op.now), rank, rank');
  }

  /** The list is in the order of last use, most recent first, so that the slot which falls
      off is the one used least recently. */
  lemma {:induction false} RecencyOrder(ops: seq<Op>, ttl: int, maxSize: nat)
    ensures Descending(Run(ops, ttl, maxSize), TouchRank(ops, ttl, maxSize))
  {
    if ops != [] {
      var op := ops[|ops| - 1];
      RecencyOrder(ops[..|ops| - 1], ttl, maxSize);
      hide *;
      if op.Set? || Lookup(Run(ops[..|ops| - 1], ttl, maxSize), op.key, op.now).Some? {
        OrderAfterUse(ops, ttl, maxSize);
      } else {
        OrderAfterMiss(ops, ttl, maxSize);
      }
    }
  }

  lemma TouchedNow(ops: seq<Op>, ttl: int, maxSize: nat)
    requires ops != []
    requires var op := ops[|ops| - 1]; op.Set? || Lookup(Run(ops[..|ops| - 1], ttl, maxSize), op.key, op.now).Some?
    ensures LastTouch(ops, ttl, maxSize, ops[|ops| - 1].key) == |ops|
  {
  }

  lemma UntouchedNow(ops: seq<Op>, ttl: int, maxSize: nat)
    requires ops != []
    requires var op := ops[|ops| - 1]; op.Get? && Lookup(Run(ops[..|ops| - 1], ttl, maxSize), op.key, op.now).None?
    ensures forall k :: LastTouch(ops, ttl, maxSize, k) == LastTouch(ops[..|ops| - 1], ttl, maxSize, k)
  {
  }

  // ---- Answers ----

  /** The cache without a size: what was last stored under each key and has not been seen
      expired. */
  function Ideal(ops: seq<Op>, ttl: int): map<Key, Slot> {
    if ops == [] then map[]
    else
      var before := Ideal(ops[..|ops| - 1], ttl);
      match ops[|ops| - 1]
      case Set(k, e, now) => before[k := Slot(k, e, now + ttl)]
      case Get(k, now) => if k in before && now > before[k].expiresAt then before - {k} else before
  }

  ghost predicate Remembers(q: seq<Slot>, ideal: map<Key, Slot>) {
    forall s :: s in q ==> s.key in ideal && ideal[s.key] == s
  }

  /** The bounded cache forgets, and never invents. */
  lemma {:induction false} OnlyForgets(ops: seq<Op>, ttl: int, maxSize: nat)
    ensures Remembers(Run(ops, ttl, maxSize), Ideal(ops, ttl))
  {
    if ops != [] {
      var front, op := ops[..|ops| - 1], ops[|ops| - 1];
      var q := Run(front, ttl, maxSize);
      OnlyForgets(front, ttl, maxSize);
      DropMeaning(q, op.key);
      FindMeaning(q, op.key);
      if op.Set? {
        var q' := [Slot(op.key, op.entry, op.now + ttl)] + Drop(q, op.key);
        assert Remembers(q', Ideal(ops, ttl));
        assert forall s :: s in Trim(q', maxSize) ==> s in q';
      }
    }
  }

  /** `i` is the last store under the key. */
  ghost predicate LatestSet(ops: seq<Op>, k: Key, i: nat) {
    i < |ops| && ops[i].Set? && ops[i].key == k && forall j :: i < j < |ops| && ops[j].Set? ==> ops[j].key != k
  }

  lemma {:induction false} IdealIsLatestSet(ops: seq<Op>, ttl: int, k: Key) returns (i: nat)
    requires k in Ideal(ops, ttl)
    ensures LatestSet(ops, k, i)
    ensures Ideal(ops, ttl)[k] == Slot(k, ops[i].entry, ops[i].now + ttl)
  {
    var front, op := ops[..|ops| - 1], ops[|ops| - 1];
    if op.Set? && op.key == k {
      i := |ops| - 1;
    } else {
      i := IdealIsLatestSet(front, ttl, k);
      assert forall j :: 0 <= j < |front| ==> ops[j] == front[j];
    }
  }

  /** A hit returns the entry of the latest store under the key, not older than the time to
      live. */
  lemma HitIsLatestSet(ops: seq<Op>, ttl: int, maxSize: nat, k: Key, now: int) returns (i: nat)
    requires Lookup(Run(ops, ttl, maxSize), k, now).Some?
    ensures LatestSet(ops, k, i) && now <= ops[i].now + ttl
    ensures Lookup(Run(ops, ttl, maxSize), k, now) == Some(ops[i].entry)
  {
    OnlyForgets(ops, ttl, maxSize);
    FindMeaning(Run(ops, ttl, maxSize), k);
    i := IdealIsLatestSet(ops, ttl, k);
  }

  function StoredKeys(ops: seq<Op>): set<Key> {
    set i | 0 <= i < |ops| && ops[i].Set? :: ops[i].key
  }

  lemma {:induction false} DistinctKeysBound(q: seq<Slot>, ks: set<Key>)
    requires DistinctKeys(q) && forall s :: s in q ==> s.key in ks
    ensures |q| <= |ks|
  {
    if q != [] {
      forall s | s in q[1..] ensures s.key in ks - {q[0].key} {
        var j :| 0 <= j < |q[1..]| && q[1..][j] == s;
        assert q[j + 1].key != q[0].key && q[j + 1] in q;
      }
      assert q[0] in q;
      DistinctKeysBound(q[1..], ks - {q[0].key});
    }
  }

  lemma {:induction false} IdealKeys(ops: seq<Op>, ttl: int)
    ensures Ideal(ops, ttl).Keys <= StoredKeys(ops)
  {
    if ops != [] {
      var front := ops[..|ops| - 1];
      IdealKeys(front, ttl);
      assert forall k :: k in StoredKeys(front) ==> k in StoredKeys(ops) by {
        assert forall j :: 0 <= j < |front| ==> ops[j] == front[j];
      }
      assert ops[|ops| - 1].Set? ==> ops[|ops| - 1].key in StoredKeys(ops);
    }
  }

  lemma FewerKeys(ops: seq<Op>)
    requires ops != []
    ensures StoredKeys(ops[..|ops| - 1]) <= StoredKeys(ops)
    ensures |StoredKeys(ops[..|ops| - 1])| <= |StoredKeys(ops)|
  {
    var front := ops[..|ops| - 1];
    forall k | k in StoredKeys(front) ensures k in StoredKeys(ops) {
      var i :| 0 <= i < |front| && front[i].Set? && front[i].key == k;
      assert ops[i] == front[i];
    }
    Subset(StoredKeys(front), StoredKeys(ops));
  }

  lemma {:induction false} Subset<T>(a: set<T>, b: set<T>)
    requires a <= b
    ensures |a| <= |b|
    decreases a
  {
    if a != {} {
      var x :| x in a;
      Subset(a - {x}, b - {x});
    }
  }

  /** With room for all keys that were stored nothing is forgotten: the cache answers like
      the one without a size. */
  lemma {:induction false} EnoughRoom(ops: seq<Op>, ttl: int, maxSize: nat, k: Key)
    requires |StoredKeys(ops)| <= maxSize
    ensures Find(Run(ops, ttl, maxSize), k) == if k in Ideal(ops, ttl) then Some(Ideal(ops, ttl)[k]) else None
  {
    if ops != [] {
      var front, op := ops[..|ops| - 1], ops[|ops| - 1];
      var q := Run(front, ttl, maxSize);
      FewerKeys(ops);
      EnoughRoom(front, ttl, maxSize, k);
      EnoughRoom(front, ttl, maxSize, op.key);
      FindMeaning(q, op.key);
      FindAfterDrop(q, op.key, k);
      if op.Set? {
        NothingTrimmed(ops, ttl, maxSize);
      }
    }
  }

  lemma {:induction false} FindAfterDrop(q: seq<Slot>, d: Key, k: Key)
    ensures Find(Drop(q, d), k) == if k == d then None else Find(q, k)
  {
    if q != [] {
      FindAfterDrop(q[1..], d, k);
    }
  }

  lemma NothingTrimmed(ops: seq<Op>, ttl: int, maxSize: nat)
    requires ops != [] && ops[|ops| - 1].Set? && |StoredKeys(ops)| <= maxSize
    ensures |Drop(Run(ops[..|ops| - 1], ttl, maxSize), ops[|ops| - 1].key)| + 1 <= maxSize
  {
    var front, op := ops[..|ops| - 1], ops[|ops| - 1];
    var q := Run(front, ttl, maxSize);
    RunWellformed(front, ttl, maxSize);
    OnlyForgets(front, ttl, maxSize);
    IdealKeys(front, ttl);
    FewerKeys(ops);
    DropMeaning(q, op.key);
    DropDistinct(q, op.key);
    assert op.key in StoredKeys(ops);
    DistinctKeysBound(Drop(q, op.key), StoredKeys(ops) - {op.key});
  }
}

/** The result cache as it is built: a list of items in order of use, and a map from keys
    to the items of the list (proxy/cache/cache.go:28-130). */
module Cache {
  import opened Types
  import opened Lru
  import opened Seqs

  /** The payload of a list element. */
  class Item {
    const key: Key
    var entry: Entry
    var expiresAt: int

    constructor (key: Key, entry: Entry, expiresAt: int)
      ensures this.key == key && this.entry == entry && this.expiresAt == expiresAt
    {
      this.key, this.entry, this.expiresAt := key, entry, expiresAt;
    }
  }

  function SlotOf(it: Item): Slot
    reads it
  {
    Slot(it.key, it.entry, it.expiresAt)
  }

  function SlotsOf(ll: seq<Item>): (q: seq<Slot>)
    reads ll
    ensures |q| == |ll| && forall i :: 0 <= i < |ll| ==> q[i] == SlotOf(ll[i])
  {
    seq(|ll|, i requires 0 <= i < |ll| reads ll => SlotOf(ll[i]))
  }

  function Position(ll: seq<Item>, el: Item): (i: nat)
    requires el in ll
    ensures i < |ll| && ll[i] == el
  {
    if ll[0] == el then 0 else 1 + Position(ll[1..], el)
  }

  /** Removing a slot by its position and by its key. */
  lemma {:induction false} DropAt(q: seq<Slot>, i: nat)
    requires DistinctKeys(q) && i < |q|
    ensures Find(q, q[i].key) == Some(q[i])
    ensures Drop(q, q[i].key) == q[..i] + q[i + 1..]
  {
    if i == 0 {
      if q[1..] != [] {
        NoKey(q[1..], q[0].key);
      }
    } else {
      DropAt(q[1..], i - 1);
      assert q[0].key != q[i].key;
      assert q[..i] == [q[0]] + q[1..][..i - 1];
    }
  }

  lemma {:induction false} NoKey(q: seq<Slot>, k: Key)
    requires forall i :: 0 <= i < |q| ==> q[i].key != k
    ensures Find(q, k).None? && Drop(q, k) == q
  {
    if q != [] {
      NoKey(q[1..], k);
    }
  }

  // ---- List and map ----

  /** The list holds one item per key, and the map leads to it. */
  ghost predicate Linked(ll: seq<Item>, items: map<Key, Item>) {
    && (forall i, j :: 0 <= i < j < |ll| ==> ll[i].key != ll[j].key)
    && (forall it :: it in ll ==> it.key in items && items[it.key] == it)
    && (forall k :: k in items ==> items[k] in ll && items[k].key == k)
  }

  ghost function ItemSet(ll: seq<Item>): set<Item> {
    set it | it in ll
  }

  lemma WithoutMembers(ll: seq<Item>, i: nat)
    requires i < |ll| && forall j, k :: 0 <= j < k < |ll| ==> ll[j].key != ll[k].key
    ensures forall it :: it in Without(ll, i) <==> it in ll && it != ll[i]
    ensures forall it :: it in Without(ll, i) ==> it.key != ll[i].key
    ensures forall j, k :: 0 <= j < k < |ll| - 1 ==> Without(ll, i)[j].key != Without(ll, i)[k].key
  {
    var rest := Without(ll, i);
    forall it | it in ll && it != ll[i] ensures it in rest {
      var j :| 0 <= j < |ll| && ll[j] == it;
      assert rest[if j < i then j else j - 1] == it;
    }
    forall j | 0 <= j < |rest| ensures rest[j] in ll && rest[j].key != ll[i].key {
      assert rest[j] == ll[if j < i then j else j + 1];
    }
  }

  lemma RemoveLinked(ll: seq<Item>, items: map<Key, Item>, i: nat)
    requires Linked(ll, items) && i < |ll|
    ensures Linked(Without(ll, i), items - {ll[i].key})
  {
    WithoutMembers(ll, i);
    hide Without;
  }

  lemma FrontLinked(ll: seq<Item>, items: map<Key, Item>, i: nat)
    requires Linked(ll, items) && i < |ll|
    ensures Linked([ll[i]] + Without(ll, i), items)
  {
    WithoutMembers(ll, i);
    var rest := Without(ll, i);
    hide Without;
    forall it ensures it in [ll[i]] + rest <==> it in ll {
    }
  }

  lemma PushLinked(ll: seq<Item>, items: map<Key, Item>, el: Item)
    requires Linked(ll, items) && el.key !in items
    ensures Linked([el] + ll, items[el.key := el])
  {
    var all := [el] + ll;
    forall it ensures it in all <==> it == el || it in ll {
    }
    forall i, j | 0 <= i < j < |all| ensures all[i].key != all[j].key {
      assert all[j] == ll[j - 1] && ll[j - 1] in ll;
    }
  }

  lemma SlotsWithout(ll: seq<Item>, i: nat)
    requires i < |ll| && DistinctKeys(SlotsOf(ll))
    ensures SlotsOf(Without(ll, i)) == Drop(SlotsOf(ll), ll[i].key)
    ensures Find(SlotsOf(ll), ll[i].key) == Some(SlotOf(ll[i]))
  {
    DropAt(SlotsOf(ll), i);
    var q := SlotsOf(ll);
    assert SlotsOf(Without(ll, i)) == q[..i] + q[i + 1..];
  }

  class ResultCache {
    const maxSize: nat
    const ttl: int
    var ll: seq<Item>
    var items: map<Key, Item>

    ghost predicate Valid()
      reads this
    {
      Linked(ll, items) && 1 <= maxSize && |ll| <= maxSize
    }

    function Contents(): seq<Slot>
      reads this, ll
    {
      SlotsOf(ll)
    }

    /** New: a size below one is taken as one. */
    constructor (size: int, ttl: int)
      ensures Valid() && Contents() == []
      ensures this.ttl == ttl && maxSize == if size < 1 then 1 else size
    {
      this.maxSize := if size < 1 then 1 else size;
      this.ttl := ttl;
      ll := [];
      items := map[];
    }

    /** removeElement. */
    method RemoveElement(el: Item)
      requires Linked(ll, items) && el in ll
      modifies this
      ensures Linked(ll, items) && ll == Without(old(ll), Position(old(ll), el))
      ensures Contents() == Drop(old(Contents()), el.key)
    {
      var i := Position(ll, el);
      SlotsWithout(ll, i);
      RemoveLinked(ll, items, i);
      hide Linked;
      ll := Without(ll, i);
      items := items - {el.key};
    }

    /** list.MoveToFront. */
    method MoveToFront(el: Item)
      requires Linked(ll, items) && el in ll
      modifies this`ll
      ensures Linked(ll, items) && ll == [el] + Without(old(ll), Position(old(ll), el))
      ensures Contents() == [SlotOf(el)] + Drop(old(Contents()), el.key)
    {
      var i := Position(ll, el);
      SlotsWithout(ll, i);
      FrontLinked(ll, items, i);
      hide Linked;
      hide Without;
      hide Drop;
      ll := [el] + Without(ll, i);
      assert SlotsOf(ll) == [SlotOf(el)] + SlotsOf(Without(old(ll), i));
    }

    /** The item that the map gives for a key, as the list sees it. */
    lemma LookupLinked(key: Key)
      requires Linked(ll, items)
      ensures key !in items ==> Find(Contents(), key) == None && Drop(Contents(), key) == Contents()
      ensures key in items ==> items[key] in ll && items[key].key == key && Find(Contents(), key) == Some(SlotOf(items[key]))
    {
      if key in items {
        SlotsWithout(ll, Position(ll, items[key]));
      } else {
        forall i | 0 <= i < |ll| ensures Contents()[i].key != key {
          assert ll[i] in ll;
        }
        NoKey(Contents(), key);
      }
    }

    method Get(key: Key, now: int) returns (r: Option<Entry>)
      requires Valid()
      modifies this
      ensures Valid() && ItemSet(ll) <= old(ItemSet(ll))
      ensures r == Lookup(old(Contents()), key, now)
      ensures Contents() == AfterGet(old(Contents()), key, now)
    {
      LookupLinked(key);
      if key !in items {
        return None;
      }
      var it := items[key];
      hide Linked;
      if now > it.expiresAt {
        RemoveElement(it);
        return None;
      }
      MoveToFront(it);
      return Some(it.entry);
    }

    /** Set: an existing item is updated in place, a new one may push the last ones off. */
    method Set(key: Key, e: Entry, now: int)
      requires Valid()
      modifies this, ll
      ensures Valid() && fresh(ItemSet(ll) - old(ItemSet(ll)))
      ensures Contents() == AfterSet(old(Contents()), key, e, now, ttl, maxSize)
    {
      LookupLinked(key);
      hide Linked;
      hide ItemSet;
      hide AfterSet;
      hide Contents;
      ghost var q := Contents();
      if key in items {
        var it := items[key];
        Update(it, e, now + ttl);
      } else {
        Insert(key, e, now + ttl);
      }
      AfterSetUnfolded(q, key, e, now, ttl, maxSize);
    }

    lemma AfterSetUnfolded(q: seq<Slot>, key: Key, e: Entry, now: int, ttl: int, maxSize: nat)
      ensures AfterSet(q, key, e, now, ttl, maxSize) == Trim([Slot(key, e, now + ttl)] + Drop(q, key), maxSize)
    {
    }

    method Update(it: Item, e: Entry, exp: int)
      requires Valid() && it in ll
      modifies this`ll, it
      ensures Valid() && fresh(ItemSet(ll) - old(ItemSet(ll)))
      ensures Contents() == Trim([Slot(it.key, e, exp)] + Drop(old(Contents()), it.key), maxSize)
    {
      ghost var i := Position(ll, it);
      SlotsWithout(ll, i);
      WithoutMembers(ll, i);
      it.entry := e;
      it.expiresAt := exp;
      assert SlotsOf(Without(ll, i)) == old(SlotsOf(Without(ll, i)));
      SlotsWithout(ll, i);
      hide Linked;
      MoveToFront(it);
    }

    method Insert(key: Key, e: Entry, exp: int)
      requires Valid() && key !in items && Drop(Contents(), key) == Contents()
      modifies this
      ensures Valid() && fresh(ItemSet(ll) - old(ItemSet(ll)))
      ensures Contents() == Trim([Slot(key, e, exp)] + Drop(old(Contents()), key), maxSize)
    {
      var el := new Item(key, e, exp);
      PushLinked(ll, items, el);
      hide Linked;
      ll := [el] + ll;
      items := items[key := el];
      assert Contents() == [Slot(key, e, exp)] + old(Contents());
      EvictOverflow();
    }

    /** Removes the back of the list until the size is met. */
    method EvictOverflow()
      requires Linked(ll, items)
      modifies this
      ensures Linked(ll, items) && |ll| <= maxSize && ItemSet(ll) <= old(ItemSet(ll))
      ensures Contents() == Trim(old(Contents()), maxSize)
    {
      ghost var all := ll;
      while |ll| > maxSize
        invariant Linked(ll, items) && |ll| <= |all| && ll == all[..|ll|]
        invariant if |all| <= maxSize then |ll| == |all| else |ll| >= maxSize
        decreases |ll|
      {
        LastPosition(ll, items);
        hide Linked;
        RemoveElement(ll[|ll| - 1]);
      }
      assert SlotsOf(ll) == old(SlotsOf(ll))[..|ll|];
    }
  }

  lemma LastPosition(ll: seq<Item>, items: map<Key, Item>)
    requires ll != [] && Linked(ll, items)
    ensures Without(ll, Position(ll, ll[|ll| - 1])) == ll[..|ll| - 1]
  {
    assert forall j :: 0 <= j < |ll| - 1 ==> ll[j].key != ll[|ll| - 1].key;
  }
}

/** histogram_quantile on classic buckets (eval/histogram.go). */
module Histogram {
  import opened Seqs

  /** The value of an "le" label. */
  datatype Bound = Finite(r: real) | Infinite

  datatype Bucket = Bucket(bound: Bound, count: real)

  predicate Less(a: Bound, b: Bound) {
    a.Finite? && (b.Finite? ==> a.r < b.r)
  }

  ghost predicate Ascending(bs: seq<Bucket>) {
    forall i, j :: 0 <= i < j < |bs| ==> !Less(bs[j].bound, bs[i].bound)
  }

  ghost predicate StrictlyAscending(bs: seq<Bucket>) {
    forall i, j :: 0 <= i < j < |bs| ==> Less(bs[i].bound, bs[j].bound)
  }

  ghost predicate NonDecreasing(bs: seq<Bucket>) {
    forall i, j :: 0 <= i <= j < |bs| ==> bs[i].count <= bs[j].count
  }

  // ---- Sorting and coalescing ----

  function Insert(b: Bucket, bs: seq<Bucket>): seq<Bucket> {
    if bs == [] || !Less(bs[0].bound, b.bound) then [b] + bs
    else [bs[0]] + Insert(b, bs[1..])
  }

  /** The buckets in ascending order of their bounds. */
  function Sort(bs: seq<Bucket>): seq<Bucket> {
    if bs == [] then [] else Insert(bs[0], Sort(bs[1..]))
  }

  /** Adjacent buckets with equal bounds merged into one. */
  function Coalesce(bs: seq<Bucket>): seq<Bucket> {
    if |bs| <= 1 then bs
    else
      var rest := Coalesce(bs[1..]);
      if rest != [] && rest[0].bound == bs[0].bound then
        [Bucket(bs[0].bound, bs[0].count + rest[0].count)] + rest[1..]
      else [bs[0]] + rest
  }

  /** One bucket added to a list that already has one bucket per bound. */
  function Merge(b: Bucket, bs: seq<Bucket>): seq<Bucket> {
    if bs == [] || Less(b.bound, bs[0].bound) then [b] + bs
    else if b.bound == bs[0].bound then [Bucket(b.bound, b.count + bs[0].count)] + bs[1..]
    else [bs[0]] + Merge(b, bs[1..])
  }

  lemma {:induction false} CoalesceHead(bs: seq<Bucket>)
    requires bs != []
    ensures Coalesce(bs) != [] && Coalesce(bs)[0].bound == bs[0].bound
  {
    if |bs| > 1 {
      CoalesceHead(bs[1..]);
    }
  }

  lemma {:induction false} InsertHead(b: Bucket, bs: seq<Bucket>)
    ensures Insert(b, bs) != []
    ensures Insert(b, bs)[0].bound == if bs == [] || !Less(bs[0].bound, b.bound) then b.bound else bs[0].bound
  {
  }

  lemma {:induction false} InsertAscending(b: Bucket, bs: seq<Bucket>)
    requires Ascending(bs)
    ensures Ascending(Insert(b, bs))
    ensures forall x :: x in Insert(b, bs) ==> x == b || x in bs
  {
    if bs == [] || !Less(bs[0].bound, b.bound) {
    } else {
      InsertAscending(b, bs[1..]);
      var rest := Insert(b, bs[1..]);
      forall j | 0 <= j < |rest| ensures !Less(rest[j].bound, bs[0].bound) {
        assert rest[j] in rest;
        if rest[j] != b {
          var k :| 0 <= k < |bs[1..]| && bs[1..][k] == rest[j];
          assert bs[k + 1] == rest[j];
        }
      }
    }
  }

  lemma {:induction false} SortAscending(bs: seq<Bucket>)
    ensures Ascending(Sort(bs))
  {
    if bs != [] {
      SortAscending(bs[1..]);
      InsertAscending(bs[0], Sort(bs[1..]));
    }
  }

  /** Inserting before merging equal bounds is merging into the merged list. */
  lemma {:induction false} CoalesceInsert(b: Bucket, bs: seq<Bucket>)
    requires Ascending(bs)
    ensures Coalesce(Insert(b, bs)) == Merge(b, Coalesce(bs))
  {
    if bs == [] {
      assert Insert(b, bs) == [b];
    } else {
      CoalesceHead(bs);
      if !Less(bs[0].bound, b.bound) {
        assert ([b] + bs)[1..] == bs;
      } else {
        var rest, ins := bs[1..], Insert(b, bs[1..]);
        assert Insert(b, bs)[1..] == ins;
        InsertHead(b, rest);
        CoalesceHead(ins);
        CoalesceInsert(b, rest);
        if rest == [] {
          assert Coalesce(Insert(b, bs)) == [bs[0]] + Coalesce(ins);
        } else {
          CoalesceHead(rest);
          MergeTail(b, bs[0], Coalesce(rest));
        }
      }
    }
  }

  lemma MergeTail(b: Bucket, first: Bucket, rest: seq<Bucket>)
    requires rest != [] && Less(first.bound, b.bound)
    ensures rest[0].bound == first.bound ==>
              var sum := Bucket(first.bound, first.count + rest[0].count);
              Merge(b, rest) == [rest[0]] + Merge(b, rest[1..])
              && Merge(b, [sum] + rest[1..]) == [sum] + Merge(b, rest[1..])
    ensures Merge(b, [first] + rest) == [first] + Merge(b, rest)
  {
    assert ([first] + rest)[1..] == rest;
    if rest[0].bound == first.bound {
      var sum := Bucket(first.bound, first.count + rest[0].count);
      assert ([sum] + rest[1..])[1..] == rest[1..];
    }
  }

  function Sorted(bs: seq<Bucket>): seq<Bucket> { Coalesce(Sort(bs)) }

  /** Merging the buckets one at a time, in any order. */
  function MergeAll(bs: seq<Bucket>): seq<Bucket> {
    if bs == [] then [] else Merge(bs[0], MergeAll(bs[1..]))
  }

  lemma {:induction false} SortedIsMergeAll(bs: seq<Bucket>)
    ensures Sorted(bs) == MergeAll(bs)
  {
    if bs != [] {
      SortedIsMergeAll(bs[1..]);
      SortAscending(bs[1..]);
      CoalesceInsert(bs[0], Sort(bs[1..]));
    }
  }

  lemma {:induction false} MergeCommutes(a: Bucket, b: Bucket, bs: seq<Bucket>)
    requires StrictlyAscending(bs)
    ensures Merge(a, Merge(b, bs)) == Merge(b, Merge(a, bs))
  {
    if bs != [] && Less(bs[0].bound, a.bound) && Less(bs[0].bound, b.bound) {
      MergeCommutes(a, b, bs[1..]);
      MergeCons(a, bs[0], Merge(b, bs[1..]));
      MergeCons(b, bs[0], Merge(a, bs[1..]));
    } else if bs == [] {
      assert Merge(a, []) == [a] && Merge(b, []) == [b];
      MergePair(a, b);
    } else {
      MergeNear(a, b, bs);
    }
  }

  lemma MergeCons(b: Bucket, first: Bucket, rest: seq<Bucket>)
    requires Less(first.bound, b.bound)
    ensures Merge(b, [first] + rest) == [first] + Merge(b, rest)
  {
    assert ([first] + rest)[1..] == rest;
  }

  lemma MergeOne(a: Bucket, b: Bucket)
    ensures Merge(a, [b]) == if Less(a.bound, b.bound) then [a, b]
                             else if a.bound == b.bound then [Bucket(a.bound, a.count + b.count)]
                             else [b, a]
  {
    assert [b][1..] == [];
    assert Merge(a, []) == [a];
  }

  lemma MergePair(a: Bucket, b: Bucket)
    ensures Merge(a, [b]) == Merge(b, [a])
  {
    hide Merge;
    MergeOne(a, b);
    MergeOne(b, a);
  }

  /** Merging into a list whose first bound is not below that of the bucket. */
  lemma MergeFirst(b: Bucket, head: Bucket, rest: seq<Bucket>)
    requires !Less(head.bound, b.bound)
    ensures Merge(b, [head] + rest)
         == if b.bound == head.bound then [Bucket(b.bound, b.count + head.count)] + rest else [b, head] + rest
  {
    assert ([head] + rest)[1..] == rest;
    assert [b] + ([head] + rest) == [b, head] + rest;
  }

  lemma MergeNear(a: Bucket, b: Bucket, bs: seq<Bucket>)
    requires StrictlyAscending(bs) && bs != []
    requires !Less(bs[0].bound, a.bound) || !Less(bs[0].bound, b.bound)
    ensures Merge(a, Merge(b, bs)) == Merge(b, Merge(a, bs))
  {
    if Less(bs[0].bound, a.bound) {
      MergeFar(b, a, bs[0], bs[1..]);
    } else if Less(bs[0].bound, b.bound) {
      MergeFar(a, b, bs[0], bs[1..]);
    } else {
      MergeBothNear(a, b, bs[0], bs[1..]);
    }
    assert bs == [bs[0]] + bs[1..];
  }

  /** One bucket goes in before or at the first bound, the other one after it. */
  lemma MergeFar(near: Bucket, far: Bucket, head: Bucket, rest: seq<Bucket>)
    requires !Less(head.bound, near.bound) && Less(head.bound, far.bound)
    ensures Merge(near, Merge(far, [head] + rest)) == Merge(far, Merge(near, [head] + rest))
  {
    var tail := Merge(far, rest);
    MergeCons(far, head, rest);
    MergeFirst(near, head, rest);
    MergeFirst(near, head, tail);
    if near.bound == head.bound {
      MergeCons(far, Bucket(near.bound, near.count + head.count), rest);
    } else {
      assert [near, head] + rest == [near] + ([head] + rest);
      MergeCons(far, near, [head] + rest);
      assert [near, head] + tail == [near] + ([head] + tail);
    }
    hide Merge;
  }

  lemma MergeBothNear(a: Bucket, b: Bucket, head: Bucket, rest: seq<Bucket>)
    requires !Less(head.bound, a.bound) && !Less(head.bound, b.bound)
    ensures Merge(a, Merge(b, [head] + rest)) == Merge(b, Merge(a, [head] + rest))
  {
    hide Merge;
    MergeFirst(a, head, rest);
    MergeFirst(b, head, rest);
    if a.bound == head.bound && b.bound == head.bound {
      MergeFirst(a, Bucket(b.bound, b.count + head.count), rest);
      MergeFirst(b, Bucket(a.bound, a.count + head.count), rest);
    } else if a.bound == head.bound {
      MergeOverHead(a, b, head, rest);
    } else if b.bound == head.bound {
      MergeOverHead(b, a, head, rest);
    } else {
      MergeBothBelow(a, b, [head] + rest);
      assert [a, head] + rest == [a] + ([head] + rest);
      assert [b, head] + rest == [b] + ([head] + rest);
    }
  }

  /** `same` meets the first bucket, `below` goes in front of it. */
  lemma MergeOverHead(same: Bucket, below: Bucket, head: Bucket, rest: seq<Bucket>)
    requires same.bound == head.bound && Less(below.bound, head.bound)
    ensures Merge(same, Merge(below, [head] + rest)) == Merge(below, Merge(same, [head] + rest))
  {
    var sum := Bucket(same.bound, same.count + head.count);
    MergeFirst(same, head, rest);
    MergeFirst(below, head, rest);
    MergeFirst(below, sum, rest);
    assert [below, head] + rest == [below] + ([head] + rest) && [below, sum] + rest == [below] + ([sum] + rest);
    MergeCons(same, below, [head] + rest);
    hide Merge;
  }

  lemma MergeBelow(b: Bucket, bs: seq<Bucket>)
    requires bs != [] && Less(b.bound, bs[0].bound)
    ensures Merge(b, bs) == [b] + bs
  {
  }

  /** Both buckets go in front of the list. */
  lemma MergeBothBelow(a: Bucket, b: Bucket, bs: seq<Bucket>)
    requires bs != [] && Less(a.bound, bs[0].bound) && Less(b.bound, bs[0].bound)
    ensures Merge(a, [b] + bs) == Merge(b, [a] + bs)
  {
    MergeBelow(a, bs);
    MergeBelow(b, bs);
    hide Merge;
    if Less(a.bound, b.bound) {
      MergeFirst(a, b, bs);
      MergeCons(b, a, bs);
      assert [a, b] + bs == [a] + ([b] + bs);
    } else if Less(b.bound, a.bound) {
      MergeFirst(b, a, bs);
      MergeCons(a, b, bs);
      assert [b, a] + bs == [b] + ([a] + bs);
    } else {
      MergeFirst(a, b, bs);
      MergeFirst(b, a, bs);
    }
  }

  lemma {:induction false} MergeAscending(b: Bucket, bs: seq<Bucket>)
    requires StrictlyAscending(bs)
    ensures StrictlyAscending(Merge(b, bs))
    ensures Merge(b, bs) != []
    ensures Merge(b, bs)[0].bound == if bs == [] || Less(b.bound, bs[0].bound) then b.bound else bs[0].bound
  {
    if bs == [] || Less(b.bound, bs[0].bound) || b.bound == bs[0].bound {
    } else {
      MergeAscending(b, bs[1..]);
      var rest := Merge(b, bs[1..]);
      assert Less(bs[0].bound, rest[0].bound);
    }
  }

  lemma {:induction false} MergeAllAscending(bs: seq<Bucket>)
    ensures StrictlyAscending(MergeAll(bs))
  {
    if bs != [] {
      MergeAllAscending(bs[1..]);
      MergeAscending(bs[0], MergeAll(bs[1..]));
    }
  }

  lemma {:induction false} MergeAllExtract(bs: seq<Bucket>, i: nat)
    requires i < |bs|
    ensures MergeAll(bs) == Merge(bs[i], MergeAll(Without(bs, i)))
  {
    if i == 0 {
      assert Without(bs, 0) == bs[1..];
    } else {
      var rest := Without(bs[1..], i - 1);
      assert Without(bs, i) == [bs[0]] + rest;
      MergeAllExtract(bs[1..], i - 1);
      MergeAllAscending(rest);
      MergeCommutes(bs[0], bs[i], MergeAll(rest));
    }
  }

  lemma {:induction false} MergeAllPermute(bs: seq<Bucket>, cs: seq<Bucket>)
    requires multiset(bs) == multiset(cs)
    ensures MergeAll(bs) == MergeAll(cs)
  {
    SameLength(bs, cs);
    if bs != [] {
      assert bs[0] in multiset(bs) && bs[0] in multiset(cs);
      var i :| 0 <= i < |cs| && cs[i] == bs[0];
      assert Without(bs, 0) == bs[1..];
      WithoutMultiset(bs, 0);
      WithoutMultiset(cs, i);
      MergeAllPermute(bs[1..], Without(cs, i));
      MergeAllExtract(cs, i);
    }
  }

  lemma {:induction false} SortOfAscending(bs: seq<Bucket>)
    requires Ascending(bs)
    ensures Sort(bs) == bs
  {
    if bs != [] {
      SortOfAscending(bs[1..]);
      assert |bs| > 1 ==> !Less(bs[1].bound, bs[0].bound);
    }
  }

  /** Whichever ascending order an unstable sort leaves, merging equal bounds gives the
      same buckets. */
  lemma AnySortMergesAlike(bs: seq<Bucket>, sorted: seq<Bucket>)
    requires multiset(bs) == multiset(sorted) && Ascending(sorted)
    ensures Coalesce(sorted) == MergeAll(bs)
  {
    SortOfAscending(sorted);
    SortedIsMergeAll(sorted);
    MergeAllPermute(bs, sorted);
  }
}

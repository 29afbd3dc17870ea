/** Lexicographic order and canonical sorting of strings (the library sort.Strings). */
module Strings {
  import opened Seqs

  predicate StringLess(a: string, b: string) {
    if b == "" then false
    else if a == "" then true
    else if a[0] != b[0] then a[0] < b[0]
    else StringLess(a[1..], b[1..])
  }

  lemma {:induction false} Trichotomy(a: string, b: string)
    ensures a == b || StringLess(a, b) || StringLess(b, a)
    ensures StringLess(a, b) ==> !StringLess(b, a)
  {
    if a != "" && b != "" && a[0] == b[0] {
      Trichotomy(a[1..], b[1..]);
      assert a == [a[0]] + a[1..] && b == [b[0]] + b[1..];
    }
  }

  lemma {:induction false} Transitive(a: string, b: string, c: string)
    requires StringLess(a, b) && !StringLess(c, b)
    ensures StringLess(a, c)
  {
    if a != "" && a[0] == b[0] == c[0] {
      Transitive(a[1..], b[1..], c[1..]);
    }
  }

  function Insert(x: string, s: seq<string>): seq<string> {
    if s == [] || !StringLess(s[0], x) then [x] + s else [s[0]] + Insert(x, s[1..])
  }

  function SortStrings(s: seq<string>): seq<string> {
    if s == [] then [] else Insert(s[0], SortStrings(s[1..]))
  }

  lemma {:induction false} InsertCommutes(x: string, y: string, s: seq<string>)
    ensures Insert(x, Insert(y, s)) == Insert(y, Insert(x, s))
  {
    Trichotomy(x, y);
    if s == [] {
      assert [x][1..] == [] && [y][1..] == [];
    } else if StringLess(s[0], x) && StringLess(s[0], y) {
      InsertCommutes(x, y, s[1..]);
      InsertCons(x, s[0], Insert(y, s[1..]));
      InsertCons(y, s[0], Insert(x, s[1..]));
    } else if !StringLess(s[0], x) && !StringLess(s[0], y) {
      InsertFront(x, y, s);
      InsertFront(y, x, s);
    } else if StringLess(s[0], x) {
      SandwichedLess(y, s[0], x);
      InsertCons(x, y, s);
      InsertCons(x, s[0], s[1..]);
      assert [s[0]] + s[1..] == s;
    } else {
      SandwichedLess(x, s[0], y);
      InsertCons(y, x, s);
      InsertCons(y, s[0], s[1..]);
      assert [s[0]] + s[1..] == s;
    }
  }

  lemma SandwichedLess(a: string, b: string, c: string)
    requires !StringLess(b, a) && StringLess(b, c)
    ensures StringLess(a, c)
  {
    Trichotomy(a, b);
    if a != b {
      Trichotomy(b, c);
      Transitive(a, b, c);
    }
  }

  lemma InsertCons(x: string, first: string, rest: seq<string>)
    requires StringLess(first, x)
    ensures Insert(x, [first] + rest) == [first] + Insert(x, rest)
  {
    assert ([first] + rest)[1..] == rest;
  }

  lemma InsertFront(x: string, y: string, s: seq<string>)
    requires s != [] && !StringLess(s[0], x) && !StringLess(s[0], y)
    ensures Insert(x, Insert(y, s)) == if StringLess(y, x) then [y, x] + s else [x, y] + s
  {
    assert Insert(y, s) == [y] + s;
    assert ([y] + s)[1..] == s;
    if StringLess(y, x) {
      InsertCons(x, y, s);
    }
  }

  lemma {:induction false} SortExtract(s: seq<string>, i: nat)
    requires i < |s|
    ensures SortStrings(s) == Insert(s[i], SortStrings(Without(s, i)))
  {
    if i == 0 {
      assert Without(s, 0) == s[1..];
    } else {
      var rest := Without(s[1..], i - 1);
      assert Without(s, i) == [s[0]] + rest;
      SortExtract(s[1..], i - 1);
      InsertCommutes(s[0], s[i], SortStrings(rest));
    }
  }

  /** Sorting forgets the order the strings came in. */
  lemma {:induction false} SortPermute(s: seq<string>, t: seq<string>)
    requires multiset(s) == multiset(t)
    ensures SortStrings(s) == SortStrings(t)
  {
    SameLength(s, t);
    if s != [] {
      assert s[0] in multiset(s) && s[0] in multiset(t);
      var i :| 0 <= i < |t| && t[i] == s[0];
      assert Without(s, 0) == s[1..];
      WithoutMultiset(s, 0);
      WithoutMultiset(t, i);
      SortPermute(s[1..], Without(t, i));
      SortExtract(t, i);
    }
  }

  lemma {:induction false} InsertMembers(x: string, s: seq<string>, y: string)
    ensures y in Insert(x, s) <==> y == x || y in s
  {
    if s == [] || !StringLess(s[0], x) {
    } else {
      InsertMembers(x, s[1..], y);
      assert s == [s[0]] + s[1..];
    }
  }

  lemma {:induction false} SortMembers(s: seq<string>, y: string)
    ensures y in SortStrings(s) <==> y in s
  {
    if s != [] {
      SortMembers(s[1..], y);
      InsertMembers(s[0], SortStrings(s[1..]), y);
      assert s == [s[0]] + s[1..];
    }
  }

  /** Some enumeration of a set of strings. */
  ghost function Enumerate(s: set<string>): (r: seq<string>)
    ensures multiset(r) == multiset(s)
  {
    if s == {} then []
    else
      var x :| x in s;
      [x] + Enumerate(s - {x})
  }
}

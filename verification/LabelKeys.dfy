/** Matching keys and group labels (eval/binary.go:50-76, eval/aggregations.go:248-269). */
module LabelKeys {
  import opened Types
  import opened Seqs
  import opened Strings

  const NAME_END: char := 0 as char
  const VALUE_END: char := 1 as char

  /** Reading a missing label of a Go map yields the empty string. */
  function Get(labels: Labels, name: string): string {
    if name in labels then labels[name] else ""
  }

  function Set(names: seq<string>): set<string> {
    set n | n in names
  }

  /** The bytes written for the given names, in order. */
  function Encode(labels: Labels, names: seq<string>): string {
    if names == [] then ""
    else names[0] + [NAME_END] + Get(labels, names[0]) + [VALUE_END] + Encode(labels, names[1..])
  }

  /** The matching key: over the listed names, or over all other names. */
  ghost function KeyOf(labels: Labels, on: bool, matching: seq<string>): string {
    Encode(labels, SortStrings(if on then matching else Enumerate(labels.Keys - Set(matching))))
  }

  /** The labels that `by (grouping)` or `without (grouping)` keeps. */
  function GroupLabels(labels: Labels, grouping: seq<string>, without: bool): Labels {
    map k | k in labels && ((k in grouping) != without) :: labels[k]
  }

  /** The loops of the program; the names of a Go map come in any order. */
  method MatchingKey(labels: Labels, on: bool, matching: seq<string>) returns (key: string)
    ensures key == KeyOf(labels, on, matching)
  {
    var keys: seq<string> := [];
    if on {
      keys := matching;
    } else {
      keys := OtherNames(labels, matching);
      SortPermute(keys, Enumerate(labels.Keys - Set(matching)));
    }
    key := WriteKey(labels, SortStrings(keys));
  }

  method OtherNames(labels: Labels, matching: seq<string>) returns (keys: seq<string>)
    ensures multiset(keys) == multiset(labels.Keys - Set(matching))
  {
    keys := [];
    var todo := labels.Keys;
    ghost var kept: set<string> := {};
    while todo != {}
      invariant todo <= labels.Keys
      invariant kept == labels.Keys - todo - Set(matching)
      invariant multiset(keys) == multiset(kept)
      decreases todo
    {
      var k :| k in todo;
      todo := todo - {k};
      if k !in matching {
        keys := keys + [k];
        kept := kept + {k};
      }
    }
    assert kept == labels.Keys - Set(matching);
  }

  method WriteKey(labels: Labels, keys: seq<string>) returns (key: string)
    ensures key == Encode(labels, keys)
  {
    key := "";
    assert keys[0..] == keys;
    hide Encode;
    for i := 0 to |keys|
      invariant key + Encode(labels, keys[i..]) == Encode(labels, keys)
    {
      ghost var rest := Encode(labels, keys[i + 1..]);
      var part := keys[i] + [NAME_END] + (Get(labels, keys[i]) + [VALUE_END]);
      assert keys[i..][1..] == keys[i + 1..];
      EncodeHead(labels, keys[i..]);
      Associate(keys[i] + [NAME_END], Get(labels, keys[i]) + [VALUE_END], rest);
      Associate(key, part, rest);
      key := key + part;
    }
    EncodeNothing(labels);
    assert keys[|keys|..] == [];
  }

  lemma EncodeHead(l: Labels, names: seq<string>)
    requires names != []
    ensures Encode(l, names) == (names[0] + [NAME_END]) + ((Get(l, names[0]) + [VALUE_END]) + Encode(l, names[1..]))
  {
  }

  lemma EncodeNothing(l: Labels)
    ensures Encode(l, []) == ""
  {
  }

  /** The two branches of groupLabels: copy all but the listed labels, or look up the
      listed ones. */
  method BuildGroupLabels(labels: Labels, grouping: seq<string>, without: bool) returns (out: Labels)
    ensures out == GroupLabels(labels, grouping, without)
  {
    out := map[];
    if without {
      var todo := labels.Keys;
      while todo != {}
        invariant todo <= labels.Keys
        invariant out == map k | k in labels && k !in todo && k !in grouping :: labels[k]
        decreases todo
      {
        var k :| k in todo;
        todo := todo - {k};
        if k !in grouping {
          out := out[k := labels[k]];
        }
      }
    } else {
      for i := 0 to |grouping|
        invariant out == map k | k in labels && k in grouping[..i] :: labels[k]
      {
        var k := grouping[i];
        assert grouping[..i + 1] == grouping[..i] + [k];
        if k in labels {
          out := out[k := labels[k]];
        }
      }
      assert grouping[..|grouping|] == grouping;
    }
  }

  // ---- The encoding is injective ----

  /** What is needed of label names and values: no terminator byte inside. */
  ghost predicate Terminated(labels: Labels) {
    forall k :: k in labels ==> NAME_END !in k && VALUE_END !in labels[k]
  }

  ghost predicate NonEmptyValues(labels: Labels) {
    forall k :: k in labels ==> labels[k] != ""
  }

  ghost predicate Clean(labels: Labels) {
    Terminated(labels) && NonEmptyValues(labels)
  }

  function IndexOf(s: string, c: char): nat {
    if s == "" || s[0] == c then 0 else 1 + IndexOf(s[1..], c)
  }

  lemma {:induction false} FirstTerminator(a: string, end: char, x: string)
    requires end !in a
    ensures IndexOf(a + [end] + x, end) == |a|
  {
    if a != "" {
      assert (a + [end] + x)[1..] == a[1..] + [end] + x;
      FirstTerminator(a[1..], end, x);
    }
  }

  /** A terminator that occurs in neither text marks where it ends. */
  lemma SplitAtTerminator(a: string, b: string, end: char, x: string, y: string)
    requires end !in a && end !in b
    requires a + [end] + x == b + [end] + y
    ensures a == b && x == y
  {
    var s := a + [end] + x;
    FirstTerminator(a, end, x);
    FirstTerminator(b, end, y);
    assert a == s[..|a|] && b == s[..|b|];
    assert x == s[|a| + 1..] && y == s[|b| + 1..];
  }

  lemma EncodeSameHead(l: Labels, l': Labels, names: seq<string>)
    requires ValuesFree(l, VALUE_END) && ValuesFree(l', VALUE_END) && names != []
    ensures Encode(l, names) == Encode(l', names)
            <==> Get(l, names[0]) == Get(l', names[0]) && Encode(l, names[1..]) == Encode(l', names[1..])
  {
    var k, rest := names[0], names[1..];
    EncodeHead(l, names);
    EncodeHead(l', names);
    hide Encode;
    if Encode(l, names) == Encode(l', names) {
      CancelHead(k + [NAME_END], Get(l, k) + [VALUE_END] + Encode(l, rest), Get(l', k) + [VALUE_END] + Encode(l', rest));
      SplitAtTerminator(Get(l, k), Get(l', k), VALUE_END, Encode(l, rest), Encode(l', rest));
    }
  }

  lemma {:induction false} EncodeSameNames(l: Labels, l': Labels, names: seq<string>)
    requires ValuesFree(l, VALUE_END) && ValuesFree(l', VALUE_END)
    ensures Encode(l, names) == Encode(l', names) <==> forall k :: k in names ==> Get(l, k) == Get(l', k)
  {
    if names == [] {
      EncodeNothing(l);
      EncodeNothing(l');
    } else {
      hide Encode;
      hide Get;
      hide ValuesFree;
      EncodeSameHead(l, l', names);
      EncodeSameNames(l, l', names[1..]);
      assert forall x :: x in names <==> x == names[0] || x in names[1..];
    }
  }

  lemma {:induction false} EncodeInjective(l: Labels, l': Labels, names: seq<string>, names': seq<string>)
    requires Terminated(l) && Terminated(l')
    requires (forall k :: k in names ==> k in l) && (forall k :: k in names' ==> k in l')
    requires Encode(l, names) == Encode(l', names')
    ensures names == names' && forall k :: k in names ==> l[k] == l'[k]
  {
    if names == [] || names' == [] {
    } else {
      var k, k', rest, rest' := names[0], names'[0], names[1..], names'[1..];
      EncodeHead(l, names);
      EncodeHead(l', names');
      hide Encode;
      SplitAtTerminator(k, k', NAME_END, Get(l, k) + [VALUE_END] + Encode(l, rest), Get(l', k') + [VALUE_END] + Encode(l', rest'));
      SplitAtTerminator(Get(l, k), Get(l', k'), VALUE_END, Encode(l, rest), Encode(l', rest'));
      EncodeInjective(l, l', rest, rest');
      assert names == [k] + rest && names' == [k'] + rest';
    }
  }

  /** No value holds the byte. */
  ghost predicate ValuesFree(l: Labels, c: char) {
    forall k :: k in l ==> c !in l[k]
  }

  lemma EncodeOne(l: Labels, names: seq<string>, k: string)
    requires names == [k]
    ensures Encode(l, names) == (k + [NAME_END]) + (Get(l, k) + [VALUE_END])
  {
    assert names[1..] == [];
  }

  /** The end of the name that follows marks the end of a text without that byte. */
  lemma SplitByName(v: string, v': string, next: string, x: string, x': string)
    requires NAME_END !in v && NAME_END !in v' && NAME_END !in next
    requires v + ((next + [NAME_END]) + x) == v' + ((next + [NAME_END]) + x')
    ensures v == v' && x == x'
  {
    assert v + ((next + [NAME_END]) + x) == (v + next) + [NAME_END] + x;
    assert v' + ((next + [NAME_END]) + x') == (v' + next) + [NAME_END] + x';
    SplitAtTerminator(v + next, v' + next, NAME_END, x, x');
    CancelTail(v, v', next);
  }

  lemma CancelTail(v: string, v': string, next: string)
    requires v + next == v' + next
    ensures v == v'
  {
    assert |v| == |v'|;
    assert v == (v + next)[..|v|] == (v' + next)[..|v'|] == v';
  }

  lemma EncodeSameHeadByNames(l: Labels, l': Labels, names: seq<string>)
    requires ValuesFree(l, NAME_END) && ValuesFree(l', NAME_END)
    requires |names| >= 2 && NAME_END !in names[1]
    requires Encode(l, names) == Encode(l', names)
    ensures Get(l, names[0]) == Get(l', names[0]) && Encode(l, names[1..]) == Encode(l', names[1..])
  {
    var k, next, rest := names[0], names[1], names[1..];
    EncodeHead(l, names);
    EncodeHead(l', names);
    EncodeHead(l, rest);
    EncodeHead(l', rest);
    hide Encode;
    var v, v' := Get(l, k) + [VALUE_END], Get(l', k) + [VALUE_END];
    var x, x' := (Get(l, next) + [VALUE_END]) + Encode(l, rest[1..]), (Get(l', next) + [VALUE_END]) + Encode(l', rest[1..]);
    assert NAME_END !in v && NAME_END !in v';
    hide Get;
    hide ValuesFree;
    CancelHead(k + [NAME_END], v + Encode(l, rest), v' + Encode(l', rest));
    SplitByName(v, v', next, x, x');
    CancelTail(Get(l, k), Get(l', k), [VALUE_END]);
  }

  lemma {:induction false} EncodeSameNamesByNames(l: Labels, l': Labels, names: seq<string>)
    requires ValuesFree(l, NAME_END) && ValuesFree(l', NAME_END)
    requires forall k :: k in names ==> NAME_END !in k
    requires Encode(l, names) == Encode(l', names)
    ensures forall k :: k in names ==> Get(l, k) == Get(l', k)
  {
    if |names| == 1 {
      var k := names[0];
      EncodeOne(l, names, k);
      EncodeOne(l', names, k);
      var v, v' := Get(l, k) + [VALUE_END], Get(l', k) + [VALUE_END];
      CancelHead(k + [NAME_END], v, v');
      CancelTail(Get(l, k), Get(l', k), [VALUE_END]);
    } else if names != [] {
      hide Encode;
      hide Get;
      hide ValuesFree;
      EncodeSameHeadByNames(l, l', names);
      EncodeSameNamesByNames(l, l', names[1..]);
      assert forall x :: x in names <==> x == names[0] || x in names[1..];
    }
  }

  lemma {:induction false} AgreeingEncodeAlike(l: Labels, l': Labels, names: seq<string>)
    requires forall k :: k in names ==> Get(l, k) == Get(l', k)
    ensures Encode(l, names) == Encode(l', names)
  {
    if names != [] {
      AgreeingEncodeAlike(l, l', names[1..]);
    }
  }

  /** What the values must be free of for the keys over listed names to be unambiguous:
      the byte that ends a value, or else the byte that ends a name. */
  ghost predicate ReadableValues(l: Labels, l': Labels, matching: seq<string>) {
    || (ValuesFree(l, VALUE_END) && ValuesFree(l', VALUE_END))
    || (ValuesFree(l, NAME_END) && ValuesFree(l', NAME_END) && forall k :: k in matching ==> NAME_END !in k)
  }

  /** Keys over listed names are equal iff the maps agree on those names, a missing
      label reading as empty. */
  lemma OnKeyCanonical(l: Labels, l': Labels, matching: seq<string>)
    requires ReadableValues(l, l', matching)
    ensures KeyOf(l, true, matching) == KeyOf(l', true, matching)
            <==> forall k :: k in matching ==> Get(l, k) == Get(l', k)
  {
    var names := SortStrings(matching);
    forall k ensures k in names <==> k in matching {
      SortMembers(matching, k);
    }
    if forall k :: k in matching ==> Get(l, k) == Get(l', k) {
      AgreeingEncodeAlike(l, l', names);
    } else if ValuesFree(l, VALUE_END) && ValuesFree(l', VALUE_END) {
      EncodeSameNames(l, l', names);
    } else if Encode(l, names) == Encode(l', names) {
      EncodeSameNamesByNames(l, l', names);
    }
  }

  /** The names an `ignoring` key is written over. */
  ghost function OtherSorted(labels: Labels, matching: seq<string>): (names: seq<string>)
    ensures forall k :: k in names <==> k in labels && k !in matching
  {
    var s := labels.Keys - Set(matching);
    assert forall k :: k in SortStrings(Enumerate(s)) <==> k in s by {
      forall k ensures k in SortStrings(Enumerate(s)) <==> k in s {
        SortMembers(Enumerate(s), k);
        assert k in multiset(Enumerate(s)) <==> k in multiset(s);
      }
    }
    SortStrings(Enumerate(s))
  }

  lemma EqualKeysAgree(l: Labels, l': Labels, matching: seq<string>)
    requires Terminated(l) && Terminated(l')
    requires KeyOf(l, false, matching) == KeyOf(l', false, matching)
    ensures GroupLabels(l, matching, true) == GroupLabels(l', matching, true)
  {
    var names, names' := OtherSorted(l, matching), OtherSorted(l', matching);
    assert KeyOf(l, false, matching) == Encode(l, names) && KeyOf(l', false, matching) == Encode(l', names');
    hide SortStrings;
    hide OtherSorted;
    hide KeyOf;
    EncodeInjective(l, l', names, names');
    SameOthers(l, l', matching, names);
  }

  lemma SameOthers(l: Labels, l': Labels, matching: seq<string>, names: seq<string>)
    requires forall k :: k in names <==> k in l && k !in matching
    requires forall k :: k in names <==> k in l' && k !in matching
    requires forall k :: k in names ==> l[k] == l'[k]
    ensures GroupLabels(l, matching, true) == GroupLabels(l', matching, true)
  {
  }

  lemma AgreeingHaveEqualKeys(l: Labels, l': Labels, matching: seq<string>)
    requires Terminated(l) && Terminated(l')
    requires GroupLabels(l, matching, true) == GroupLabels(l', matching, true)
    ensures KeyOf(l, false, matching) == KeyOf(l', false, matching)
  {
    var g, g' := GroupLabels(l, matching, true), GroupLabels(l', matching, true);
    var names := OtherSorted(l, matching);
    assert g.Keys == l.Keys - Set(matching) && g'.Keys == l'.Keys - Set(matching);
    assert KeyOf(l, false, matching) == Encode(l, names) && KeyOf(l', false, matching) == Encode(l', names);
    hide SortStrings;
    hide OtherSorted;
    hide KeyOf;
    forall k | k in names ensures Get(l, k) == Get(l', k) {
      assert k in g && g[k] == g'[k];
    }
    EncodeSameNames(l, l', names);
  }

  /** Keys over all but the listed names are equal iff the maps agree outside them. */
  lemma IgnoringKeyCanonical(l: Labels, l': Labels, matching: seq<string>)
    requires Terminated(l) && Terminated(l')
    ensures KeyOf(l, false, matching) == KeyOf(l', false, matching)
            <==> GroupLabels(l, matching, true) == GroupLabels(l', matching, true)
  {
    hide KeyOf;
    if KeyOf(l, false, matching) == KeyOf(l', false, matching) {
      EqualKeysAgree(l, l', matching);
    }
    if GroupLabels(l, matching, true) == GroupLabels(l', matching, true) {
      AgreeingHaveEqualKeys(l, l', matching);
    }
  }

  /** Two clean label maps fall into one group iff they keep the same group labels. */
  lemma GroupKeyCanonical(l: Labels, l': Labels, grouping: seq<string>, without: bool)
    requires Clean(l) && Clean(l')
    ensures KeyOf(l, !without, grouping) == KeyOf(l', !without, grouping)
            <==> GroupLabels(l, grouping, without) == GroupLabels(l', grouping, without)
  {
    hide KeyOf;
    if without {
      IgnoringKeyCanonical(l, l', grouping);
    } else {
      OnKeyCanonical(l, l', grouping);
      var g, g' := GroupLabels(l, grouping, false), GroupLabels(l', grouping, false);
      if g == g' {
        forall k | k in grouping ensures Get(l, k) == Get(l', k) {
          assert k in g <==> k in l;
          assert k in g' <==> k in l';
        }
      }
      if forall k :: k in grouping ==> Get(l, k) == Get(l', k) {
        forall k ensures (k in g <==> k in g') && (k in g ==> g[k] == g'[k]) {
          if k in grouping {
            assert Get(l, k) == Get(l', k);
          }
        }
      }
    }
  }

  /** labelsKeyStr is the key over all labels: it identifies the label map. */
  lemma LabelsKeyInjective(l: Labels, l': Labels)
    requires Terminated(l) && Terminated(l')
    ensures KeyOf(l, false, []) == KeyOf(l', false, []) <==> l == l'
  {
    hide KeyOf;
    IgnoringKeyCanonical(l, l', []);
    assert GroupLabels(l, [], true) == l && GroupLabels(l', [], true) == l';
  }

  lemma GroupLabelsClean(l: Labels, grouping: seq<string>, without: bool)
    requires Clean(l)
    ensures Clean(GroupLabels(l, grouping, without))
  {
  }

  /** Without the restriction on values the key is ambiguous: a value holding both
      terminators can imitate the next label. */
  lemma KeyCollision()
    ensures var z := [VALUE_END] + "b" + [NAME_END];
            var l := map["a" := "x" + z + "y", "b" := ""];
            var l' := map["a" := "x", "b" := "y" + z];
            l != l' && KeyOf(l, true, ["a", "b"]) == KeyOf(l', true, ["a", "b"])
  {
    var z := [VALUE_END] + "b" + [NAME_END];
    var l: Labels := map["a" := "x" + z + "y", "b" := ""];
    var l': Labels := map["a" := "x", "b" := "y" + z];
    assert |l["a"]| != |l'["a"]|;
    assert SortStrings(["b"]) == ["b"] by {
      assert ["b"][1..] == [];
    }
    assert StringLess("b", "a") == false;
    assert ["a", "b"][1..] == ["b"];
    assert SortStrings(["a", "b"]) == ["a", "b"];
    EncodeTwo(l);
    EncodeTwo(l');
  }

  lemma EncodeTwo(l: Labels)
    ensures Encode(l, ["a", "b"])
         == "a" + [NAME_END] + Get(l, "a") + [VALUE_END] + ("b" + [NAME_END] + Get(l, "b") + [VALUE_END])
  {
    assert ["a", "b"][1..] == ["b"];
    assert ["b"][1..] == [];
    assert Encode(l, ["b"]) == "b" + [NAME_END] + Get(l, "b") + [VALUE_END];
  }
}

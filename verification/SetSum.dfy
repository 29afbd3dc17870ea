/** Sums over finite sets, independent of the order the elements are taken in. */
module SetSum {

  lemma Pick<T>(s: set<T>) returns (x: T)
    requires s != {}
    ensures x in s
  {
    x :| x in s;
  }

  ghost function SumOver<T>(m: map<T, real>, s: set<T>): real
    requires s <= m.Keys
  {
    if s == {} then 0.0
    else
      var x :| x in s;
      m[x] + SumOver(m, s - {x})
  }

  lemma {:induction false} SumOverRemove<T>(m: map<T, real>, s: set<T>, x: T)
    requires s <= m.Keys && x in s
    ensures SumOver(m, s) == m[x] + SumOver(m, s - {x})
    decreases s
  {
    var y :| y in s && SumOver(m, s) == m[y] + SumOver(m, s - {y});
    if y != x {
      SumOverRemove(m, s - {y}, x);
      SumOverRemove(m, s - {x}, y);
      assert s - {y} - {x} == s - {x} - {y};
    }
  }

  lemma SumOverAdd<T>(m: map<T, real>, s: set<T>, x: T)
    requires s <= m.Keys && x in m && x !in s
    ensures SumOver(m, s + {x}) == SumOver(m, s) + m[x]
  {
    SumOverRemove(m, s + {x}, x);
    assert s + {x} - {x} == s;
  }

  lemma {:induction false} SumOverAgree<T>(m: map<T, real>, m': map<T, real>, s: set<T>)
    requires s <= m.Keys && s <= m'.Keys
    requires forall x :: x in s ==> m[x] == m'[x]
    ensures SumOver(m, s) == SumOver(m', s)
    decreases s
  {
    if s != {} {
      var x :| x in s;
      SumOverRemove(m, s, x);
      SumOverRemove(m', s, x);
      SumOverAgree(m, m', s - {x});
    }
  }

  lemma {:induction false} SumOverZero<T>(m: map<T, real>, s: set<T>)
    requires s <= m.Keys
    requires forall x :: x in s ==> m[x] == 0.0
    ensures SumOver(m, s) == 0.0
    decreases s
  {
    if s != {} {
      var x :| x in s;
      SumOverRemove(m, s, x);
      SumOverZero(m, s - {x});
    }
  }
}

/** What a selector means, and exactly when what the translator makes of it
    (translator/vector_selector.go:8-41) fetches that: one metric name, and the matchers on
    labels, which the database evaluates. */
module Selectors {
  import opened Types
  import opened LabelKeys
  import opened InstantEval
  import opened Translator
  import opened PlanEval
  import Trigonometry

  const NAME: string := "__name__"

  // ---- Meaning ----

  /** The metric names that the matchers of a selector let through. */
  ghost predicate AcceptsName(matches: Engine, sel: Selector, name: string) {
    && (sel.name != "" ==> name == sel.name)
    && forall m :: m in sel.matchers && m.name == NAME ==> matches(m, name)
  }

  ghost predicate AcceptsLabels(matches: Engine, sel: Selector, l: Labels) {
    forall m :: m in sel.matchers && m.name != NAME ==> matches(m, Get(l, m.name))
  }

  /** The stored series of that metric and with these labels passes all matchers. */
  ghost predicate Selects(env: Env, sel: Selector, name: string, l: Labels) {
    && name in env.metrics && l in env.metrics[name]
    && AcceptsName(env.matches, sel, name) && AcceptsLabels(env.matches, sel, l)
  }

  ghost function StoredLabels(env: Env): set<Labels> {
    set name, l | name in env.metrics && l in env.metrics[name] :: l
  }

  ghost function MetricOf(env: Env, sel: Selector, l: Labels): (name: string)
    requires exists name :: Selects(env, sel, name, l)
    ensures Selects(env, sel, name, l)
  {
    var name :| Selects(env, sel, name, l);
    name
  }

  /** The series that a selector means. The labels of a result do not hold the metric name;
      should the selector let two metrics with the same labels through, one stands for
      both. */
  ghost function Selected(env: Env, sel: Selector): (db: Db)
    requires ValidEnv(env)
    ensures ValidDb(db)
  {
    var db: Db := map l | l in StoredLabels(env) && (exists name :: Selects(env, sel, name, l)) ::
                    env.metrics[MetricOf(env, sel, l)][l];
    assert forall l :: l in db ==> l in env.metrics[MetricOf(env, sel, l)];
    db
  }

  /** What the translator asks the database for. */
  function Compiled(env: Env, sel: Selector): Db {
    Rows(env, MetricName(sel.name, sel.matchers), LabelMatchers(sel.matchers))
  }

  // ---- The metric name ----

  /** A matcher that the metric name of the plan makes superfluous. */
  predicate Superfluous(m: Matcher, name: string) {
    (m.op == "=" && m.value == name) || (m.op == "!=" && m.value != name)
  }

  /** The selector names its metric, and all its matchers on the name are equalities with it
      or inequalities with another. */
  ghost predicate NamesItsMetric(sel: Selector) {
    && (sel.name != "" || exists m :: m in sel.matchers && m.name == NAME && m.op == "=")
    && forall m :: m in sel.matchers && m.name == NAME ==> Superfluous(m, MetricName(sel.name, sel.matchers))
  }

  lemma {:induction false} MetricNameMeaning(name: string, ms: seq<Matcher>)
    ensures name != "" ==> MetricName(name, ms) == name
    ensures MetricName(name, ms) == name || exists m :: m in ms && m.name == NAME && m.value == MetricName(name, ms)
  {
    if ms != [] {
      MetricNameMeaning(name, ms[..|ms| - 1]);
    }
  }

  lemma {:induction false} LabelMatchersMeaning(ms: seq<Matcher>)
    ensures forall m :: m in LabelMatchers(ms) <==> m in ms && m.name != NAME
  {
    if ms != [] {
      LabelMatchersMeaning(ms[..|ms| - 1]);
      assert ms == ms[..|ms| - 1] + [ms[|ms| - 1]];
    }
  }

  lemma {:induction false} NameOutside(ms: seq<Matcher>) returns (x: string)
    ensures forall m :: m in ms ==> |m.value| < |x|
  {
    if ms == [] {
      x := "a";
    } else {
      var front, last := ms[..|ms| - 1], ms[|ms| - 1];
      assert ms == front + [last];
      x := NameOutside(front);
      x := x + last.value + "a";
    }
  }

  /** The engine in which regular expressions accept all label values and no metric name. */
  function LabelsOnly(): Engine {
    (m: Matcher, v: string) => Meets(m, v) && (IsRegex(m) ==> m.name != NAME)
  }

  lemma NamedAccepts(sel: Selector, matches: Engine)
    requires NamesItsMetric(sel) && SoundEngine(matches)
    ensures forall x :: AcceptsName(matches, sel, x) <==> x == MetricName(sel.name, sel.matchers)
  {
    MetricNameMeaning(sel.name, sel.matchers);
    forall m: Matcher, v | m.op == "=" || m.op == "!=" ensures matches(m, v) <==> Meets(m, v) {
      assert !IsRegex(m);
    }
    hide SoundEngine;
  }

  lemma NamedAcceptsOne(sel: Selector)
    requires NamesItsMetric(sel)
    ensures forall x :: AcceptsName(LabelsOnly(), sel, x) <==> x == MetricName(sel.name, sel.matchers)
  {
    assert SoundEngine(LabelsOnly());
    NamedAccepts(sel, LabelsOnly());
  }

  /** A metric that the plan fetches and the selector does not mean, or the other way
      round. */
  lemma Misnamed(sel: Selector) returns (x: string)
    requires !NamesItsMetric(sel)
    ensures AcceptsName(LabelsOnly(), sel, x) != (x == MetricName(sel.name, sel.matchers))
  {
    var name := MetricName(sel.name, sel.matchers);
    MetricNameMeaning(sel.name, sel.matchers);
    if m :| m in sel.matchers && m.name == NAME && !Superfluous(m, name) {
      x := name;
      assert !LabelsOnly()(m, name);
    } else {
      x := NameOutside([Matcher("", "", name)] + sel.matchers);
      assert Matcher("", "", name) in [Matcher("", "", name)] + sel.matchers;
      forall m | m in sel.matchers && m.name == NAME ensures LabelsOnly()(m, x) {
        assert m in [Matcher("", "", name)] + sel.matchers;
      }
    }
  }

  /** The single metric name of the plan stands for the name matchers of the selector,
      whatever regular expressions accept, exactly when the selector names its metric. */
  lemma NameOfPlan(sel: Selector)
    ensures (forall matches, x :: SoundEngine(matches) ==>
               (AcceptsName(matches, sel, x) <==> x == MetricName(sel.name, sel.matchers)))
            <==> NamesItsMetric(sel)
  {
    if NamesItsMetric(sel) {
      forall matches, x | SoundEngine(matches)
        ensures AcceptsName(matches, sel, x) <==> x == MetricName(sel.name, sel.matchers)
      {
        NamedAccepts(sel, matches);
      }
    } else {
      var x := Misnamed(sel);
      assert SoundEngine(LabelsOnly());
    }
  }

  // ---- The label matchers ----

  /** Over the stored labels of the metric the database reads the label matchers as they are
      meant. */
  ghost predicate ReadsAlike(env: Env, sel: Selector) {
    forall l :: l in Stored(env, MetricName(sel.name, sel.matchers)) ==>
      (Accepts(env.searches, LabelMatchers(sel.matchers), l) <==> AcceptsLabels(env.matches, sel, l))
  }

  /** No regular expression on a label. */
  predicate RegexFree(sel: Selector) {
    forall m :: m in sel.matchers && m.name != NAME ==> !IsRegex(m)
  }

  lemma RegexFreeReadsAlike(env: Env, sel: Selector)
    requires ValidEnv(env) && RegexFree(sel)
    ensures ReadsAlike(env, sel)
  {
    LabelMatchersMeaning(sel.matchers);
    forall m, v | !IsRegex(m) ensures env.matches(m, v) == env.searches(m, v) {
    }
    hide ValidEnv;
  }

  /** What the translator asks for is what a selector means, if it names its metric and its
      label matchers are read as they are meant. */
  lemma CompiledMeans(env: Env, sel: Selector)
    requires ValidEnv(env) && NamesItsMetric(sel) && ReadsAlike(env, sel)
    ensures Compiled(env, sel) == Selected(env, sel)
  {
    var name := MetricName(sel.name, sel.matchers);
    NamedAccepts(sel, env.matches);
    forall l, x ensures Selects(env, sel, x, l) <==> x == name && l in Stored(env, name) && AcceptsLabels(env.matches, sel, l) {
    }
    forall l ensures l in Selected(env, sel) <==> l in Compiled(env, sel) {
      assert (exists x :: Selects(env, sel, x, l)) <==> Selects(env, sel, name, l);
    }
    hide NamesItsMetric;
    hide AcceptsLabels;
    hide Accepts;
    hide ReadsAlike;
  }

  // ---- Stored label sets that pass ----

  /** A label set that may be stored and passes all equalities and inequalities. */
  ghost predicate Fits(sel: Selector, l: Labels) {
    && Clean(l) && NAME !in l
    && forall m :: m in sel.matchers && m.name != NAME ==> Meets(m, Get(l, m.name))
  }

  /** Two matchers on one label, or both on the name, that no value meets. */
  predicate Exclude(m: Matcher, m': Matcher) {
    m.name == m'.name && m.op == "=" && !Meets(m', m.value)
  }

  /** The matcher asks for a label. */
  predicate Demands(m: Matcher) {
    m.name != NAME && ((m.op == "=" && m.value != "") || (m.op == "!=" && m.value == ""))
  }

  /** It asks for one that is not stored, since a terminator byte is in it. */
  predicate Unstorable(m: Matcher) {
    Demands(m) && (NAME_END in m.name || (m.op == "=" && VALUE_END in m.value))
  }

  /** No stored label set passes. */
  predicate Contradictory(sel: Selector) {
    || (exists m, m' :: m in sel.matchers && m' in sel.matchers && m.name != NAME && Exclude(m, m'))
    || (exists m :: m in sel.matchers && Unstorable(m))
  }

  /** No metric name passes. */
  predicate NoName(sel: Selector) {
    || (sel.name != "" && exists m :: m in sel.matchers && m.name == NAME && !Meets(m, sel.name))
    || (exists m, m' :: m in sel.matchers && m' in sel.matchers && m.name == NAME && Exclude(m, m'))
  }

  /** The engine in which regular expressions accept everything. */
  function Seeing(): Engine { (m: Matcher, v: string) => Meets(m, v) }

  lemma SomeName(sel: Selector) returns (x: string)
    requires !NoName(sel)
    ensures AcceptsName(Seeing(), sel, x)
  {
    if sel.name != "" {
      x := sel.name;
    } else if m :| m in sel.matchers && m.name == NAME && m.op == "=" {
      x := m.value;
      assert forall m' :: m' in sel.matchers && m'.name == NAME ==> !Exclude(m, m');
    } else {
      x := NameOutside(sel.matchers);
    }
  }

  lemma NoNameAccepted(sel: Selector, matches: Engine, x: string)
    requires NoName(sel) && SoundEngine(matches)
    ensures !AcceptsName(matches, sel, x)
  {
    if AcceptsName(matches, sel, x) {
      forall m | m in sel.matchers && m.name == NAME ensures Meets(m, x) {
        assert matches(m, x);
      }
    }
  }

  lemma ContradictoryFitsNothing(sel: Selector, l: Labels)
    requires Contradictory(sel)
    ensures !Fits(sel, l)
  {
  }

  lemma SelectedFits(env: Env, sel: Selector)
    requires ValidEnv(env)
    ensures forall l :: l in Selected(env, sel) ==> Fits(sel, l)
  {
    forall l | l in Selected(env, sel) ensures Fits(sel, l) {
      var name := MetricOf(env, sel, l);
      assert ValidDb(env.metrics[name]) && Nameless(env.metrics[name]);
      forall m | m in sel.matchers && m.name != NAME ensures Meets(m, Get(l, m.name)) {
        assert env.matches(m, Get(l, m.name));
      }
    }
  }

  lemma CompiledFits(env: Env, sel: Selector)
    requires ValidEnv(env)
    ensures forall l :: l in Compiled(env, sel) ==> Fits(sel, l)
  {
    LabelMatchersMeaning(sel.matchers);
    var name := MetricName(sel.name, sel.matchers);
    forall l | l in Compiled(env, sel) ensures Fits(sel, l) {
      assert ValidDb(env.metrics[name]) && Nameless(env.metrics[name]);
      forall m | m in sel.matchers && m.name != NAME ensures Meets(m, Get(l, m.name)) {
        assert env.searches(m, Get(l, m.name));
      }
    }
  }

  /** The selector leaves the label no choice. */
  predicate Pinned(sel: Selector, n: string) {
    exists m :: m in sel.matchers && m.name == n && m.op == "="
  }

  ghost function PinnedTo(sel: Selector, n: string): (v: string)
    requires n != NAME && Pinned(sel, n) && !Contradictory(sel)
    ensures forall m :: m in sel.matchers && m.name == n && m.op == "=" ==> v == m.value
  {
    var m :| m in sel.matchers && m.name == n && m.op == "=";
    assert forall m' :: m' in sel.matchers && m'.name == n && m'.op == "=" ==> !Exclude(m, m');
    m.value
  }

  function TotalLength(ms: seq<Matcher>): nat {
    if ms == [] then 0 else TotalLength(ms[..|ms| - 1]) + |ms[|ms| - 1].value|
  }

  lemma {:induction false} NoLonger(ms: seq<Matcher>)
    ensures forall m :: m in ms ==> |m.value| <= TotalLength(ms)
  {
    if ms != [] {
      NoLonger(ms[..|ms| - 1]);
      assert ms == ms[..|ms| - 1] + [ms[|ms| - 1]];
    }
  }

  /** Different values for different numbers, and none of them in a matcher. */
  function Fresh(sel: Selector, i: nat): string {
    seq(TotalLength(sel.matchers) + 1 + i, _ => 'a')
  }

  lemma FreshIsFresh(sel: Selector, i: nat)
    ensures Fresh(sel, i) != "" && VALUE_END !in Fresh(sel, i)
    ensures forall m :: m in sel.matchers ==> m.value != Fresh(sel, i)
    ensures forall j: nat :: i != j ==> Fresh(sel, i) != Fresh(sel, j)
  {
    NoLonger(sel.matchers);
    assert |Fresh(sel, i)| == TotalLength(sel.matchers) + 1 + i;
    forall j: nat | i != j ensures Fresh(sel, i) != Fresh(sel, j) {
      assert |Fresh(sel, j)| == TotalLength(sel.matchers) + 1 + j;
    }
    forall m | m in sel.matchers ensures m.value != Fresh(sel, i) {
      assert |m.value| < |Fresh(sel, i)|;
    }
  }

  function Demanded(sel: Selector): set<string> {
    set m | m in sel.matchers && Demands(m) :: m.name
  }

  /** A label set that passes. */
  ghost function Base(sel: Selector): Labels
    requires !Contradictory(sel)
  {
    map n | n in Demanded(sel) :: if Pinned(sel, n) then PinnedTo(sel, n) else Fresh(sel, 0)
  }

  lemma BaseValue(sel: Selector, n: string)
    requires !Contradictory(sel) && n in Demanded(sel)
    ensures NAME_END !in n && n != NAME && n in Base(sel) && Base(sel)[n] != "" && VALUE_END !in Base(sel)[n]
  {
    var m :| m in sel.matchers && Demands(m) && m.name == n;
    assert !Unstorable(m);
    FreshIsFresh(sel, 0);
    if Pinned(sel, n) {
      var p :| p in sel.matchers && p.name == n && p.op == "=";
      assert !Exclude(p, m) && !Unstorable(p);
    }
    hide Fresh;
  }

  lemma BaseMeets(sel: Selector, m: Matcher)
    requires !Contradictory(sel) && m in sel.matchers && m.name != NAME
    ensures Meets(m, Get(Base(sel), m.name))
  {
    FreshIsFresh(sel, 0);
    hide Fresh;
    hide Contradictory;
    if m.name !in Demanded(sel) {
      assert !Demands(m);
      assert m.name !in Base(sel);
    }
  }

  lemma BaseFits(sel: Selector)
    requires !Contradictory(sel)
    ensures Fits(sel, Base(sel))
  {
    forall n | n in Base(sel) ensures NAME_END !in n && n != NAME && Base(sel)[n] != "" && VALUE_END !in Base(sel)[n] {
      BaseValue(sel, n);
    }
    forall m | m in sel.matchers && m.name != NAME ensures Meets(m, Get(Base(sel), m.name)) {
      BaseMeets(sel, m);
    }
    hide Base;
    hide Meets;
    hide Get;
    hide Contradictory;
  }

  /** A label that may be stored and that the selector does not pin. */
  predicate Loose(sel: Selector, n: string) {
    NAME_END !in n && n != NAME && !Pinned(sel, n)
  }

  /** Label sets that pass and differ in one label. */
  ghost function Varied(sel: Selector, n: string, i: nat): Labels
    requires !Contradictory(sel)
  {
    Base(sel)[n := Fresh(sel, i)]
  }

  lemma VariedFits(sel: Selector, n: string, i: nat)
    requires !Contradictory(sel) && Loose(sel, n)
    ensures Fits(sel, Varied(sel, n, i))
  {
    BaseFits(sel);
    FreshIsFresh(sel, i);
    hide Base;
    hide Fresh;
    hide Contradictory;
  }

  lemma VariedDiffer(sel: Selector, n: string, i: nat, j: nat)
    requires !Contradictory(sel) && i != j
    ensures Varied(sel, n, i) != Varied(sel, n, j)
  {
    FreshIsFresh(sel, i);
    hide Base;
    hide Fresh;
    assert Varied(sel, n, i)[n] == Fresh(sel, i) && Varied(sel, n, j)[n] == Fresh(sel, j);
  }

  // ---- When the translator gets a selector right ----

  /** What is found is what is meant, whatever is stored and whatever regular expressions
      accept. */
  ghost predicate CompiledRight(sel: Selector) {
    forall env :: ValidEnv(env) ==> Compiled(env, sel) == Selected(env, sel)
  }

  function OneStored(x: string, l: Labels, matches: Engine, searches: Engine): Env {
    Env(Trigonometry.FACTUAL, map[x := map[l := []]], matches, searches, Config(0, 0, 1000))
  }

  lemma OneSeries(env: Env, sel: Selector, x: string, l: Labels)
    requires ValidEnv(env) && x in env.metrics && env.metrics.Keys == {x} && l in env.metrics[x]
    ensures l in Selected(env, sel) <==> AcceptsName(env.matches, sel, x) && AcceptsLabels(env.matches, sel, l)
    ensures l in Compiled(env, sel) <==>
            x == MetricName(sel.name, sel.matchers) && Accepts(env.searches, LabelMatchers(sel.matchers), l)
  {
    assert l in StoredLabels(env);
    assert Selects(env, sel, x, l) <==> AcceptsName(env.matches, sel, x) && AcceptsLabels(env.matches, sel, l);
    assert forall name :: name in env.metrics <==> name in env.metrics.Keys;
  }

  lemma OneStoredValid(sel: Selector, x: string, l: Labels, matches: Engine, searches: Engine)
    requires Fits(sel, l) && SoundEngines(matches, searches)
    ensures ValidEnv(OneStored(x, l, matches, searches))
  {
  }

  lemma FitsAccepted(sel: Selector, l: Labels, engine: Engine)
    requires Fits(sel, l)
    requires forall m, v :: m in sel.matchers && m.name != NAME && Meets(m, v) ==> engine(m, v)
    ensures AcceptsLabels(engine, sel, l) && Accepts(engine, LabelMatchers(sel.matchers), l)
  {
    LabelMatchersMeaning(sel.matchers);
    hide Meets;
  }

  lemma MisnamedWrong(sel: Selector)
    requires !Contradictory(sel) && !NamesItsMetric(sel)
    ensures !CompiledRight(sel)
  {
    var x := Misnamed(sel);
    var l := Base(sel);
    var env := OneStored(x, l, LabelsOnly(), LabelsOnly());
    BaseFits(sel);
    OneStoredValid(sel, x, l, LabelsOnly(), LabelsOnly());
    FitsAccepted(sel, l, LabelsOnly());
    OneSeries(env, sel, x, l);
    hide Fits;
    hide Base;
    hide Selected;
    hide Compiled;
    assert Compiled(env, sel) != Selected(env, sel);
  }

  /** The engine in which regular expressions of one kind accept nothing. */
  function Blind(op: string): Engine {
    (m: Matcher, v: string) => Meets(m, v) && (IsRegex(m) ==> m.op != op)
  }

  /** A regular expression on a label may find what it does not match, or its negation
      match where it is found. */
  lemma RegexWrong(sel: Selector, m: Matcher)
    requires !Contradictory(sel) && NamesItsMetric(sel) && m in sel.matchers && m.name != NAME && IsRegex(m)
    ensures !CompiledRight(sel)
  {
    var x, l := MetricName(sel.name, sel.matchers), Base(sel);
    var matches := if m.op == "!~" then Seeing() else Blind(m.op);
    var searches := if m.op == "!~" then Blind(m.op) else Seeing();
    var env := OneStored(x, l, matches, searches);
    BaseFits(sel);
    OneStoredValid(sel, x, l, matches, searches);
    FitsAccepted(sel, l, Seeing());
    OneSeries(env, sel, x, l);
    NamedAccepts(sel, matches);
    LabelMatchersMeaning(sel.matchers);
    assert !Blind(m.op)(m, Get(l, m.name));
    hide Base;
    hide Fits;
    hide Selected;
    hide Compiled;
    hide NamesItsMetric;
    assert Compiled(env, sel) != Selected(env, sel);
  }

  /** The translator compiles a selector to what it means, whatever is stored and whatever
      regular expressions accept, exactly when it names its metric and puts no regular
      expression to a label; or when nothing passes anyway. */
  lemma SelectorCompiled(sel: Selector)
    ensures CompiledRight(sel) <==> Contradictory(sel) || (NamesItsMetric(sel) && RegexFree(sel))
  {
    if Contradictory(sel) {
      forall env | ValidEnv(env) ensures Compiled(env, sel) == Selected(env, sel) {
        NothingPasses(env, sel);
      }
    } else if !NamesItsMetric(sel) {
      MisnamedWrong(sel);
    } else if RegexFree(sel) {
      forall env | ValidEnv(env) ensures Compiled(env, sel) == Selected(env, sel) {
        RegexFreeReadsAlike(env, sel);
        CompiledMeans(env, sel);
      }
    } else {
      var m :| m in sel.matchers && m.name != NAME && IsRegex(m);
      RegexWrong(sel, m);
    }
  }

  lemma NothingPasses(env: Env, sel: Selector)
    requires ValidEnv(env) && Contradictory(sel)
    ensures Compiled(env, sel) == map[] && Selected(env, sel) == map[]
  {
    SelectedFits(env, sel);
    CompiledFits(env, sel);
    forall l ensures !Fits(sel, l) {
      ContradictoryFitsNothing(sel, l);
    }
    hide Fits;
    hide Selected;
    hide Compiled;
    hide Contradictory;
    assert Compiled(env, sel).Keys == {} && Selected(env, sel).Keys == {};
  }
}

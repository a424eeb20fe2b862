/** Model-specific setups applied to an OpenClaw configuration, one after the other. */
module SetupEffects {
  import opened Text
  import opened PythonJson

  datatype Plugin = Plugin(id: string, loadPath: string)

  datatype Setup = Setup(compat: PyDict, plugins: seq<Plugin>)

  datatype Config = Config(compat: PyDict, plugins: seq<Plugin>, ids: set<string>)

  /** No key has two values that Python tells apart. */
  predicate Agree(a: PyDict, b: PyDict)
  {
    forall k :: k in a && k in b ==> PyEq(a[k], b[k])
  }

  lemma AgreeSymmetric(a: PyDict, b: PyDict)
    requires Agree(a, b)
    ensures Agree(b, a)
  {
    forall k | k in a && k in b ensures PyEq(b[k], a[k]) { PyEqSymmetric(a[k], b[k]); }
  }

  function Ids(plugins: seq<Plugin>): multiset<string>
  {
    if plugins == [] then multiset{} else Ids(plugins[..|plugins|-1]) + multiset{plugins[|plugins|-1].id}
  }

  /** The ids are new and none comes twice. */
  predicate AllNew(ids: set<string>, more: multiset<string>)
  {
    forall id :: id in more ==> id !in ids && more[id] == 1
  }

  function IdSet(plugins: seq<Plugin>): set<string>
  {
    set p | p in plugins :: p.id
  }

  /** One setup's effects; None is the error that stops the build. */
  function Applied(c: Config, s: Setup): Option<Config>
  {
    if Agree(c.compat, s.compat) && AllNew(c.ids, Ids(s.plugins))
    then Some(Config(c.compat + s.compat, c.plugins + s.plugins, c.ids + IdSet(s.plugins)))
    else None
  }

  lemma {:induction false} IdsCount(plugins: seq<Plugin>)
    ensures forall id :: id in Ids(plugins) <==> id in IdSet(plugins)
  {
    if plugins != [] {
      var init, last := plugins[..|plugins|-1], plugins[|plugins|-1];
      IdsCount(init);
      assert plugins == init + [last];
    }
  }

  class ConfigBuilder {
    var compat: PyDict
    var plugins: seq<Plugin>
    var ids: set<string>

    constructor (compat: PyDict)
      ensures State() == Config(compat, [], {})
    {
      this.compat, plugins, ids := compat, [], {};
    }

    function State(): Config
      reads this
    {
      Config(compat, plugins, ids)
    }

    method ApplyCompat(s: Setup) returns (ok: bool)
      modifies this`compat
      ensures ok <==> Agree(old(compat), s.compat)
      ensures ok ==> compat == old(compat) + s.compat
    {
      var todo := s.compat.Keys;
      while todo != {}
        invariant todo <= s.compat.Keys
        invariant compat == old(compat) + (map k | k in s.compat && k !in todo :: s.compat[k])
        invariant forall k :: k in s.compat && k !in todo && k in old(compat) ==> PyEq(old(compat)[k], s.compat[k])
      {
        var k :| k in todo;
        if k in compat && !PyEq(compat[k], s.compat[k]) { return false; }
        compat := compat[k := s.compat[k]];
        todo := todo - {k};
      }
      ok := true;
    }

    method ApplyPlugins(s: Setup) returns (ok: bool)
      modifies this`plugins, this`ids
      ensures ok <==> AllNew(old(ids), Ids(s.plugins))
      ensures ok ==> plugins == old(plugins) + s.plugins && ids == old(ids) + IdSet(s.plugins)
    {
      ghost var plugins0, ids0 := plugins, ids;
      for i := 0 to |s.plugins|
        invariant SomeAdded(plugins0, ids0, s.plugins, i, plugins, ids)
      {
        var p := s.plugins[i];
        OneMoreAdded(plugins0, ids0, s.plugins, i, plugins, ids);
        if p.id in ids { return false; }
        ids := ids + {p.id};
        plugins := plugins + [p];
      }
      assert s.plugins[..|s.plugins|] == s.plugins;
      ok := true;
    }

    /** _apply_openclaw_setup_effects */
    method Apply(s: Setup) returns (ok: bool)
      modifies this
      ensures ok <==> Applied(old(State()), s).Some?
      ensures ok ==> Applied(old(State()), s) == Some(State())
    {
      ok := ApplyCompat(s);
      if ok { ok := ApplyPlugins(s); }
    }

    method ApplyAll(setups: seq<Setup>) returns (ok: bool)
      modifies this
      ensures ok <==> AppliedAll(old(State()), setups).Some?
      ensures ok ==> AppliedAll(old(State()), setups) == Some(State())
    {
      for i := 0 to |setups|
        invariant AppliedAll(old(State()), setups[..i]) == Some(State())
      {
        assert setups[..i+1][..i] == setups[..i];
        ghost var c := State();
        ok := Apply(setups[i]);
        if !ok {
          FailureStays(old(State()), setups, i + 1);
          return false;
        }
      }
      assert setups[..|setups|] == setups;
      ok := true;
    }
  }

  /** The first i plugins are added, and their ids were new. */
  predicate SomeAdded(plugins0: seq<Plugin>, ids0: set<string>, more: seq<Plugin>, i: nat, plugins: seq<Plugin>,
                      ids: set<string>)
    requires i <= |more|
  {
    plugins == plugins0 + more[..i] && ids == ids0 + IdSet(more[..i]) && AllNew(ids0, Ids(more[..i]))
  }

  lemma OneMoreAdded(plugins0: seq<Plugin>, ids0: set<string>, more: seq<Plugin>, i: nat, plugins: seq<Plugin>,
                     ids: set<string>)
    requires i < |more| && SomeAdded(plugins0, ids0, more, i, plugins, ids)
    ensures if more[i].id in ids then !AllNew(ids0, Ids(more))
            else SomeAdded(plugins0, ids0, more, i + 1, plugins + [more[i]], ids + {more[i].id})
  {
    OneMoreId(more, i, ids0);
    AppendNext(plugins0, more, i);
  }

  lemma AppendNext<T>(before: seq<T>, s: seq<T>, i: nat)
    requires i < |s|
    ensures before + s[..i] + [s[i]] == before + s[..i+1]
  {
  }

  lemma IdSetGrows(plugins: seq<Plugin>, p: Plugin)
    ensures IdSet(plugins + [p]) == IdSet(plugins) + {p.id}
  {
    assert forall q :: q in plugins + [p] <==> q in plugins || q == p;
  }

  lemma OneMoreId(plugins: seq<Plugin>, i: nat, ids: set<string>)
    requires i < |plugins| && AllNew(ids, Ids(plugins[..i]))
    ensures var now, id := plugins[..i+1], plugins[i].id;
            now == plugins[..i] + [plugins[i]] && IdSet(now) == IdSet(plugins[..i]) + {id} &&
            (if id in ids || id in IdSet(plugins[..i]) then !AllNew(ids, Ids(plugins)) else AllNew(ids, Ids(now)))
  {
    var before, now, id := plugins[..i], plugins[..i+1], plugins[i].id;
    PrefixGrows(plugins, i);
    IdSetGrows(before, plugins[i]);
    IdsCount(before);
    PrefixIds(plugins, i + 1);
    IdClashes(ids, Ids(before), id, Ids(plugins));
  }

  lemma IdClashes(ids: set<string>, before: multiset<string>, id: string, whole: multiset<string>)
    requires AllNew(ids, before) && before + multiset{id} <= whole
    ensures if id in ids || id in before then !AllNew(ids, whole) else AllNew(ids, before + multiset{id})
  {
    assert whole[id] >= before[id] + 1;
    if id in ids || id in before { assert id in whole; }
  }

  lemma {:induction false} PrefixIds(plugins: seq<Plugin>, n: nat)
    requires n <= |plugins|
    ensures Ids(plugins[..n]) <= Ids(plugins)
    decreases |plugins|
  {
    if n == |plugins| {
      assert plugins[..n] == plugins;
    } else {
      var init := plugins[..|plugins|-1];
      PrefixIds(init, n);
      assert init[..n] == plugins[..n];
    }
  }

  // ----- All setups -----

  function AppliedAll(c: Config, setups: seq<Setup>): Option<Config>
  {
    if setups == [] then Some(c)
    else
      match AppliedAll(c, setups[..|setups|-1])
      case None => None
      case Some(d) => Applied(d, setups[|setups|-1])
  }

  lemma {:induction false} FailureStays(c: Config, setups: seq<Setup>, n: nat)
    requires n <= |setups| && AppliedAll(c, setups[..n]) == None
    ensures AppliedAll(c, setups) == None
    decreases |setups|
  {
    if n == |setups| {
      assert setups[..n] == setups;
    } else {
      var init := setups[..|setups|-1];
      assert init[..n] == setups[..n];
      FailureStays(c, init, n);
    }
  }

  function AllIds(setups: seq<Setup>): multiset<string>
  {
    if setups == [] then multiset{} else AllIds(setups[..|setups|-1]) + Ids(setups[|setups|-1].plugins)
  }

  function AllPlugins(setups: seq<Setup>): multiset<Plugin>
  {
    if setups == [] then multiset{} else AllPlugins(setups[..|setups|-1]) + multiset(setups[|setups|-1].plugins)
  }

  lemma SumAssociative<T>(a: multiset<T>, b: multiset<T>, c: multiset<T>)
    ensures (a + b) + c == a + (b + c)
  {
  }

  lemma AppendLast<T>(a: seq<T>, b: seq<T>)
    requires b != []
    ensures a + b == (a + b[..|b|-1]) + [b[|b|-1]]
  {
  }

  lemma Cancel<T>(a: multiset<T>, b: multiset<T>, c: multiset<T>)
    requires a + c == b + c
    ensures a == b
  {
    assert a == (a + c) - c && b == (b + c) - c;
  }

  lemma IdsAppend(setups: seq<Setup>, s: Setup)
    ensures AllIds(setups + [s]) == AllIds(setups) + Ids(s.plugins)
  {
    assert (setups + [s])[..|setups|] == setups;
  }

  lemma {:induction false} IdsConcat(a: seq<Setup>, b: seq<Setup>)
    ensures AllIds(a + b) == AllIds(a) + AllIds(b)
    decreases |b|
  {
    if b == [] {
      AddNothing(a);
    } else {
      var init, last := b[..|b|-1], b[|b|-1];
      IdsConcat(a, init);
      IdsAppend(a + init, last);
      AppendLast(a, b);
      SumAssociative(AllIds(a), AllIds(init), Ids(last.plugins));
    }
  }

  lemma PluginsAppend(setups: seq<Setup>, s: Setup)
    ensures AllPlugins(setups + [s]) == AllPlugins(setups) + multiset(s.plugins)
  {
    assert (setups + [s])[..|setups|] == setups;
  }

  lemma {:induction false} PluginsConcat(a: seq<Setup>, b: seq<Setup>)
    ensures AllPlugins(a + b) == AllPlugins(a) + AllPlugins(b)
    decreases |b|
  {
    if b == [] {
      AddNothing(a);
    } else {
      var init, last := b[..|b|-1], b[|b|-1];
      PluginsConcat(a, init);
      PluginsAppend(a + init, last);
      AppendLast(a, b);
      SumAssociative(AllPlugins(a), AllPlugins(init), multiset(last.plugins));
    }
  }

  lemma TotalsConcat(a: seq<Setup>, b: seq<Setup>)
    ensures AllIds(a + b) == AllIds(a) + AllIds(b)
    ensures AllPlugins(a + b) == AllPlugins(a) + AllPlugins(b)
  {
    IdsConcat(a, b);
    PluginsConcat(a, b);
  }

  lemma TotalsOne(s: Setup)
    ensures AllIds([s]) == Ids(s.plugins) && AllPlugins([s]) == multiset(s.plugins)
  {
    assert [s][..0] == [];
  }

  /** No two values for one key. */
  predicate ValuesAgree(c: Config, setups: seq<Setup>)
  {
    (forall s :: s in setups ==> Agree(c.compat, s.compat)) &&
    (forall s, t :: s in setups && t in setups ==> Agree(s.compat, t.compat))
  }

  /** Moreover no plugin id comes twice. */
  predicate Compatible(c: Config, setups: seq<Setup>)
  {
    ValuesAgree(c, setups) && AllNew(c.ids, AllIds(setups))
  }

  /** after is compat with the setups' values added, up to what Python tells apart. */
  ghost predicate HasValues(after: PyDict, compat: PyDict, setups: seq<Setup>)
  {
    (forall k :: k in after <==> k in compat || exists s :: s in setups && k in s.compat) &&
    (forall k :: k in compat ==> k in after && PyEq(after[k], compat[k])) &&
    (forall s, k :: s in setups && k in s.compat ==> k in after && PyEq(after[k], s.compat[k]))
  }

  ghost predicate HasPlugins(d: Config, c: Config, setups: seq<Setup>)
  {
    multiset(d.plugins) == multiset(c.plugins) + AllPlugins(setups) &&
    (forall id :: id in d.ids <==> id in c.ids || id in AllIds(setups))
  }

  /** The build succeeds exactly when the setups are compatible, and then has all their values. */
  lemma {:induction false} SucceedsIff(c: Config, setups: seq<Setup>)
    ensures AppliedAll(c, setups).Some? <==> Compatible(c, setups)
    ensures AppliedAll(c, setups).Some? ==>
              var d := AppliedAll(c, setups).value;
              HasValues(d.compat, c.compat, setups) && HasPlugins(d, c, setups)
    decreases |setups|
  {
    if setups == [] {
      forall k | k in c.compat ensures PyEq(c.compat[k], c.compat[k]) { PyEqReflexive(c.compat[k]); }
    } else {
      var init, s := setups[..|setups|-1], setups[|setups|-1];
      assert setups == init + [s];
      SucceedsIff(c, init);
      if AppliedAll(c, init).Some? {
        var d := AppliedAll(c, init).value;
        StepSucceedsIff(c, d, init, s);
        if Applied(d, s).Some? { StepHasAll(c, d, init, s); }
      } else if Compatible(c, init + [s]) {
        StaysIncompatible(c, init, s);
      }
    }
  }

  lemma StepSucceedsIff(c: Config, d: Config, init: seq<Setup>, s: Setup)
    requires Compatible(c, init) && HasValues(d.compat, c.compat, init) && HasPlugins(d, c, init)
    ensures Applied(d, s).Some? <==> Compatible(c, init + [s])
  {
    TotalsConcat(init, [s]);
    TotalsOne(s);
    AgreesIff(c, d, init, s);
    NewIff(c.ids, d.ids, AllIds(init), Ids(s.plugins));
  }

  lemma StepHasAll(c: Config, d: Config, init: seq<Setup>, s: Setup)
    requires HasValues(d.compat, c.compat, init) && HasPlugins(d, c, init) && Applied(d, s).Some?
    ensures var e := Applied(d, s).value; HasValues(e.compat, c.compat, init + [s]) && HasPlugins(e, c, init + [s])
  {
    TotalsConcat(init, [s]);
    TotalsOne(s);
    ValuesAppend(c.compat, d.compat, init, s);
    IdsCount(s.plugins);
    SumAssociative(multiset(c.plugins), AllPlugins(init), multiset(s.plugins));
  }

  lemma MembersOfAppend(init: seq<Setup>, s: Setup)
    ensures forall t :: t in init + [s] <==> t in init || t == s
  {
  }

  lemma StaysIncompatible(c: Config, init: seq<Setup>, s: Setup)
    requires Compatible(c, init + [s])
    ensures Compatible(c, init)
  {
    MembersOfAppend(init, s);
    TotalsConcat(init, [s]);
    forall id | id in AllIds(init) ensures AllIds(init)[id] == 1 && id !in c.ids {
      assert AllIds(init + [s])[id] == 1;
    }
  }

  lemma AgreesIff(c: Config, d: Config, init: seq<Setup>, s: Setup)
    requires ValuesAgree(c, init) && HasValues(d.compat, c.compat, init)
    ensures Agree(d.compat, s.compat) <==> ValuesAgree(c, init + [s])
  {
    MembersOfAppend(init, s);
    if Agree(d.compat, s.compat) {
      AgreesWithAll(c, d, init, s);
    }
    if ValuesAgree(c, init + [s]) {
      forall k | k in d.compat && k in s.compat ensures PyEq(d.compat[k], s.compat[k]) {
        if k in c.compat {
          assert Agree(c.compat, s.compat);
          PyEqTransitive(d.compat[k], c.compat[k], s.compat[k]);
        } else {
          var t :| t in init && k in t.compat;
          assert Agree(t.compat, s.compat);
          PyEqTransitive(d.compat[k], t.compat[k], s.compat[k]);
        }
      }
    }
  }

  lemma SameAsBoth(d: PyDict, a: PyDict, b: PyDict)
    requires Agree(d, a) && Agree(d, b) && a.Keys <= d.Keys
    ensures Agree(a, b)
  {
    forall k | k in a && k in b ensures PyEq(a[k], b[k]) {
      PyEqSymmetric(d[k], a[k]);
      PyEqTransitive(a[k], d[k], b[k]);
    }
  }

  lemma AgreesWithAll(c: Config, d: Config, init: seq<Setup>, s: Setup)
    requires ValuesAgree(c, init) && HasValues(d.compat, c.compat, init) && Agree(d.compat, s.compat)
    ensures ValuesAgree(c, init + [s])
  {
    MembersOfAppend(init, s);
    assert Agree(d.compat, c.compat);
    SameAsBoth(d.compat, c.compat, s.compat);
    forall t | t in init ensures Agree(t.compat, s.compat) && Agree(s.compat, t.compat) {
      SameAsBoth(d.compat, t.compat, s.compat);
      AgreeSymmetric(t.compat, s.compat);
    }
    forall k | k in s.compat ensures PyEq(s.compat[k], s.compat[k]) { PyEqReflexive(s.compat[k]); }
  }

  lemma NewIff(ids: set<string>, ids': set<string>, before: multiset<string>, more: multiset<string>)
    requires AllNew(ids, before) && forall id :: id in ids' <==> id in ids || id in before
    ensures AllNew(ids', more) <==> AllNew(ids, before + more)
  {
    if AllNew(ids, before + more) {
      forall id | id in more ensures id !in ids' && more[id] == 1 {
        assert (before + more)[id] == 1;
      }
    }
  }

  lemma ValuesAppend(compat: PyDict, before: PyDict, init: seq<Setup>, s: Setup)
    requires HasValues(before, compat, init) && Agree(before, s.compat)
    ensures HasValues(before + s.compat, compat, init + [s])
  {
    MembersOfAppend(init, s);
    var after := before + s.compat;
    forall k ensures k in after <==> k in compat || exists t :: t in init + [s] && k in t.compat {
      if k in s.compat { assert s in init + [s]; }
    }
    forall k | k in s.compat ensures PyEq(after[k], s.compat[k]) { PyEqReflexive(s.compat[k]); }
    forall k | k in compat ensures PyEq(after[k], compat[k]) { OverwrittenEqual(before, s.compat, k, compat[k]); }
    forall t, k | t in init && k in t.compat ensures PyEq(after[k], t.compat[k]) {
      OverwrittenEqual(before, s.compat, k, t.compat[k]);
    }
  }

  lemma OverwrittenEqual(before: PyDict, more: PyDict, k: string, v: PyValue)
    requires k in before && PyEq(before[k], v) && Agree(before, more)
    ensures PyEq((before + more)[k], v)
  {
    if k in more {
      PyEqSymmetric(before[k], more[k]);
      PyEqTransitive(more[k], before[k], v);
    }
  }

  // ----- Order -----

  lemma RemoveOne(setups: seq<Setup>, i: nat)
    requires i < |setups|
    ensures var rest := setups[..i] + setups[i+1..];
            AllIds(setups) == AllIds(rest) + Ids(setups[i].plugins) &&
            AllPlugins(setups) == AllPlugins(rest) + multiset(setups[i].plugins) &&
            multiset(setups) == multiset(rest) + multiset{setups[i]}
  {
    var before, after := setups[..i], setups[i+1..];
    assert setups == (before + [setups[i]]) + after;
    TotalsConcat(before + [setups[i]], after);
    TotalsConcat(before, [setups[i]]);
    TotalsConcat(before, after);
    TotalsOne(setups[i]);
  }

  lemma {:induction false} SameTotals(a: seq<Setup>, b: seq<Setup>)
    requires multiset(a) == multiset(b)
    ensures AllIds(a) == AllIds(b) && AllPlugins(a) == AllPlugins(b)
    decreases |a|
  {
    if a == [] {
      assert |multiset(b)| == |b|;
    } else {
      var n := |a| - 1;
      assert a[n] in multiset(b);
      var j :| 0 <= j < |b| && b[j] == a[n];
      RemoveOne(a, n);
      RemoveOne(b, j);
      var a', b' := a[..n] + a[n+1..], b[..j] + b[j+1..];
      Cancel(multiset(a'), multiset(b'), multiset{a[n]});
      SameTotals(a', b');
    }
  }

  /** The same keys, with values that Python does not tell apart. */
  predicate SameUpToPyEq(a: PyDict, b: PyDict)
  {
    a.Keys == b.Keys && Agree(a, b)
  }

  /** Whether the build succeeds, and the resulting values up to Python's ==, do not depend on the setups' order. */
  lemma {:induction false} OrderDoesNotMatter(c: Config, a: seq<Setup>, b: seq<Setup>)
    requires multiset(a) == multiset(b)
    ensures AppliedAll(c, a).Some? <==> AppliedAll(c, b).Some?
    ensures AppliedAll(c, a).Some? && AppliedAll(c, b).Some? ==>
              var d, e := AppliedAll(c, a).value, AppliedAll(c, b).value;
              SameUpToPyEq(d.compat, e.compat) && d.ids == e.ids && multiset(d.plugins) == multiset(e.plugins)
  {
    SucceedsIff(c, a);
    SucceedsIff(c, b);
    SameCompatible(c, a, b);
    if Compatible(c, a) {
      SameResult(c, AppliedAll(c, a).value, AppliedAll(c, b).value, a, b);
    }
  }

  lemma SameCompatible(c: Config, a: seq<Setup>, b: seq<Setup>)
    requires multiset(a) == multiset(b)
    ensures Compatible(c, a) <==> Compatible(c, b)
  {
    SameTotals(a, b);
    SameMembers(a, b);
  }

  lemma SameResult(c: Config, d: Config, e: Config, a: seq<Setup>, b: seq<Setup>)
    requires multiset(a) == multiset(b)
    requires HasValues(d.compat, c.compat, a) && HasPlugins(d, c, a)
    requires HasValues(e.compat, c.compat, b) && HasPlugins(e, c, b)
    ensures SameUpToPyEq(d.compat, e.compat) && d.ids == e.ids && multiset(d.plugins) == multiset(e.plugins)
  {
    SameTotals(a, b);
    SameMembers(a, b);
    SameValues(d.compat, e.compat, c.compat, a, b);
  }

  lemma SameMembers(a: seq<Setup>, b: seq<Setup>)
    requires multiset(a) == multiset(b)
    ensures forall s :: s in a <==> s in b
  {
    forall s ensures s in a <==> s in b {
      assert s in a <==> s in multiset(a);
      assert s in b <==> s in multiset(b);
    }
  }

  lemma SameValues(d: PyDict, e: PyDict, compat: PyDict, a: seq<Setup>, b: seq<Setup>)
    requires HasValues(d, compat, a) && HasValues(e, compat, b) && forall s :: s in a <==> s in b
    ensures SameUpToPyEq(d, e)
  {
    forall k ensures k in d <==> k in e {}
    forall k | k in d && k in e ensures PyEq(d[k], e[k]) {
      if k in compat {
        PyEqSymmetric(e[k], compat[k]);
        PyEqTransitive(d[k], compat[k], e[k]);
      } else {
        var s :| s in a && k in s.compat;
        assert s in b;
        PyEqSymmetric(e[k], s.compat[k]);
        PyEqTransitive(d[k], s.compat[k], e[k]);
      }
    }
  }

  // ----- What is written -----

  /** The value that the last setup with the key gives it. */
  function LastGiven(setups: seq<Setup>, k: string): Option<PyValue>
  {
    if setups == [] then None
    else
      var last := setups[|setups|-1];
      if k in last.compat then Some(last.compat[k]) else LastGiven(setups[..|setups|-1], k)
  }

  /** Of the values that Python does not tell apart, the last one is written. */
  lemma {:induction false} LastIsWritten(c: Config, setups: seq<Setup>, k: string)
    requires AppliedAll(c, setups).Some?
    ensures var d, given := AppliedAll(c, setups).value.compat, LastGiven(setups, k);
            && (k in d <==> k in c.compat || given.Some?)
            && (k in d ==> d[k] == if given.Some? then given.value else c.compat[k])
    decreases |setups|
  {
    if setups != [] { LastIsWritten(c, setups[..|setups|-1], k); }
  }

  lemma {:induction false} LastGivenIs(setups: seq<Setup>, k: string)
    ensures LastGiven(setups, k).Some? <==> exists s :: s in setups && k in s.compat
    ensures LastGiven(setups, k).Some? ==>
              exists s :: s in setups && k in s.compat && s.compat[k] == LastGiven(setups, k).value
  {
    if setups != [] {
      LastGivenIs(setups[..|setups|-1], k);
      SplitLast(setups);
    }
  }

  /** All values given for a key are the same, not only to Python. */
  predicate Identical(setups: seq<Setup>)
  {
    forall s, t, k :: s in setups && t in setups && k in s.compat && k in t.compat ==> s.compat[k] == t.compat[k]
  }

  lemma IdenticalIsWritten(c: Config, a: seq<Setup>, b: seq<Setup>)
    requires multiset(a) == multiset(b) && Identical(a)
    requires AppliedAll(c, a).Some? && AppliedAll(c, b).Some?
    ensures AppliedAll(c, a).value.compat == AppliedAll(c, b).value.compat
  {
    var d, e := AppliedAll(c, a).value.compat, AppliedAll(c, b).value.compat;
    SameMembers(a, b);
    forall k
      ensures k in d <==> k in e
      ensures k in d && k in e ==> d[k] == e[k]
    {
      LastIsWritten(c, a, k);
      LastIsWritten(c, b, k);
      LastGivenIs(a, k);
      LastGivenIs(b, k);
    }
  }

  /** The order that puts one setup last. */
  lemma PutLast(setups: seq<Setup>, s: Setup) returns (rest: seq<Setup>)
    requires s in setups
    ensures multiset(rest + [s]) == multiset(setups)
  {
    var i :| 0 <= i < |setups| && setups[i] == s;
    RemoveOne(setups, i);
    rest := setups[..i] + setups[i+1..];
  }

  lemma WrittenLast(c: Config, a: seq<Setup>, rest: seq<Setup>, s: Setup, k: string)
    requires AppliedAll(c, a).Some? && multiset(rest + [s]) == multiset(a) && k in s.compat
    ensures AppliedAll(c, rest + [s]).Some?
    ensures var d := AppliedAll(c, rest + [s]).value.compat; k in d && d[k] == s.compat[k]
  {
    OrderDoesNotMatter(c, a, rest + [s]);
    LastIsWritten(c, rest + [s], k);
  }

  /** Every order of the setups that succeeds writes the same map. */
  ghost predicate WrittenAlike(c: Config, a: seq<Setup>)
    requires AppliedAll(c, a).Some?
  {
    forall b :: multiset(b) == multiset(a) && AppliedAll(c, b).Some? ==>
      AppliedAll(c, b).value.compat == AppliedAll(c, a).value.compat
  }

  lemma IdenticalAlike(c: Config, a: seq<Setup>)
    requires AppliedAll(c, a).Some? && Identical(a)
    ensures WrittenAlike(c, a)
  {
    forall b | multiset(b) == multiset(a) && AppliedAll(c, b).Some?
      ensures AppliedAll(c, b).value.compat == AppliedAll(c, a).value.compat
    {
      IdenticalIsWritten(c, a, b);
    }
  }

  /** Of an alike map, the value under a key is every value given for it. */
  lemma AlikeValue(c: Config, a: seq<Setup>, s: Setup, k: string)
    requires AppliedAll(c, a).Some? && WrittenAlike(c, a) && s in a && k in s.compat
    ensures var d := AppliedAll(c, a).value.compat; k in d && d[k] == s.compat[k]
  {
    var rest := PutLast(a, s);
    WrittenLast(c, a, rest, s, k);
  }

  /** The written map does not depend on the order exactly when all values given for a key are identical. */
  lemma WrittenIff(c: Config, a: seq<Setup>)
    requires AppliedAll(c, a).Some?
    ensures WrittenAlike(c, a) <==> Identical(a)
  {
    if Identical(a) { IdenticalAlike(c, a); }
    if WrittenAlike(c, a) {
      forall s, t, k | s in a && t in a && k in s.compat && k in t.compat ensures s.compat[k] == t.compat[k] {
        AlikeValue(c, a, s, k);
        AlikeValue(c, a, t, k);
      }
    }
  }

  lemma AppliedAppend(c: Config, setups: seq<Setup>, s: Setup)
    requires AppliedAll(c, setups).Some?
    ensures AppliedAll(c, setups + [s]) == Applied(AppliedAll(c, setups).value, s)
  {
    assert (setups + [s])[..|setups|] == setups;
  }

  lemma OneByOne<T>(a: T, b: T)
    ensures [] + [a] == [a] && [a] + [b] == [a, b]
  {
  }

  /** One value for one key. */
  lemma AppliedOne(c: Config, k: string, v: PyValue)
    requires k in c.compat ==> PyEq(c.compat[k], v)
    ensures Applied(c, Setup(map[k := v], [])).Some?
    ensures Applied(c, Setup(map[k := v], [])).value.compat == c.compat[k := v]
  {
    assert c.compat + map[k := v] == c.compat[k := v];
  }

  /** One setup gives k a value, the next one a value that Python does not tell apart. */
  lemma Overwrites(c: Config, k: string, v: PyValue, w: PyValue)
    requires k !in c.compat && PyEq(v, w)
    ensures var result := AppliedAll(c, [Setup(map[k := v], []), Setup(map[k := w], [])]);
            result.Some? && result.value.compat == c.compat[k := w]
  {
    var a, b := Setup(map[k := v], []), Setup(map[k := w], []);
    OneByOne(a, b);
    AppliedAppend(c, [], a);
    AppliedAppend(c, [a], b);
    AppliedOne(c, k, v);
    AppliedOne(Applied(c, a).value, k, w);
    assert c.compat[k := v][k := w] == c.compat[k := w];
  }

  /** true and 1 for one key: both orders succeed, and each writes its own last value. */
  lemma TrueAndOne(c: Config, k: string)
    requires k !in c.compat
    ensures var a, b := Setup(map[k := Bool(true)], []), Setup(map[k := Int(1)], []);
            AppliedAll(c, [a, b]).Some? && AppliedAll(c, [b, a]).Some? &&
            AppliedAll(c, [a, b]).value.compat == c.compat[k := Int(1)] &&
            AppliedAll(c, [b, a]).value.compat == c.compat[k := Bool(true)]
  {
    Overwrites(c, k, Bool(true), Int(1));
    Overwrites(c, k, Int(1), Bool(true));
  }
}

/** The cache of injected runtime context; an entry's stamp is its creation time in milliseconds. */
module SessionCache {
  import opened Text
  import opened TimedTable

  const CACHE_MAX_SIZE: nat := 100
  const CACHE_TTL_MS: real := 3600000.0

  // ----- Fingerprints and session keys -----

  datatype Fingerprint = Fingerprint(
    sandboxName: string,
    sandboxPhase: Option<string>,
    policyVersion: Option<string>,
    policyHash: Option<string>,
    policyStatus: Option<string>)

  function OrEmpty(s: Option<string>): string
  {
    if s.Some? then s.value else ""
  }

  function Fields(f: Fingerprint): seq<string>
  {
    [f.sandboxName, OrEmpty(f.sandboxPhase), OrEmpty(f.policyVersion), OrEmpty(f.policyHash), OrEmpty(f.policyStatus)]
  }

  function Serialize(f: Fingerprint): string
  {
    Join(Fields(f), '|')
  }

  lemma {:induction false} PiecesAdd(p: string, s: string, sep: char)
    ensures |Split(p + [sep] + s, sep)| == |Split(p, sep)| + |Split(s, sep)|
    ensures |Split(p, sep)| == 1 <==> sep !in p
  {
    var all := p + [sep] + s;
    if p == "" {
      assert all[1..] == s;
    } else {
      assert all[1..] == p[1..] + [sep] + s;
      assert p == [p[0]] + p[1..];
      PiecesAdd(p[1..], s, sep);
    }
  }

  /** A separator inside a part gives more pieces than there are parts. */
  lemma {:induction false} PiecesOfJoin(parts: seq<string>, sep: char)
    requires parts != []
    ensures |Split(Join(parts, sep), sep)| >= |parts|
    ensures |Split(Join(parts, sep), sep)| == |parts| ==> forall p :: p in parts ==> sep !in p
  {
    PiecesAdd(parts[0], Join(parts[1..], sep), sep);
    if |parts| > 1 {
      PiecesOfJoin(parts[1..], sep);
      assert parts == [parts[0]] + parts[1..];
    }
  }

  predicate BarFree(f: Fingerprint)
  {
    forall s :: s in Fields(f) ==> '|' !in s
  }

  /** A fingerprint without a bar shares its key with no other, whatever bars that one has. */
  lemma BarFreeIsUnique(f: Fingerprint, g: Fingerprint)
    requires BarFree(f) && Serialize(g) == Serialize(f)
    ensures Fields(g) == Fields(f)
  {
    SplitJoin(Fields(f), '|');
    PiecesOfJoin(Fields(g), '|');
    SplitJoin(Fields(g), '|');
  }

  lemma {:induction false} CutAtBar(s: string) returns (a: string, b: string)
    requires '|' in s
    ensures s == a + "|" + b
  {
    if s[0] == '|' {
      a, b := "", s[1..];
    } else {
      assert s == [s[0]] + s[1..];
      a, b := CutAtBar(s[1..]);
      a := [s[0]] + a;
    }
  }

  lemma SerializeFields(f: Fingerprint)
    ensures var s := Fields(f); Serialize(f) == s[0] + "|" + (s[1] + "|" + (s[2] + "|" + (s[3] + "|" + s[4])))
  {
    var s := Fields(f);
    assert s[1..][1..] == s[2..] && s[2..][1..] == s[3..] && s[3..][1..] == s[4..];
    assert Join(s[4..], '|') == s[4];
    assert Join(s[3..], '|') == s[3] + "|" + s[4];
    assert Join(s[2..], '|') == s[2] + "|" + Join(s[3..], '|');
    assert Join(s[1..], '|') == s[1] + "|" + Join(s[2..], '|');
  }

  function Filled(a: string, b: string, c: string, d: string, e: string): Fingerprint
  {
    Fingerprint(a, Some(b), Some(c), Some(d), Some(e))
  }

  /** A bar inside a field can be taken for the one between two fields. */
  lemma MoveBoundary(f: Fingerprint) returns (g: Fingerprint)
    requires !BarFree(f)
    ensures Serialize(g) == Serialize(f) && Fields(g) != Fields(f)
  {
    var s := Fields(f);
    SerializeFields(f);
    if '|' in s[4] {
      var a, b := CutAtBar(s[4]);
      g := Filled(s[0], s[1], s[2], s[3] + "|" + a, b);
      assert |Fields(g)[4]| < |s[4]|;
      SerializeFields(g);
      Regroup3(s[3], a, b);
    } else if '|' in s[3] {
      var a, b := CutAtBar(s[3]);
      g := Filled(s[0], s[1], s[2], a, b + "|" + s[4]);
      assert |Fields(g)[3]| < |s[3]|;
      SerializeFields(g);
      Regroup3(a, b, s[4]);
    } else if '|' in s[2] {
      var a, b := CutAtBar(s[2]);
      g := Filled(s[0], s[1], a, b + "|" + s[3], s[4]);
      assert |Fields(g)[2]| < |s[2]|;
      SerializeFields(g);
      Regroup4(a, b, s[3], s[4]);
    } else if '|' in s[1] {
      var a, b := CutAtBar(s[1]);
      var rest := s[3] + "|" + s[4];
      g := Filled(s[0], a, b + "|" + s[2], s[3], s[4]);
      assert |Fields(g)[1]| < |s[1]|;
      SerializeFields(g);
      Regroup4(a, b, s[2], rest);
    } else {
      var a, b := CutAtBar(s[0]);
      var rest := s[2] + "|" + (s[3] + "|" + s[4]);
      g := Filled(a, b + "|" + s[1], s[2], s[3], s[4]);
      assert |Fields(g)[0]| < |s[0]|;
      SerializeFields(g);
      Regroup4(a, b, s[1], rest);
    }
  }

  lemma Regroup3(a: string, b: string, c: string)
    ensures (a + "|" + b) + "|" + c == a + "|" + (b + "|" + c)
  {
  }

  lemma Regroup4(a: string, b: string, c: string, d: string)
    ensures (a + "|" + b) + "|" + (c + "|" + d) == a + "|" + ((b + "|" + c) + "|" + d)
  {
  }

  /** A key stands for one choice of fields, an absent one counting as empty, exactly when none has a bar. */
  lemma SerializeIsExact(f: Fingerprint)
    ensures (forall g :: Serialize(g) == Serialize(f) ==> Fields(g) == Fields(f)) <==> BarFree(f)
  {
    if BarFree(f) {
      forall g | Serialize(g) == Serialize(f) ensures Fields(g) == Fields(f) { BarFreeIsUnique(f, g); }
    } else {
      var g := MoveBoundary(f);
    }
  }

  /** Two fingerprints with one key: the hash of one has moved into the version of the other. */
  lemma BarsCollide(name: string, phase: Option<string>, status: Option<string>)
    ensures var f := Fingerprint(name, phase, Some("a|b"), Some("c"), status);
            var g := Fingerprint(name, phase, Some("a"), Some("b|c"), status);
            Serialize(f) == Serialize(g) && Fields(f) != Fields(g)
  {
    var f := Fingerprint(name, phase, Some("a|b"), Some("c"), status);
    var g := Fingerprint(name, phase, Some("a"), Some("b|c"), status);
    SerializeFields(f);
    SerializeFields(g);
    assert |Fields(f)[2]| != |Fields(g)[2]|;
    Regroup4("a", "b", "c", OrEmpty(status));
    assert "a" + "|" + "b" == "a|b" && "b" + "|" + "c" == "b|c";
  }

  // ----- Eviction -----

  /** The entries that are at most an hour old. */
  function Unaged(t: Table, now: real): (r: Table)
    ensures |r| <= |t|
  {
    if t == [] then []
    else if now - t[0].stamp > CACHE_TTL_MS then Unaged(t[1..], now)
    else [t[0]] + Unaged(t[1..], now)
  }

  function Evicted(t: Table, now: real): Table
  {
    var live := Unaged(t, now);
    if |live| > CACHE_MAX_SIZE then PopAll(live, SortByStamp(live)[..|live| - CACHE_MAX_SIZE]) else live
  }

  /** What a caller gets: nothing to inject, the whole context, or what changed since an earlier one. */
  datatype Injection = Nothing | Context | Delta(previous: Item) | Failure

  class SessionRuntimeCache {
    var entries: Table

    constructor ()
      ensures entries == []
    {
      entries := [];
    }

    method EvictCache(now: real)
      requires DistinctKeys(entries)
      modifies this
      ensures entries == Evicted(old(entries), now) && DistinctKeys(entries)
    {
      DropAged(now);
      if |entries| > CACHE_MAX_SIZE {
        DropOldest(|entries| - CACHE_MAX_SIZE);
      }
    }

    method DropAged(now: real)
      requires DistinctKeys(entries)
      modifies this
      ensures entries == Unaged(old(entries), now) && DistinctKeys(entries)
    {
      var items := entries;
      SweepEnds(items, now);
      for i := 0 to |items|
        invariant entries == Swept(items, i, now) && DistinctKeys(entries)
      {
        DropIfAged(items, i, now);
      }
    }

    /** The body of that loop. */
    method DropIfAged(items: Table, i: nat, now: real)
      requires i < |items| && DistinctKeys(items)
      requires entries == Swept(items, i, now) && DistinctKeys(entries)
      modifies this
      ensures entries == Swept(items, i + 1, now) && DistinctKeys(entries)
    {
      SweepStep(items, i, now);
      if now - items[i].stamp > CACHE_TTL_MS {
        entries := Pop(entries, items[i].key);
      }
    }

    method DropOldest(excess: nat)
      requires DistinctKeys(entries) && excess <= |entries|
      modifies this
      ensures entries == PopAll(old(entries), SortByStamp(old(entries))[..excess]) && DistinctKeys(entries)
    {
      var sortedEntries := SortByStamp(entries)[..excess];
      for i := 0 to excess
        invariant PopAll(old(entries), sortedEntries) == PopAll(entries, sortedEntries[i..])
        invariant DistinctKeys(entries)
      {
        assert sortedEntries[i..][0] == sortedEntries[i] && sortedEntries[i..][1..] == sortedEntries[i+1..];
        PopDistinct(entries, sortedEntries[i].key);
        entries := Pop(entries, sortedEntries[i].key);
      }
    }

    /** The part of a call up to the policy load. */
    method Check(session: string, fingerprintKey: string, now: real) returns (cached: Option<Item>, hit: bool)
      requires DistinctKeys(entries)
      modifies this
      ensures entries == Evicted(old(entries), now) && DistinctKeys(entries)
      ensures cached == Lookup(entries, session)
      ensures hit <==> cached.Some? && cached.value.value == fingerprintKey
    {
      EvictCache(now);
      cached := Lookup(entries, session);
      hit := cached.Some? && cached.value.value == fingerprintKey;
    }

    /** The part of a call after the policy loaded. */
    method Remember(session: string, fingerprintKey: string, at: real, now: real)
      requires DistinctKeys(entries)
      modifies this
      ensures entries == Evicted(Put(old(entries), Item(session, fingerprintKey, at)), now) && DistinctKeys(entries)
    {
      PutDistinct(entries, Item(session, fingerprintKey, at));
      entries := Put(entries, Item(session, fingerprintKey, at));
      EvictCache(now);
    }

    /** One call that nothing else runs in the middle of; no session key means no caching. */
    method GetCachedRuntimeInjection(sessionKey: Option<string>, f: Fingerprint, policyLoads: bool, t1: real,
                                     t2: real, t3: real)
      returns (r: Injection)
      requires DistinctKeys(entries)
      modifies this
      ensures DistinctKeys(entries)
      ensures sessionKey.None? ==> entries == old(entries) && r == if policyLoads then Context else Failure
      ensures sessionKey.Some? ==>
                var checked := Evicted(old(entries), t1);
                var cached := Lookup(checked, sessionKey.value);
                if cached.Some? && cached.value.value == Serialize(f) then r == Nothing && entries == checked
                else if !policyLoads then r == Failure && entries == checked
                else entries == Evicted(Put(checked, Item(sessionKey.value, Serialize(f), t2)), t3)
                     && r == if cached.None? then Context else Delta(cached.value)
    {
      if sessionKey.None? { return if policyLoads then Context else Failure; }
      var cached, hit := Check(sessionKey.value, Serialize(f), t1);
      if hit { return Nothing; }
      if !policyLoads { return Failure; }
      Remember(sessionKey.value, Serialize(f), t2, t3);
      return if cached.None? then Context else Delta(cached.value);
    }
  }

  lemma {:induction false} UnagedConcat(a: Table, b: Table, now: real)
    ensures Unaged(a + b, now) == Unaged(a, now) + Unaged(b, now)
  {
    if a == [] {
      assert a + b == b;
    } else {
      assert a + b == [a[0]] + (a[1..] + b);
      UnagedConcat(a[1..], b, now);
    }
  }

  lemma {:induction false} UnagedMember(t: Table, now: real)
    ensures forall x :: x in Unaged(t, now) <==> x in t && now - x.stamp <= CACHE_TTL_MS
  {
    if t != [] { UnagedMember(t[1..], now); }
  }

  /** The cache when the first i of its entries have been looked at. */
  function Swept(items: Table, i: nat, now: real): Table
    requires i <= |items|
  {
    Unaged(items[..i], now) + items[i..]
  }

  lemma SweepEnds(items: Table, now: real)
    ensures Swept(items, 0, now) == items && Swept(items, |items|, now) == Unaged(items, now)
  {
    assert items[..|items|] == items && items[..0] == [];
  }

  lemma UnagedOne(e: Item, now: real)
    ensures Unaged([e], now) == if now - e.stamp > CACHE_TTL_MS then [] else [e]
  {
    assert [e][1..] == [];
  }

  /** Deleting an aged entry, and leaving any other, is one more step. */
  lemma {:induction false} SweepStep(items: Table, i: nat, now: real)
    requires i < |items| && DistinctKeys(items) && DistinctKeys(Swept(items, i, now))
    ensures Swept(items, i + 1, now) ==
            if now - items[i].stamp > CACHE_TTL_MS then Pop(Swept(items, i, now), items[i].key)
            else Swept(items, i, now)
    ensures DistinctKeys(Swept(items, i + 1, now))
  {
    var kept, e, after := Unaged(items[..i], now), items[i], items[i+1..];
    PrefixGrows(items, i);
    assert items[i..] == [e] + after;
    UnagedConcat(items[..i], [e], now);
    UnagedOne(e, now);
    Associative(kept, [e], after);
    PopDistinct(Swept(items, i, now), e.key);
    if now - e.stamp > CACHE_TTL_MS {
      UnagedMember(items[..i], now);
      PopMiddle(kept, e, after);
      AddNothing(kept);
    }
  }

  // ----- Calls that interleave at their awaits -----

  /** A call waiting for its policy: what it looked for and what it found. */
  datatype Call = Call(session: string, fingerprintKey: string, cached: Option<Item>)

  /** The cache, the waiting calls, and every write so far. */
  datatype System = System(cache: Table, waiting: seq<Call>, writes: Table)

  datatype Action =
    | Begin(session: string, fingerprintKey: string, now: real)
    | Loaded(k: nat, at: real, now: real)
    | LoadFailed(k: nat)

  predicate Enabled(s: System, a: Action)
  {
    a.Begin? || a.k < |s.waiting|
  }

  /** What a Begin answers on the spot: true for the null result. */
  function Unchanged(s: System, session: string, fingerprintKey: string, now: real): bool
  {
    var cached := Lookup(Evicted(s.cache, now), session);
    cached.Some? && cached.value.value == fingerprintKey
  }

  function Written(s: System, k: nat, at: real): Item
    requires k < |s.waiting|
  {
    Item(s.waiting[k].session, s.waiting[k].fingerprintKey, at)
  }

  function Step(s: System, a: Action): System
    requires Enabled(s, a)
  {
    match a
    case Begin(session, fp, now) =>
      var cache := Evicted(s.cache, now);
      s.(cache := cache,
         waiting := if Unchanged(s, session, fp, now) then s.waiting
                    else s.waiting + [Call(session, fp, Lookup(cache, session))])
    case Loaded(k, at, now) =>
      System(Evicted(Put(s.cache, Written(s, k, at)), now), s.waiting[..k] + s.waiting[k+1..],
             s.writes + [Written(s, k, at)])
    case LoadFailed(k) => s.(waiting := s.waiting[..k] + s.waiting[k+1..])
  }

  const START := System([], [], [])

  /** The clock after an action; it never goes back, within an action and between actions. */
  function ClockAfter(a: Action, clock: real): real
  {
    match a
    case Begin(_, _, now) => now
    case Loaded(_, _, now) => now
    case LoadFailed(_) => clock
  }

  predicate Forward(a: Action, clock: real)
  {
    match a
    case Begin(_, _, now) => clock <= now
    case Loaded(_, at, now) => clock <= at <= now
    case LoadFailed(_) => true
  }

  ghost predicate IsRun(trace: seq<System>, actions: seq<Action>, clocks: seq<real>)
  {
    && |trace| == |clocks| == |actions| + 1
    && trace[0] == START
    && forall i :: 0 <= i < |actions| ==>
         Enabled(trace[i], actions[i]) && trace[i+1] == Step(trace[i], actions[i])
         && Forward(actions[i], clocks[i]) && clocks[i+1] == ClockAfter(actions[i], clocks[i])
  }

  function LatestWrite(writes: Table, session: string): Option<Item>
  {
    if writes == [] then None
    else if writes[|writes|-1].key == session then Some(writes[|writes|-1])
    else LatestWrite(writes[..|writes|-1], session)
  }

  ghost predicate Good(s: System, clock: real)
  {
    && |s.cache| <= CACHE_MAX_SIZE
    && DistinctKeys(s.cache)
    && (forall e :: e in s.cache ==> e.stamp <= clock && LatestWrite(s.writes, e.key) == Some(e))
  }

  function Newest(t: Table): (r: Table)
    ensures |r| <= CACHE_MAX_SIZE && |r| <= |t|
  {
    if |t| <= CACHE_MAX_SIZE then t else t[|t| - CACHE_MAX_SIZE..]
  }

  lemma {:induction false} PopAllDistinct(t: Table, victims: seq<Item>)
    requires DistinctKeys(t)
    ensures DistinctKeys(PopAll(t, victims))
    decreases |victims|
  {
    if victims != [] {
      PopDistinct(t, victims[0].key);
      PopAllDistinct(Pop(t, victims[0].key), victims[1..]);
    }
  }

  lemma {:induction false} UnagedDistinct(t: Table, now: real)
    requires DistinctKeys(t)
    ensures DistinctKeys(Unaged(t, now))
  {
    if t != [] {
      UnagedDistinct(t[1..], now);
      UnagedMember(t[1..], now);
      if now - t[0].stamp <= CACHE_TTL_MS {
        forall x | x in Unaged(t[1..], now) ensures x.key != t[0].key {
          var i :| 0 <= i < |t[1..]| && t[1..][i] == x;
          assert t[i+1] == x;
        }
        DistinctCons(t[0], Unaged(t[1..], now));
      }
    }
  }

  lemma OverflowIs(live: Table)
    requires DistinctKeys(live) && |live| > CACHE_MAX_SIZE
    ensures var left := PopAll(live, SortByStamp(live)[..|live| - CACHE_MAX_SIZE]);
            && DistinctKeys(left) && |left| == CACHE_MAX_SIZE
            && SortByStamp(left) == Newest(SortByStamp(live))
  {
    var excess := |live| - CACHE_MAX_SIZE;
    PopAllDistinct(live, SortByStamp(live)[..excess]);
    SortPopOldest(live, excess);
  }

  lemma EvictedOf(t: Table, now: real, live: Table)
    requires live == Unaged(t, now) && DistinctKeys(live)
    ensures var left := Evicted(t, now);
            DistinctKeys(left) && |left| <= CACHE_MAX_SIZE && SortByStamp(left) == Newest(SortByStamp(live))
  {
    if |live| > CACHE_MAX_SIZE { OverflowIs(live); }
  }

  lemma NewestMembers(sorted: Table)
    ensures forall x :: x in Newest(sorted) ==> x in sorted
  {
  }

  lemma SortedMembers(left: Table, live: Table)
    requires SortByStamp(left) == Newest(SortByStamp(live))
    ensures forall x :: x in left ==> x in live
  {
    SortMember(left);
    SortMember(live);
    NewestMembers(SortByStamp(live));
  }

  /** An eviction keeps the newest hundred of the entries that are not too old. */
  lemma EvictedIs(t: Table, now: real)
    requires DistinctKeys(t)
    ensures DistinctKeys(Evicted(t, now)) && |Evicted(t, now)| <= CACHE_MAX_SIZE
    ensures SortByStamp(Evicted(t, now)) == Newest(SortByStamp(Unaged(t, now)))
    ensures forall x :: x in Evicted(t, now) ==> x in t && now - x.stamp <= CACHE_TTL_MS
  {
    UnagedDistinct(t, now);
    EvictedOf(t, now, Unaged(t, now));
    SortedMembers(Evicted(t, now), Unaged(t, now));
    UnagedMember(t, now);
  }

  lemma {:induction false} PutPresent(t: Table, w: Item)
    ensures w in Put(t, w)
    ensures |Put(t, w)| == |t| || Put(t, w) == t + [w]
  {
    if t != [] && t[0].key != w.key { PutPresent(t[1..], w); }
  }

  /** When a new session makes one too many, its entry is sorted last and survives. */
  lemma NewSessionStays(t: Table, w: Item, now: real)
    requires DistinctKeys(t + [w]) && |Unaged(t + [w], now)| > CACHE_MAX_SIZE
    requires (forall x :: x in t ==> x.stamp <= w.stamp) && now - w.stamp <= CACHE_TTL_MS
    ensures w in Evicted(t + [w], now)
  {
    EvictedIs(t + [w], now);
    UnagedConcat(t, [w], now);
    UnagedMember(t, now);
    assert [w][1..] == [] && Unaged([w], now) == [w];
    SortAppend(Unaged(t, now), w);
    var sorted := SortByStamp(Unaged(t + [w], now));
    assert sorted == SortByStamp(Unaged(t, now)) + [w];
    assert Newest(sorted)[CACHE_MAX_SIZE - 1] == w;
    SortMember(Evicted(t + [w], now));
  }

  /** A newly written entry is never the one that eviction removes. */
  lemma {:induction false} NewEntryStays(t: Table, w: Item, now: real)
    requires DistinctKeys(t) && |t| <= CACHE_MAX_SIZE
    requires (forall x :: x in t ==> x.stamp <= w.stamp) && now - w.stamp <= CACHE_TTL_MS
    ensures Lookup(Evicted(Put(t, w), now), w.key) == Some(w)
  {
    var u := Put(t, w);
    PutPresent(t, w);
    PutDistinct(t, w);
    if |Unaged(u, now)| > CACHE_MAX_SIZE {
      NewSessionStays(t, w, now);
    } else {
      UnagedMember(u, now);
    }
    EvictedIs(u, now);
    LookupDistinct(Evicted(u, now), w.key);
  }

  lemma {:induction false} PutKeeps(t: Table, w: Item)
    ensures forall x :: x in Put(t, w) ==> x == w || (x in t && (DistinctKeys(t) ==> x.key != w.key))
  {
    if t != [] {
      if t[0].key == w.key {
        assert forall i :: 0 < i < |t| && DistinctKeys(t) ==> t[i].key != t[0].key;
      } else {
        PutKeeps(t[1..], w);
      }
    }
  }

  lemma {:induction false} StepKeepsGood(s: System, a: Action, clock: real)
    requires Good(s, clock) && Enabled(s, a) && Forward(a, clock)
    ensures Good(Step(s, a), ClockAfter(a, clock))
  {
    match a {
      case Begin(session, fp, now) =>
        EvictedIs(s.cache, now);
      case Loaded(k, at, now) =>
        var w := Written(s, k, at);
        var writes := s.writes + [w];
        assert writes[..|writes|-1] == s.writes;
        PutDistinct(s.cache, w);
        PutKeeps(s.cache, w);
        EvictedIs(Put(s.cache, w), now);
        forall e | e in Evicted(Put(s.cache, w), now) ensures e.stamp <= now && LatestWrite(writes, e.key) == Some(e) {
          assert e == w || (e in s.cache && e.key != w.key);
        }
      case LoadFailed(k) =>
    }
  }

  /** In every interleaving with a clock that never goes back, between any two steps: the cache
      holds at most a hundred entries, one per session, each the latest write for its session. */
  lemma {:induction false} RunIsGood(trace: seq<System>, actions: seq<Action>, clocks: seq<real>, n: nat)
    requires IsRun(trace, actions, clocks) && n < |trace|
    ensures Good(trace[n], clocks[n])
  {
    if n > 0 {
      RunIsGood(trace, actions, clocks, n - 1);
      StepKeepsGood(trace[n-1], actions[n-1], clocks[n-1]);
    }
  }

  /** The null result is given only when the session's latest write came from a loaded policy
      with the same fingerprint key, at most an hour ago. */
  lemma NullOnlyWhenFresh(trace: seq<System>, actions: seq<Action>, clocks: seq<real>, n: nat,
                          session: string, fingerprintKey: string, now: real)
    requires IsRun(trace, actions, clocks) && n < |trace|
    requires Unchanged(trace[n], session, fingerprintKey, now)
    ensures LatestWrite(trace[n].writes, session).Some?
    ensures var w := LatestWrite(trace[n].writes, session).value;
            w.value == fingerprintKey && now - w.stamp <= CACHE_TTL_MS
  {
    var s := trace[n];
    RunIsGood(trace, actions, clocks, n);
    EvictedIs(s.cache, now);
    LookupDistinct(Evicted(s.cache, now), session);
  }

  /** A step that writes keeps what it wrote; a failed load changes neither cache nor writes. */
  lemma WritesAreKept(trace: seq<System>, actions: seq<Action>, clocks: seq<real>, n: nat)
    requires IsRun(trace, actions, clocks) && n < |actions|
    ensures match actions[n]
            case Begin(_, _, _) => trace[n+1].writes == trace[n].writes
            case Loaded(k, at, now) =>
              now - at <= CACHE_TTL_MS ==>
                Lookup(trace[n+1].cache, trace[n].waiting[k].session) == Some(Written(trace[n], k, at))
            case LoadFailed(_) => trace[n+1].cache == trace[n].cache && trace[n+1].writes == trace[n].writes
  {
    RunIsGood(trace, actions, clocks, n);
    match actions[n] {
      case Begin(_, _, _) =>
      case Loaded(k, at, now) =>
        if now - at <= CACHE_TTL_MS { NewEntryStays(trace[n].cache, Written(trace[n], k, at), now); }
      case LoadFailed(_) =>
    }
  }

  // ----- Where calls and writes come from -----

  /** The call was begun at step i, and found what the cache had for its session then. */
  ghost predicate BegunAt(trace: seq<System>, actions: seq<Action>, i: int, c: Call)
  {
    && 0 <= i < |actions| && i < |trace| && actions[i].Begin?
    && actions[i].session == c.session && actions[i].fingerprintKey == c.fingerprintKey
    && c.cached == Lookup(Evicted(trace[i].cache, actions[i].now), c.session)
    && !(c.cached.Some? && c.cached.value.value == c.fingerprintKey)
  }

  /** The entry was written at step j, when the policy of a call waiting then had loaded. */
  ghost predicate WrittenAt(trace: seq<System>, actions: seq<Action>, j: int, w: Item)
  {
    && 0 <= j < |actions| && j < |trace| && actions[j].Loaded? && actions[j].k < |trace[j].waiting|
    && w.stamp == actions[j].at
    && w.key == trace[j].waiting[actions[j].k].session && w.value == trace[j].waiting[actions[j].k].fingerprintKey
  }

  /** Every waiting call was begun before step n, and every write belongs to a load before it. */
  ghost predicate Accounted(trace: seq<System>, actions: seq<Action>, s: System, n: nat)
  {
    && (forall c :: c in s.waiting ==> exists i :: i < n && BegunAt(trace, actions, i, c))
    && (forall w :: w in s.writes ==> exists j :: j < n && WrittenAt(trace, actions, j, w))
  }

  function Failures(actions: seq<Action>): nat
  {
    if actions == [] then 0 else Failures(actions[..|actions|-1]) + (if actions[|actions|-1].LoadFailed? then 1 else 0)
  }

  /** How many calls were not answered with null at once. */
  ghost function Begun(trace: seq<System>, actions: seq<Action>, n: nat): nat
    requires n <= |actions| && n <= |trace|
  {
    if n == 0 then 0
    else
      var a := actions[n-1];
      Begun(trace, actions, n - 1) +
      (if a.Begin? && !Unchanged(trace[n-1], a.session, a.fingerprintKey, a.now) then 1 else 0)
  }

  /** In every interleaving each of those calls waits, was written, or failed; a waiting one was begun
      and a write belongs to a load. */
  lemma {:induction false} CallsAreSettled(trace: seq<System>, actions: seq<Action>, clocks: seq<real>, n: nat)
    requires IsRun(trace, actions, clocks) && n < |trace|
    ensures |trace[n].waiting| + |trace[n].writes| + Failures(actions[..n]) == Begun(trace, actions, n)
    ensures Accounted(trace, actions, trace[n], n)
  {
    if n == 0 {
      assert actions[..0] == [];
    } else {
      var m := n - 1;
      CallsAreSettled(trace, actions, clocks, m);
      assert actions[..n][..m] == actions[..m] && actions[..n][m] == actions[m];
      CallsStep(trace[m], actions[m]);
      CallsMore(trace, actions, m, n);
    }
  }

  lemma CallsStep(s: System, a: Action)
    requires Enabled(s, a)
    ensures var next := Step(s, a);
            |next.waiting| + |next.writes| + (if a.LoadFailed? then 1 else 0) ==
            |s.waiting| + |s.writes| +
            (if a.Begin? && !Unchanged(s, a.session, a.fingerprintKey, a.now) then 1 else 0)
  {
  }

  lemma CallsMore(trace: seq<System>, actions: seq<Action>, m: nat, n: nat)
    requires n == m + 1 && m < |actions| && n < |trace| && Enabled(trace[m], actions[m])
    requires trace[n] == Step(trace[m], actions[m]) && Accounted(trace, actions, trace[m], m)
    ensures Accounted(trace, actions, trace[n], n)
  {
    forall c | c in trace[n].waiting ensures exists i :: i < n && BegunAt(trace, actions, i, c) {
      if c !in trace[m].waiting { assert BegunAt(trace, actions, m, c); }
    }
    forall w | w in trace[n].writes ensures exists j :: j < n && WrittenAt(trace, actions, j, w) {
      if w !in trace[m].writes { assert WrittenAt(trace, actions, m, w); }
    }
  }

  // ----- Which sessions are remembered -----

  /** The latest write of every session, least recently written first. */
  function Recent(writes: Table): Table
  {
    if writes == [] then []
    else Pop(Recent(writes[..|writes|-1]), writes[|writes|-1].key) + [writes[|writes|-1]]
  }

  function Members(t: Table): set<Item>
  {
    set x | x in t
  }

  function Young(s: set<Item>, now: real): set<Item>
  {
    set x | x in s && now - x.stamp <= CACHE_TTL_MS
  }

  function Without(s: set<Item>, key: string): set<Item>
  {
    set x | x in s && x.key != key
  }

  /** The latest writes of the sessions that were written in the last hour. */
  function Fresh(writes: Table, now: real): set<Item>
  {
    Young(Members(Recent(writes)), now)
  }

  /** What is kept is all there is, or at least a hundred entries, none older than one left out. */
  ghost predicate Covers(kept: set<Item>, all: set<Item>)
  {
    && kept <= all
    && (kept == all || |kept| >= CACHE_MAX_SIZE)
    && forall x, y :: x in kept && y in all - kept ==> y.stamp <= x.stamp
  }

  ghost predicate OnePerKey(s: set<Item>)
  {
    forall x, y :: x in s && y in s && x.key == y.key ==> x == y
  }

  lemma {:induction false} PopDropsKey(t: Table, key: string)
    requires DistinctKeys(t)
    ensures forall x :: x in Pop(t, key) <==> x in t && x.key != key
  {
    if t != [] {
      if t[0].key == key {
        assert forall i :: 0 < i < |t| ==> t[i].key != t[0].key;
      } else {
        PopDropsKey(t[1..], key);
        assert t == [t[0]] + t[1..];
      }
    }
  }

  lemma DistinctOnePerKey(t: Table)
    requires DistinctKeys(t)
    ensures OnePerKey(Members(t))
  {
    forall x, y | x in t && y in t && x.key == y.key ensures x == y {
      LookupDistinct(t, x.key);
    }
  }

  lemma {:induction false} CountMembers(t: Table)
    requires DistinctKeys(t)
    ensures |Members(t)| == |t|
  {
    if t != [] {
      CountMembers(t[1..]);
      assert t == [t[0]] + t[1..];
      assert Members(t) == Members(t[1..]) + {t[0]};
      forall x | x in t[1..] ensures x != t[0] {
        var i :| 0 <= i < |t[1..]| && t[1..][i] == x;
        assert t[i+1] == x;
      }
    }
  }

  lemma {:induction false} RecentDistinct(writes: Table)
    ensures DistinctKeys(Recent(writes))
    ensures forall x :: x in Recent(writes) ==> x in writes
  {
    if writes != [] {
      var before, w := writes[..|writes|-1], writes[|writes|-1];
      RecentDistinct(before);
      PopDistinct(Recent(before), w.key);
      PopDropsKey(Recent(before), w.key);
      assert writes == before + [w];
    }
  }

  lemma {:induction false} RecentIsLatest(writes: Table, session: string)
    ensures forall x :: x in Recent(writes) && x.key == session <==> LatestWrite(writes, session) == Some(x)
  {
    if writes != [] {
      var before, w := writes[..|writes|-1], writes[|writes|-1];
      RecentIsLatest(before, session);
      RecentDistinct(before);
      PopDropsKey(Recent(before), w.key);
    }
  }

  lemma RecentAfter(writes: Table, w: Item)
    ensures Members(Recent(writes + [w])) == Without(Members(Recent(writes)), w.key) + {w}
  {
    assert (writes + [w])[..|writes|] == writes;
    RecentDistinct(writes);
    PopDropsKey(Recent(writes), w.key);
  }

  lemma {:induction false} PutMembers(t: Table, w: Item)
    requires DistinctKeys(t)
    ensures Members(Put(t, w)) == Without(Members(t), w.key) + {w}
  {
    if t != [] {
      assert t == [t[0]] + t[1..];
      if t[0].key == w.key {
        assert forall i :: 0 < i < |t| ==> t[i].key != t[0].key;
      } else {
        PutMembers(t[1..], w);
        assert Members(Put(t, w)) == Members(Put(t[1..], w)) + {t[0]};
        assert Members(t) == Members(t[1..]) + {t[0]};
      }
    }
  }

  // ----- Covering is kept by growing old, by rewriting and by eviction -----

  /** When something young is left out, everything kept is as young. */
  lemma AllKeptAreYoung(kept: set<Item>, all: set<Item>, y: Item, now: real)
    requires Covers(kept, all) && y in Young(all, now) && y !in kept
    ensures Young(kept, now) == kept
  {
    forall x | x in kept ensures x in Young(kept, now) {
      assert y in all - kept;
    }
  }

  lemma YoungMembers(kept: set<Item>, all: set<Item>, now: real)
    requires kept <= all
    ensures Young(kept, now) <= Young(all, now) <= all
  {
  }

  lemma YoungCovers(kept: set<Item>, all: set<Item>, now: real)
    requires Covers(kept, all)
    ensures Covers(Young(kept, now), Young(all, now))
  {
    YoungMembers(kept, all, now);
    if Young(kept, now) != Young(all, now) {
      var y :| y in Young(all, now) && y !in Young(kept, now);
      AllKeptAreYoung(kept, all, y, now);
      assert kept != all;
    }
  }

  lemma WithoutOne(s: set<Item>, w: Item)
    requires OnePerKey(s)
    ensures |Without(s, w.key) + {w}| >= |s|
  {
    if x :| x in s && x.key == w.key {
      assert Without(s, w.key) == s - {x};
    } else {
      assert Without(s, w.key) == s;
    }
  }

  lemma WriteCovers(kept: set<Item>, all: set<Item>, w: Item)
    requires Covers(kept, all) && OnePerKey(all) && forall x :: x in all ==> x.stamp <= w.stamp
    ensures Covers(Without(kept, w.key) + {w}, Without(all, w.key) + {w})
  {
    WithoutOne(kept, w);
  }

  lemma SubsetCovers(kept: set<Item>, some: set<Item>, all: set<Item>)
    requires Covers(some, all) && Covers(kept, some)
    ensures Covers(kept, all)
  {
  }

  /** Sorted by time, the last entries are no older than the others. */
  lemma LastAreNewest(sorted: Table, d: nat)
    requires Ascending(sorted) && d <= |sorted|
    ensures forall x, y :: x in sorted[d..] && y in sorted && y !in sorted[d..] ==> y.stamp <= x.stamp
  {
    assert forall i :: d <= i < |sorted| ==> sorted[i] in sorted[d..];
  }

  lemma NewestIs(sorted: Table)
    ensures var d := |sorted| - |Newest(sorted)|;
            Newest(sorted) == sorted[d..] && (d == 0 || |Newest(sorted)| == CACHE_MAX_SIZE)
  {
  }

  lemma LastCover(sorted: Table, kept: set<Item>)
    requires Ascending(sorted) && kept == Members(Newest(sorted)) && |kept| == |Newest(sorted)|
    ensures Covers(kept, Members(sorted))
  {
    NewestIs(sorted);
    LastAreNewest(sorted, |sorted| - |Newest(sorted)|);
  }

  lemma SameMembers(t: Table, sorted: Table)
    requires sorted == SortByStamp(t)
    ensures Members(sorted) == Members(t)
  {
    SortMember(t);
  }

  lemma NewestCovers(t: Table, left: Table)
    requires DistinctKeys(left) && SortByStamp(left) == Newest(SortByStamp(t))
    ensures Covers(Members(left), Members(t))
  {
    var sorted := SortByStamp(t);
    SortIsAscending(t);
    SameMembers(t, sorted);
    SameMembers(left, Newest(sorted));
    CountMembers(left);
    LastCover(sorted, Members(left));
  }

  lemma EvictionCovers(t: Table, all: set<Item>, now: real)
    requires DistinctKeys(t) && Covers(Members(t), all)
    ensures Covers(Members(Evicted(t, now)), Young(all, now))
  {
    var live := Unaged(t, now);
    EvictedIs(t, now);
    UnagedMember(t, now);
    assert Members(live) == Young(Members(t), now);
    NewestCovers(live, Evicted(t, now));
    YoungCovers(Members(t), all, now);
    SubsetCovers(Members(Evicted(t, now)), Members(live), Young(all, now));
  }

  // ----- Every run -----

  ghost predicate Covered(s: System, clock: real)
  {
    && Covers(Members(s.cache), Fresh(s.writes, clock))
    && forall x :: x in s.writes ==> x.stamp <= clock
  }

  lemma BeginCovered(s: System, clock: real, now: real)
    requires DistinctKeys(s.cache) && Covered(s, clock) && clock <= now
    ensures Covers(Members(Evicted(s.cache, now)), Fresh(s.writes, now))
  {
    EvictionCovers(s.cache, Fresh(s.writes, clock), now);
    assert Young(Fresh(s.writes, clock), now) == Fresh(s.writes, now);
  }

  lemma FreshAfter(writes: Table, w: Item, clock: real, now: real)
    requires clock <= now
    ensures Young(Without(Fresh(writes, clock), w.key) + {w}, now) == Fresh(writes + [w], now)
  {
    RecentAfter(writes, w);
  }

  lemma LoadedCovered(s: System, w: Item, clock: real, now: real)
    requires DistinctKeys(s.cache) && Covered(s, clock) && clock <= w.stamp <= now
    ensures Covers(Members(Evicted(Put(s.cache, w), now)), Fresh(s.writes + [w], now))
  {
    var all := Fresh(s.writes, clock);
    RecentDistinct(s.writes);
    DistinctOnePerKey(Recent(s.writes));
    WriteCovers(Members(s.cache), all, w);
    PutMembers(s.cache, w);
    PutDistinct(s.cache, w);
    EvictionCovers(Put(s.cache, w), Without(all, w.key) + {w}, now);
    FreshAfter(s.writes, w, clock, now);
  }

  lemma StepKeepsCovered(s: System, a: Action, clock: real)
    requires Good(s, clock) && Covered(s, clock) && Enabled(s, a) && Forward(a, clock)
    ensures Covered(Step(s, a), ClockAfter(a, clock))
  {
    match a {
      case Begin(_, _, now) => BeginCovered(s, clock, now);
      case Loaded(k, at, now) => LoadedCovered(s, Written(s, k, at), clock, now);
      case LoadFailed(_) =>
    }
  }

  lemma {:induction false} RunIsCovered(trace: seq<System>, actions: seq<Action>, clocks: seq<real>, n: nat)
    requires IsRun(trace, actions, clocks) && n < |trace|
    ensures Covered(trace[n], clocks[n])
  {
    if n > 0 {
      RunIsCovered(trace, actions, clocks, n - 1);
      RunIsGood(trace, actions, clocks, n - 1);
      StepKeepsCovered(trace[n-1], actions[n-1], clocks[n-1]);
    }
  }

  /** What a call finds after its eviction, in every interleaving: as many sessions as were
      written in the last hour, up to a hundred, and none older than one that is forgotten. */
  lemma NewestAreKept(trace: seq<System>, actions: seq<Action>, clocks: seq<real>, n: nat, now: real)
    requires IsRun(trace, actions, clocks) && n < |trace| && clocks[n] <= now
    ensures var kept, all := Members(Evicted(trace[n].cache, now)), Fresh(trace[n].writes, now);
            && kept <= all
            && |kept| == (if |all| <= CACHE_MAX_SIZE then |all| else CACHE_MAX_SIZE)
            && forall x, y :: x in kept && y in all - kept ==> y.stamp <= x.stamp
  {
    var s := trace[n];
    RunIsGood(trace, actions, clocks, n);
    RunIsCovered(trace, actions, clocks, n);
    BeginCovered(s, clocks[n], now);
    EvictedIs(s.cache, now);
    CountMembers(Evicted(s.cache, now));
    SubsetSize(Members(Evicted(s.cache, now)), Fresh(s.writes, now));
  }

  lemma {:induction false} SubsetSize<T>(a: set<T>, b: set<T>)
    requires a <= b
    ensures |a| <= |b| && (|a| == |b| ==> a == b)
  {
    assert b == a + (b - a);
    assert |b| == |a| + |b - a|;
  }

  /** The other sessions written at a later time than w, and those written no earlier. */
  function Later(writes: Table, w: Item): set<Item>
  {
    set x | x in Recent(writes) && x.stamp > w.stamp
  }

  function NoEarlier(writes: Table, w: Item): set<Item>
  {
    set x | x in Recent(writes) && x.stamp >= w.stamp && x != w
  }

  lemma KeptHasFewLater(kept: set<Item>, writes: Table, w: Item, now: real)
    requires Covers(kept, Fresh(writes, now)) && |kept| <= CACHE_MAX_SIZE && w in kept
    ensures |Later(writes, w)| < CACHE_MAX_SIZE
  {
    SubsetSize(Later(writes, w), kept - {w});
  }

  lemma LostHasManyOthers(kept: set<Item>, writes: Table, w: Item, now: real)
    requires Covers(kept, Fresh(writes, now)) && w in Fresh(writes, now) - kept
    ensures |NoEarlier(writes, w)| >= CACHE_MAX_SIZE
  {
    SubsetSize(kept, NoEarlier(writes, w));
  }

  /** No other session was written last at the time of w. */
  predicate Untied(writes: Table, w: Item)
  {
    forall x :: x in Recent(writes) && x.stamp == w.stamp ==> x == w
  }

  lemma UntiedLater(writes: Table, w: Item)
    requires Untied(writes, w)
    ensures Later(writes, w) == NoEarlier(writes, w)
  {
  }

  /** The session's latest write has this fingerprint key and is at most an hour old. */
  predicate WrittenLately(writes: Table, session: string, fingerprintKey: string, now: real)
  {
    var w := LatestWrite(writes, session);
    w.Some? && w.value.value == fingerprintKey && now - w.value.stamp <= CACHE_TTL_MS
  }

  lemma UnchangedIff(s: System, session: string, fingerprintKey: string, now: real)
    requires DistinctKeys(s.cache) && Members(Evicted(s.cache, now)) <= Fresh(s.writes, now)
    ensures Unchanged(s, session, fingerprintKey, now) <==>
              WrittenLately(s.writes, session, fingerprintKey, now)
              && LatestWrite(s.writes, session).value in Members(Evicted(s.cache, now))
  {
    var t := Evicted(s.cache, now);
    EvictedIs(s.cache, now);
    LookupDistinct(t, session);
    RecentIsLatest(s.writes, session);
    if Lookup(t, session).Some? { assert Lookup(t, session).value in Members(t); }
  }

  /** Only for a session whose latest write is recent and has the same fingerprint key, and with
      fewer than a hundred sessions written at a later time, is the result null; fewer than a hundred
      written at that time or later are enough. A session that shares its time with no other is
      remembered exactly under these conditions. */
  lemma NullIsExact(trace: seq<System>, actions: seq<Action>, clocks: seq<real>, n: nat,
                    session: string, fingerprintKey: string, now: real)
    requires IsRun(trace, actions, clocks) && n < |trace| && clocks[n] <= now
    ensures var writes := trace[n].writes;
            var lately := WrittenLately(writes, session, fingerprintKey, now);
            var null_ := Unchanged(trace[n], session, fingerprintKey, now);
            && (null_ ==> lately && |Later(writes, LatestWrite(writes, session).value)| < CACHE_MAX_SIZE)
            && (lately && |NoEarlier(writes, LatestWrite(writes, session).value)| < CACHE_MAX_SIZE ==> null_)
            && (lately && Untied(writes, LatestWrite(writes, session).value) ==>
                  (null_ <==> |Later(writes, LatestWrite(writes, session).value)| < CACHE_MAX_SIZE))
  {
    var s := trace[n];
    var kept := Members(Evicted(s.cache, now));
    RunIsGood(trace, actions, clocks, n);
    RunIsCovered(trace, actions, clocks, n);
    BeginCovered(s, clocks[n], now);
    EvictedIs(s.cache, now);
    CountMembers(Evicted(s.cache, now));
    UnchangedIff(s, session, fingerprintKey, now);
    if WrittenLately(s.writes, session, fingerprintKey, now) {
      var w := LatestWrite(s.writes, session).value;
      RecentIsLatest(s.writes, session);
      if Untied(s.writes, w) { UntiedLater(s.writes, w); }
      if w in kept {
        KeptHasFewLater(kept, s.writes, w, now);
      } else {
        LostHasManyOthers(kept, s.writes, w, now);
      }
    }
  }

  /** Later writes alone do not decide: of more than a hundred sessions written at one time, one is forgotten. */
  lemma TieForgets(trace: seq<System>, actions: seq<Action>, clocks: seq<real>, n: nat, now: real)
    requires IsRun(trace, actions, clocks) && n < |trace| && clocks[n] <= now
    requires |Fresh(trace[n].writes, now)| > CACHE_MAX_SIZE
    requires forall x, y :: x in Fresh(trace[n].writes, now) && y in Fresh(trace[n].writes, now) ==> x.stamp == y.stamp
    ensures exists w :: w in Fresh(trace[n].writes, now) && Later(trace[n].writes, w) == {}
                        && !Unchanged(trace[n], w.key, w.value, now)
  {
    var s := trace[n];
    var kept, all := Members(Evicted(s.cache, now)), Fresh(s.writes, now);
    NewestAreKept(trace, actions, clocks, n, now);
    assert kept != all;
    var w :| w in all && w !in kept;
    RecentIsLatest(s.writes, w.key);
    RunIsGood(trace, actions, clocks, n);
    UnchangedIff(s, w.key, w.value, now);
    assert forall x :: x in Later(s.writes, w) ==> x in all;
  }
}

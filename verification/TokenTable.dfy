/** The expiring table that swaps local interaction tokens for real ones; a stamp is an expiry time. */
module TokenTable {
  import opened Text
  import opened TimedTable

  const TTL_SECONDS: real := 900.0
  const MAX_TOKENS: nat := 1024

  function Unexpired(t: Table, now: real): (r: Table)
    ensures |r| <= |t|
  {
    if t == [] then []
    else if t[0].stamp <= now then Unexpired(t[1..], now)
    else [t[0]] + Unexpired(t[1..], now)
  }

  /** What one prune leaves. */
  function Pruned(t: Table, now: real): Table
  {
    var live := Unexpired(t, now);
    if |live| > MAX_TOKENS then PopAll(live, SortByStamp(live)[..|live| - MAX_TOKENS]) else live
  }

  /** What one store leaves; the clock is read by each prune and once for the expiry. */
  function Stored(t: Table, local: string, token: string, t1: real, t2: real, t3: real): Table
  {
    Pruned(Put(Pruned(t, t1), Item(local, token, t2 + TTL_SECONDS)), t3)
  }

  function Resolved(t: Table, local: string, now: real): Option<string>
  {
    match Lookup(Pruned(t, now), local)
    case None => None
    case Some(e) => Some(e.value)
  }

  class InteractionTokens {
    var table: Table

    constructor ()
      ensures table == []
    {
      table := [];
    }

    method Prune(now: real)
      requires DistinctKeys(table)
      modifies this
      ensures table == Pruned(old(table), now) && DistinctKeys(table)
    {
      PopExpired(now);
      var overflow := |table| - MAX_TOKENS;
      if overflow > 0 {
        PopOldest(overflow);
      }
    }

    method PopExpired(now: real)
      requires DistinctKeys(table)
      modifies this
      ensures table == Unexpired(old(table), now) && DistinctKeys(table)
    {
      var items := table;
      var i := 0;
      SweepEnds(items, now);
      while i < |items|
        invariant 0 <= i <= |items|
        invariant table == Swept(items, i, now) && DistinctKeys(table)
      {
        PopIfExpired(items, i, now);
        i := i + 1;
      }
    }

    /** The body of that loop. */
    method PopIfExpired(items: Table, i: nat, now: real)
      requires i < |items| && DistinctKeys(items)
      requires table == Swept(items, i, now) && DistinctKeys(table)
      modifies this
      ensures table == Swept(items, i + 1, now) && DistinctKeys(table)
    {
      SweepStep(items, i, now);
      if items[i].stamp <= now {
        table := Pop(table, items[i].key);
      }
    }

    method PopOldest(overflow: nat)
      requires DistinctKeys(table) && overflow <= |table|
      modifies this
      ensures table == PopAll(old(table), SortByStamp(old(table))[..overflow]) && DistinctKeys(table)
    {
      var oldest := SortByStamp(table)[..overflow];
      for k := 0 to overflow
        invariant PopAll(old(table), oldest) == PopAll(table, oldest[k..])
        invariant DistinctKeys(table)
      {
        assert oldest[k..][0] == oldest[k] && oldest[k..][1..] == oldest[k+1..];
        PopDistinct(table, oldest[k].key);
        table := Pop(table, oldest[k].key);
      }
    }

    method Store(local: string, token: string, t1: real, t2: real, t3: real)
      requires DistinctKeys(table)
      modifies this
      ensures table == Stored(old(table), local, token, t1, t2, t3) && DistinctKeys(table)
    {
      Prune(t1);
      PutDistinct(table, Item(local, token, t2 + TTL_SECONDS));
      table := Put(table, Item(local, token, t2 + TTL_SECONDS));
      Prune(t3);
    }

    method Resolve(local: string, now: real) returns (token: Option<string>)
      requires DistinctKeys(table)
      modifies this
      ensures token == Resolved(old(table), local, now)
      ensures table == Pruned(old(table), now) && DistinctKeys(table)
    {
      Prune(now);
      var entry := Lookup(table, local);
      token := if entry.None? then None else Some(entry.value.value);
    }

    /** The token field of an interaction as clients see it: an empty one is left alone. */
    method Localize(token: string, name: string, t1: real, t2: real, t3: real) returns (shown: string)
      requires DistinctKeys(table)
      modifies this
      ensures token == "" ==> shown == "" && table == old(table)
      ensures token != "" ==> shown == name && table == Stored(old(table), name, token, t1, t2, t3)
      ensures DistinctKeys(table)
    {
      shown := token;
      if token != "" {
        Store(name, token, t1, t2, t3);
        shown := name;
      }
    }
  }

  /** The table when the first i of its items have been looked at. */
  function Swept(items: Table, i: nat, now: real): Table
    requires i <= |items|
  {
    Unexpired(items[..i], now) + items[i..]
  }

  lemma SweepEnds(items: Table, now: real)
    ensures Swept(items, 0, now) == items && Swept(items, |items|, now) == Unexpired(items, now)
  {
    assert items[..|items|] == items && items[..0] == [];
  }

  lemma UnexpiredOne(e: Item, now: real)
    ensures Unexpired([e], now) == if e.stamp <= now then [] else [e]
  {
    assert [e][1..] == [];
  }

  /** Dropping the item when it has expired, and leaving it otherwise, is one more step. */
  lemma {:induction false} SweepStep(items: Table, i: nat, now: real)
    requires i < |items| && DistinctKeys(items) && DistinctKeys(Swept(items, i, now))
    ensures Swept(items, i + 1, now) ==
            if items[i].stamp <= now then Pop(Swept(items, i, now), items[i].key) else Swept(items, i, now)
    ensures DistinctKeys(Swept(items, i + 1, now))
  {
    var kept, e, after := Unexpired(items[..i], now), items[i], items[i+1..];
    PrefixGrows(items, i);
    assert items[i..] == [e] + after;
    UnexpiredAppend(items[..i], [e], now);
    UnexpiredOne(e, now);
    Associative(kept, [e], after);
    PopDistinct(Swept(items, i, now), e.key);
    if e.stamp <= now {
      UnexpiredMember(items[..i], now);
      PopMiddle(kept, e, after);
      AddNothing(kept);
    }
  }

  lemma {:induction false} UnexpiredAppend(a: Table, b: Table, now: real)
    ensures Unexpired(a + b, now) == Unexpired(a, now) + Unexpired(b, now)
  {
    if a == [] {
      assert a + b == b;
    } else {
      assert a + b == [a[0]] + (a[1..] + b);
      UnexpiredAppend(a[1..], b, now);
    }
  }

  lemma {:induction false} UnexpiredMember(t: Table, now: real)
    ensures forall x :: x in Unexpired(t, now) <==> x in t && x.stamp > now
  {
    if t != [] { UnexpiredMember(t[1..], now); }
  }

  // ----- Runs -----

  datatype Op =
    | StoreOp(local: string, token: string, t1: real, t2: real, t3: real)
    | ResolveOp(local: string, t1: real)

  function Apply(t: Table, op: Op): Table
  {
    match op
    case StoreOp(local, token, t1, t2, t3) => Stored(t, local, token, t1, t2, t3)
    case ResolveOp(_, t1) => Pruned(t, t1)
  }

  /** The table after a run that starts empty; the last operation is the last element. */
  function Run(ops: seq<Op>): Table
  {
    if ops == [] then [] else Apply(Run(ops[..|ops|-1]), ops[|ops|-1])
  }

  /** One more entry of the history: what was stored, with the expiry it was given. */
  ghost function Grow(h: Table, op: Op): Table
  {
    match op
    case StoreOp(local, token, _, t2, _) => h + [Item(local, token, t2 + TTL_SECONDS)]
    case ResolveOp(_, _) => h
  }

  /** Every store of the run, in order. */
  ghost function History(ops: seq<Op>): Table
  {
    if ops == [] then [] else Grow(History(ops[..|ops|-1]), ops[|ops|-1])
  }

  ghost function ClockAfter(op: Op): real
  {
    match op
    case StoreOp(_, _, _, _, t3) => t3
    case ResolveOp(_, t1) => t1
  }

  ghost function LastClock(ops: seq<Op>, start: real): real
  {
    if ops == [] then start else ClockAfter(ops[|ops|-1])
  }

  /** The clock readings of one operation, none earlier than t0. */
  ghost predicate Forward(op: Op, t0: real)
  {
    match op
    case StoreOp(_, _, t1, t2, t3) => t0 <= t1 <= t2 <= t3
    case ResolveOp(_, t1) => t0 <= t1
  }

  /** The clock never goes back, within an operation and from one to the next. */
  ghost predicate Monotonic(ops: seq<Op>, start: real)
  {
    ops == [] ||
    (Monotonic(ops[..|ops|-1], start) && Forward(ops[|ops|-1], LastClock(ops[..|ops|-1], start)))
  }

  ghost predicate FreshNames(ops: seq<Op>)
  {
    DistinctKeys(History(ops))
  }

  function Newest(h: Table): (r: Table)
    ensures |r| <= MAX_TOKENS && |r| <= |h|
  {
    if |h| <= MAX_TOKENS then h else h[|h| - MAX_TOKENS..]
  }

  /** The reference: the unexpired ones among the newest 1024 stores. */
  ghost function Live(h: Table, now: real): Table
  {
    Unexpired(Newest(h), now)
  }

  lemma {:induction false} UnexpiredTwice(t: Table, t0: real, t1: real)
    requires t0 <= t1
    ensures Unexpired(Unexpired(t, t0), t1) == Unexpired(t, t1)
  {
    if t != [] { UnexpiredTwice(t[1..], t0, t1); }
  }

  lemma {:induction false} UnexpiredAscending(t: Table, now: real)
    requires Ascending(t)
    ensures exists k :: 0 <= k <= |t| && Unexpired(t, now) == t[k..]
  {
    if t == [] {
      assert Unexpired(t, now) == t[0..];
    } else if t[0].stamp <= now {
      UnexpiredAscending(t[1..], now);
      var k :| 0 <= k <= |t[1..]| && Unexpired(t[1..], now) == t[1..][k..];
      assert t[1..][k..] == t[k+1..];
    } else {
      UnexpiredAll(t[1..], now);
      assert Unexpired(t, now) == t[0..];
    }
  }

  lemma {:induction false} UnexpiredAll(t: Table, now: real)
    requires forall i :: 0 <= i < |t| ==> t[i].stamp > now
    ensures Unexpired(t, now) == t
  {
    if t != [] { UnexpiredAll(t[1..], now); }
  }

  lemma DropOldest(t: Table, k: nat)
    requires Ascending(t) && k <= |t|
    ensures PopAll(t, SortByStamp(t)[..k]) == t[k..]
  {
    SortAscending(t);
    PopPrefix(t, k);
  }

  lemma UnexpiredIsAscending(t: Table, now: real)
    requires Ascending(t)
    ensures Ascending(Unexpired(t, now))
  {
    UnexpiredAscending(t, now);
    var k :| 0 <= k <= |t| && Unexpired(t, now) == t[k..];
    SuffixAscending(t, k);
  }

  lemma NewestOf(live: Table)
    ensures |live| <= MAX_TOKENS ==> Newest(live) == live
    ensures |live| > MAX_TOKENS ==> Newest(live) == live[|live| - MAX_TOKENS..]
  {
  }

  lemma {:induction false} PruneAscending(t: Table, now: real)
    requires Ascending(t)
    ensures Pruned(t, now) == Newest(Unexpired(t, now))
  {
    var live := Unexpired(t, now);
    UnexpiredIsAscending(t, now);
    NewestOf(live);
    if |live| > MAX_TOKENS { DropOldest(live, |live| - MAX_TOKENS); }
  }

  lemma {:induction false} PruneLive(h: Table, t0: real, t1: real)
    requires Ascending(h) && t0 <= t1
    ensures Pruned(Live(h, t0), t1) == Live(h, t1)
  {
    UnexpiredAscending(Newest(h), t0);
    PruneAscending(Live(h, t0), t1);
    UnexpiredTwice(Newest(h), t0, t1);
  }

  lemma {:induction false} LiveNames(h: Table, e: Item, now: real)
    requires DistinctKeys(h + [e])
    ensures forall x :: x in Live(h, now) ==> x.key != e.key
  {
    UnexpiredMember(Newest(h), now);
    forall x | x in Live(h, now) ensures x.key != e.key {
      assert x in h;
      var i :| 0 <= i < |h| && h[i] == x;
      assert (h + [e])[i] == x && (h + [e])[|h|] == e;
    }
  }

  /** Dropping the first element when one too many are left is what Newest does. */
  lemma {:induction false} DropOne(all: Table, now: real)
    requires Ascending(all) && |all| == MAX_TOKENS + 1
    ensures Newest(Unexpired(all, now)) == Unexpired(all[1..], now)
  {
    if all[0].stamp > now {
      UnexpiredAll(all, now);
      UnexpiredAll(all[1..], now);
    }
  }

  lemma {:induction false} NewestOfAll(h: Table, e: Item, now: real)
    requires Ascending(h + [e])
    ensures Newest(Unexpired(Newest(h) + [e], now)) == Live(h + [e], now)
  {
    if |h| >= MAX_TOKENS {
      var skip := |h| - MAX_TOKENS;
      var all := (h + [e])[skip..];
      assert Newest(h) + [e] == all;
      assert Newest(h + [e]) == all[1..];
      SuffixAscending(h + [e], skip);
      DropOne(all, now);
    }
  }

  lemma SliceAscending(h: Table, e: Item, skip: nat, k: nat)
    requires Ascending(h + [e]) && skip + k <= |h|
    ensures Ascending(h[skip..][k..] + [e])
  {
    assert h[skip..][k..] + [e] == (h + [e])[skip + k..];
    SuffixAscending(h + [e], skip + k);
  }

  lemma NewestIsSuffix(h: Table)
    ensures Newest(h) == h[|h| - |Newest(h)|..]
  {
  }

  lemma {:induction false} LiveSlice(h: Table, now: real) returns (k: nat)
    requires Ascending(h)
    ensures k <= |Newest(h)| && Live(h, now) == h[|h| - |Newest(h)|..][k..]
  {
    var newest := Newest(h);
    NewestIsSuffix(h);
    SuffixAscending(h, |h| - |newest|);
    UnexpiredAscending(newest, now);
    k :| 0 <= k <= |newest| && Unexpired(newest, now) == newest[k..];
  }

  lemma {:induction false} LiveAndNew(h: Table, e: Item, now: real)
    requires Ascending(h + [e])
    ensures Ascending(Live(h, now) + [e])
  {
    PrefixAscending(h, e);
    var k := LiveSlice(h, now);
    SliceAscending(h, e, |h| - |Newest(h)|, k);
  }

  lemma {:induction false} StoreLive(h: Table, e: Item, t1: real, t3: real)
    requires Ascending(h + [e]) && DistinctKeys(h + [e]) && t1 <= t3
    ensures Pruned(Put(Live(h, t1), e), t3) == Live(h + [e], t3)
  {
    LiveNames(h, e, t1);
    PutFresh(Live(h, t1), e);
    LiveAndNew(h, e, t1);
    PruneAscending(Live(h, t1) + [e], t3);
    assert Unexpired(Live(h, t1) + [e], t3) == Unexpired(Newest(h) + [e], t3) by {
      UnexpiredAppend(Live(h, t1), [e], t3);
      UnexpiredTwice(Newest(h), t1, t3);
      UnexpiredAppend(Newest(h), [e], t3);
    }
    NewestOfAll(h, e, t3);
  }

  lemma {:induction false} HistoryAscending(ops: seq<Op>, start: real)
    requires Monotonic(ops, start)
    ensures Ascending(History(ops))
    ensures forall x :: x in History(ops) ==> x.stamp <= LastClock(ops, start) + TTL_SECONDS
  {
    if ops != [] { HistoryAscending(ops[..|ops|-1], start); }
  }

  lemma {:induction false} FreshPrefix(ops: seq<Op>)
    requires ops != [] && FreshNames(ops)
    ensures FreshNames(ops[..|ops|-1])
  {
    var h := History(ops[..|ops|-1]);
    forall i, j | 0 <= i < j < |h| ensures h[i].key != h[j].key {
      assert History(ops)[i] == h[i] && History(ops)[j] == h[j];
    }
  }

  lemma {:induction false} ApplyLive(h: Table, op: Op, t0: real)
    requires Ascending(Grow(h, op)) && DistinctKeys(Grow(h, op)) && Forward(op, t0)
    ensures Apply(Live(h, t0), op) == Live(Grow(h, op), ClockAfter(op))
  {
    match op {
      case StoreOp(local, token, t1, t2, t3) =>
        var e := Item(local, token, t2 + TTL_SECONDS);
        PrefixAscending(h, e);
        PruneLive(h, t0, t1);
        StoreLive(h, e, t1, t3);
      case ResolveOp(_, t1) =>
        PruneLive(h, t0, t1);
    }
  }

  lemma {:induction false} TableIsLive(ops: seq<Op>, start: real)
    requires Monotonic(ops, start) && FreshNames(ops)
    ensures Run(ops) == Live(History(ops), LastClock(ops, start))
  {
    if ops != [] {
      var before := ops[..|ops|-1];
      FreshPrefix(ops);
      TableIsLive(before, start);
      HistoryAscending(ops, start);
      ApplyLive(History(before), ops[|ops|-1], LastClock(before, start));
    }
  }

  /** In every run the table is exactly the unexpired part of the newest 1024 stores. */
  lemma {:induction false} TableRefinesHistory(ops: seq<Op>, start: real)
    requires Monotonic(ops, start) && FreshNames(ops)
    ensures Run(ops) == Live(History(ops), LastClock(ops, start))
    ensures |Run(ops)| <= MAX_TOKENS
    ensures forall e :: e in Run(ops) ==> e.stamp > LastClock(ops, start)
  {
    TableIsLive(ops, start);
    UnexpiredMember(Newest(History(ops)), LastClock(ops, start));
  }

  lemma {:induction false} LiveDistinct(h: Table, now: real)
    requires DistinctKeys(h) && Ascending(h)
    ensures DistinctKeys(Live(h, now))
  {
    UnexpiredAscending(Newest(h), now);
  }

  /** Store number i of the history still answers for its local name at time now. */
  ghost predicate Current(h: Table, i: nat, local: string, now: real)
  {
    i < |h| && |h| - 1 - i < MAX_TOKENS && h[i].key == local && h[i].stamp > now
  }

  lemma {:induction false} LookupCurrent(h: Table, i: nat, local: string, now: real)
    requires DistinctKeys(h) && Ascending(h) && Current(h, i, local, now)
    ensures Lookup(Live(h, now), local) == Some(h[i])
  {
    var n := Newest(h);
    assert h[i] == n[i - (|h| - |n|)];
    UnexpiredMember(n, now);
    LiveDistinct(h, now);
    LookupDistinct(Live(h, now), local);
  }

  lemma LiveIndex(h: Table, x: Item, now: real) returns (i: nat)
    requires x in Live(h, now)
    ensures i < |h| && |h| - 1 - i < MAX_TOKENS && h[i] == x && x.stamp > now
  {
    var n := Newest(h);
    UnexpiredMember(n, now);
    assert x in n;
    var k :| 0 <= k < |n| && n[k] == x;
    i := k + (|h| - |n|);
  }

  lemma {:induction false} LookupFinds(h: Table, local: string, now: real)
    requires DistinctKeys(h) && Ascending(h)
    requires Lookup(Live(h, now), local).Some?
    ensures exists i: nat :: Current(h, i, local, now)
  {
    LiveDistinct(h, now);
    LookupDistinct(Live(h, now), local);
    var i := LiveIndex(h, Lookup(Live(h, now), local).value, now);
    assert Current(h, i, local, now);
  }

  /** A local name resolves to the token of the store that created it exactly while that
      store has not expired and fewer than 1024 stores followed it. */
  lemma {:induction false} ResolveIsExact(ops: seq<Op>, start: real, local: string, now: real)
    requires Monotonic(ops, start) && FreshNames(ops) && LastClock(ops, start) <= now
    ensures forall i: nat :: Current(History(ops), i, local, now)
              ==> Resolved(Run(ops), local, now) == Some(History(ops)[i].value)
    ensures (forall i: nat :: !Current(History(ops), i, local, now)) ==> Resolved(Run(ops), local, now) == None
  {
    var h := History(ops);
    TableRefinesHistory(ops, start);
    HistoryAscending(ops, start);
    PruneLive(h, LastClock(ops, start), now);
    forall i: nat | Current(h, i, local, now)
      ensures Resolved(Run(ops), local, now) == Some(h[i].value)
    {
      LookupCurrent(h, i, local, now);
    }
    if Lookup(Live(h, now), local).Some? { LookupFinds(h, local, now); }
  }
}

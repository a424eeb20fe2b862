/** What a client that is identified throughout hears in any run of polls, cut ones included. */
module Mirror {
  import opened Text
  import opened Discord
  import opened Polling

  /** Which broadcast of a poll raised, and whether the client was served before the peer that closed. */
  datatype Cut = Cut(at: nat, served: bool)

  datatype Poll = Poll(channel: string, page: Page, cut: Option<Cut>)

  datatype History = History(memory: Memory, events: seq<Event>)

  function TraceOf(mem: Memory, p: Poll): seq<Emission>
  {
    Polled(mem, p.channel, p.page).1
  }

  predicate CutShort(mem: Memory, p: Poll)
  {
    p.cut.Some? && p.cut.value.at < |TraceOf(mem, p)|
  }

  /** How many broadcasts of the poll the client hears. */
  function HeardCount(mem: Memory, p: Poll): (n: nat)
    ensures n <= |TraceOf(mem, p)|
  {
    if !CutShort(mem, p) then |TraceOf(mem, p)|
    else if p.cut.value.served then p.cut.value.at + 1
    else p.cut.value.at
  }

  function HeardIn(mem: Memory, p: Poll): seq<Event>
  {
    EventsIn(TraceOf(mem, p)[..HeardCount(mem, p)])
  }

  /** A poll that is cut keeps the cache as it was at the broadcast that raised, and the ids of its channel. */
  function MemoryAfter(mem: Memory, p: Poll): Memory
  {
    if CutShort(mem, p) then Memory(TraceOf(mem, p)[p.cut.value.at].cache, mem.channelIds)
    else Polled(mem, p.channel, p.page).0
  }

  function After(h: History, p: Poll): History
  {
    History(MemoryAfter(h.memory, p), h.events + HeardIn(h.memory, p))
  }

  function RunFrom(h: History, polls: seq<Poll>): History
  {
    if polls == [] then h else After(RunFrom(h, polls[..|polls|-1]), polls[|polls|-1])
  }

  const START := History(Memory(map[], map[]), [])

  /** A run of polls from the empty cache, with every event the client heard. */
  function Run(polls: seq<Poll>): History
  {
    RunFrom(START, polls)
  }

  // ----- The client -----

  /** What a client keeps of every message it knows. */
  type Client = map<string, Compared>

  function Hear(client: Client, e: Event): Client
  {
    match e
    case MessageCreate(id, m) => client[id := ComparedOf(m)]
    case MessageUpdate(id, m) => if id in client then client[id := ComparedOf(m)] else client
    case MessageDelete(id, _, _) => client - {id}
    case _ => client
  }

  function HearAll(client: Client, events: seq<Event>): Client
  {
    if events == [] then client else Hear(HearAll(client, events[..|events|-1]), events[|events|-1])
  }

  ghost function ClientOf(h: History): Client
  {
    HearAll(map[], h.events)
  }

  predicate NeedsMessage(e: Event)
  {
    e.MessageUpdate? || e.ReactionAdd? || e.ReactionRemove?
  }

  /** A CREATE is for an unknown message, everything else about a message for a known one. */
  predicate Fits(client: Client, e: Event)
  {
    && (e.MessageCreate? ==> e.id !in client)
    && (e.MessageDelete? || NeedsMessage(e) ==> e.id in client)
  }

  predicate FitsAll(client: Client, events: seq<Event>)
  {
    events == [] ||
    (FitsAll(client, events[..|events|-1]) && Fits(HearAll(client, events[..|events|-1]), events[|events|-1]))
  }

  lemma {:induction false} HearConcat(client: Client, a: seq<Event>, b: seq<Event>)
    ensures HearAll(client, a + b) == HearAll(HearAll(client, a), b)
    ensures FitsAll(client, a + b) <==> FitsAll(client, a) && FitsAll(HearAll(client, a), b)
  {
    if b == [] {
      assert a + b == a;
    } else {
      HearConcat(client, a, b[..|b|-1]);
      assert (a + b)[..|a + b|-1] == a + b[..|b|-1];
    }
  }

  lemma OneEvent(client: Client, e: Event)
    ensures HearAll(client, [e]) == Hear(client, e) && (FitsAll(client, [e]) <==> Fits(client, e))
  {
    assert [e][..0] == [];
  }

  lemma {:induction false} HearKeys(a: Client, b: Client, events: seq<Event>)
    requires a.Keys == b.Keys
    ensures HearAll(a, events).Keys == HearAll(b, events).Keys
    ensures FitsAll(a, events) <==> FitsAll(b, events)
  {
    if events != [] { HearKeys(a, b, events[..|events|-1]); }
  }

  lemma {:induction false} FitsPrefix(client: Client, events: seq<Event>, k: nat)
    requires FitsAll(client, events) && k <= |events|
    ensures FitsAll(client, events[..k])
    ensures k < |events| ==> Fits(HearAll(client, events[..k]), events[k])
  {
    assert events == events[..k] + events[k..];
    HearConcat(client, events[..k], events[k..]);
    if k < |events| {
      var heard := HearAll(client, events[..k]);
      assert events[k..] == [events[k]] + events[k+1..];
      HearConcat(heard, [events[k]], events[k+1..]);
      OneEvent(heard, events[k]);
    }
  }

  // ----- The cache is what its own broadcasts say -----

  function ViewOf(cache: Cache): Client
  {
    map id | id in cache :: ComparedOf(cache[id].fields)
  }

  lemma ViewKeys(cache: Cache)
    ensures ViewOf(cache).Keys == cache.Keys
  {
  }

  /** A client that knew the cache before knows it at every broadcast, and at the end. */
  ghost predicate Sourced(cache: Cache, next: Outcome)
  {
    && ViewOf(next.cache) == HearAll(ViewOf(cache), EventsIn(next.trace))
    && (forall k :: 0 <= k < |next.trace| ==>
          ViewOf(next.trace[k].cache) == HearAll(ViewOf(cache), EventsIn(next.trace[..k+1])))
  }

  lemma EventsConcat(a: seq<Emission>, b: seq<Emission>)
    ensures EventsIn(a + b) == EventsIn(a) + EventsIn(b)
  {
  }

  lemma Take<T>(a: seq<T>, b: seq<T>, n: nat)
    requires n <= |a + b|
    ensures n <= |a| ==> (a + b)[..n] == a[..n]
    ensures n >= |a| ==> (a + b)[..n] == a + b[..n-|a|]
  {
  }

  lemma EventsPrefix(trace: seq<Emission>, n: nat)
    requires n <= |trace|
    ensures EventsIn(trace[..n]) == EventsIn(trace)[..n]
  {
  }

  lemma EventsTake(a: seq<Emission>, b: seq<Emission>, n: nat)
    requires n <= |a + b|
    ensures n <= |a| ==> EventsIn((a + b)[..n]) == EventsIn(a[..n])
    ensures n >= |a| ==> EventsIn((a + b)[..n]) == EventsIn(a) + EventsIn(b[..n-|a|])
  {
    Take(a, b, n);
    if n >= |a| { EventsConcat(a, b[..n-|a|]); }
  }

  lemma SourcedSecond(cache: Cache, first: Outcome, second: Outcome, j: nat)
    requires Sourced(cache, first) && Sourced(first.cache, second) && j < |second.trace|
    ensures ViewOf(second.trace[j].cache) ==
        HearAll(ViewOf(cache), EventsIn(first.trace) + EventsIn(second.trace[..j+1]))
  {
    HearConcat(ViewOf(cache), EventsIn(first.trace), EventsIn(second.trace[..j+1]));
  }

  lemma TakeOf<T>(t: seq<T>, a: seq<T>, b: seq<T>, k: nat)
    requires t == a + b && k < |t|
    ensures k < |a| ==> t[k] == a[k] && t[..k+1] == a[..k+1]
    ensures k >= |a| ==> t[k] == b[k-|a|] && t[..k+1] == a + b[..k+1-|a|]
  {
  }

  lemma SourcedFirst(cache: Cache, first: Outcome, k: nat)
    requires Sourced(cache, first) && k < |first.trace|
    ensures ViewOf(first.trace[k].cache) == HearAll(ViewOf(cache), EventsIn(first.trace[..k+1]))
  {
  }

  lemma SourcedLater(cache: Cache, first: Outcome, second: Outcome, trace: seq<Emission>, k: nat)
    requires Sourced(cache, first) && Sourced(first.cache, second)
    requires trace == first.trace + second.trace && |first.trace| <= k < |trace|
    ensures ViewOf(trace[k].cache) == HearAll(ViewOf(cache), EventsIn(trace[..k+1]))
  {
    TakeOf(trace, first.trace, second.trace, k);
    EventsConcat(first.trace, second.trace[..k+1-|first.trace|]);
    SourcedSecond(cache, first, second, k - |first.trace|);
  }

  lemma SourcedAt(cache: Cache, first: Outcome, second: Outcome, trace: seq<Emission>, k: nat)
    requires Sourced(cache, first) && Sourced(first.cache, second)
    requires trace == first.trace + second.trace && k < |trace|
    ensures ViewOf(trace[k].cache) == HearAll(ViewOf(cache), EventsIn(trace[..k+1]))
  {
    if k < |first.trace| {
      TakeOf(trace, first.trace, second.trace, k);
      SourcedFirst(cache, first, k);
    } else {
      SourcedLater(cache, first, second, trace, k);
    }
  }

  lemma {:induction false} SourcedThen(cache: Cache, first: Outcome, second: Outcome)
    requires Sourced(cache, first) && Sourced(first.cache, second)
    ensures Sourced(cache, Outcome(second.cache, first.trace + second.trace))
  {
    EventsConcat(first.trace, second.trace);
    HearConcat(ViewOf(cache), EventsIn(first.trace), EventsIn(second.trace));
    var trace := first.trace + second.trace;
    forall k | 0 <= k < |trace| ensures ViewOf(trace[k].cache) == HearAll(ViewOf(cache), EventsIn(trace[..k+1])) {
      SourcedAt(cache, first, second, trace, k);
    }
  }

  ghost predicate Quiet(client: Client, events: seq<Event>)
  {
    forall e :: e in events ==> (e.ReactionAdd? || e.ReactionRemove?) && e.id in client
  }

  lemma {:induction false} QuietFits(client: Client, events: seq<Event>)
    requires Quiet(client, events)
    ensures FitsAll(client, events) && HearAll(client, events) == client
  {
    if events != [] {
      QuietFits(client, events[..|events|-1]);
      assert events[|events|-1] in events;
    }
  }

  /** Reaction events of a known message, all at the same cache. */
  ghost predicate QuietTrace(trace: seq<Emission>, cache: Cache, id: string)
  {
    forall x :: x in trace ==> (x.event.ReactionAdd? || x.event.ReactionRemove?) && x.event.id == id && x.cache == cache
  }

  lemma {:induction false} ReactionsQuiet(was: Reactions, m: Message, n: nat, cache: Cache)
    requires n <= |m.reactions|
    ensures QuietTrace(ReactionDeltas(was, m, n, cache), cache, m.id)
  {
    if n > 0 { ReactionsQuiet(was, m, n - 1, cache); }
  }

  lemma QuietTraceEvents(trace: seq<Emission>, cache: Cache, id: string, client: Client)
    requires QuietTrace(trace, cache, id) && id in client
    ensures Quiet(client, EventsIn(trace))
  {
    forall e | e in EventsIn(trace) ensures (e.ReactionAdd? || e.ReactionRemove?) && e.id in client {
      var i :| 0 <= i < |trace| && EventsIn(trace)[i] == e;
      assert trace[i] in trace;
    }
  }

  lemma {:induction false} QuietSourced(shown: Cache, next: Cache, trace: seq<Emission>, id: string)
    requires QuietTrace(trace, shown, id) && id in shown && ViewOf(next) == ViewOf(shown)
    ensures Sourced(shown, Outcome(next, trace)) && FitsAll(ViewOf(shown), EventsIn(trace))
  {
    QuietTraceEvents(trace, shown, id, ViewOf(shown));
    QuietFits(ViewOf(shown), EventsIn(trace));
    forall k | 0 <= k < |trace| ensures ViewOf(trace[k].cache) == HearAll(ViewOf(shown), EventsIn(trace[..k+1])) {
      assert trace[k] in trace;
      QuietTraceEvents(trace[..k+1], shown, id, ViewOf(shown));
      QuietFits(ViewOf(shown), EventsIn(trace[..k+1]));
    }
  }

  /** A new message, or a changed one before its reactions. */
  lemma ShownSourced(cache: Cache, m: Message, e: Event)
    requires e == (if m.id in cache then MessageUpdate(m.id, m.fields) else MessageCreate(m.id, m.fields))
    ensures Sourced(cache, Outcome(cache[m.id := m], [Emission(e, cache[m.id := m])]))
  {
    var trace := [Emission(e, cache[m.id := m])];
    assert trace[..1] == trace && EventsIn(trace) == [e];
    OneEvent(ViewOf(cache), e);
    assert ViewOf(cache[m.id := m]) == ViewOf(cache)[m.id := ComparedOf(m.fields)];
  }

  lemma NothingSourced(cache: Cache)
    ensures Sourced(cache, Outcome(cache, []))
  {
    assert EventsIn([]) == [];
  }

  lemma {:induction false} KnownSourced(cache: Cache, m: Message)
    requires m.id in cache
    ensures Sourced(cache, Observe(cache, m)) && FitsAll(ViewOf(cache), EventsIn(Observe(cache, m).trace))
  {
    var previous := cache[m.id];
    var changed := ComparedOf(previous.fields) != ComparedOf(m.fields);
    var shown := if changed then cache[m.id := m] else cache;
    var deltas := ReactionDeltas(previous.reactions, m, |m.reactions|, shown);
    var e := MessageUpdate(m.id, m.fields);
    var first: seq<Emission> := if changed then [Emission(e, shown)] else [];
    var next := Observe(cache, m);
    assert ViewOf(next.cache) == ViewOf(shown);
    if changed { ShownSourced(cache, m, e); } else { NothingSourced(cache); }
    ReactionsQuiet(previous.reactions, m, |m.reactions|, shown);
    QuietSourced(shown, next.cache, deltas, m.id);
    SourcedThen(cache, Outcome(shown, first), Outcome(next.cache, deltas));
    EventsConcat(first, deltas);
    assert EventsIn(first) == if changed then [e] else [];
    OneEvent(ViewOf(cache), e);
    HearConcat(ViewOf(cache), EventsIn(first), EventsIn(deltas));
  }

  lemma ObserveSourced(cache: Cache, m: Message)
    ensures Sourced(cache, Observe(cache, m)) && FitsAll(ViewOf(cache), EventsIn(Observe(cache, m).trace))
  {
    if m.id in cache {
      KnownSourced(cache, m);
    } else {
      var e := MessageCreate(m.id, m.fields);
      ShownSourced(cache, m, e);
      assert EventsIn([Emission(e, cache[m.id := m])]) == [e];
      OneEvent(ViewOf(cache), e);
    }
  }

  lemma {:induction false} ObserveAllSourced(cache: Cache, ms: seq<Message>)
    ensures Sourced(cache, ObserveAll(cache, ms)) && FitsAll(ViewOf(cache), EventsIn(ObserveAll(cache, ms).trace))
  {
    if ms == [] {
      NothingSourced(cache);
    } else {
      var before := ObserveAll(cache, ms[..|ms|-1]);
      var last := Observe(before.cache, ms[|ms|-1]);
      ObserveAllSourced(cache, ms[..|ms|-1]);
      ObserveSourced(before.cache, ms[|ms|-1]);
      SourcedThen(cache, before, last);
      EventsConcat(before.trace, last.trace);
      HearConcat(ViewOf(cache), EventsIn(before.trace), EventsIn(last.trace));
    }
  }

  lemma DeleteSourced(cache: Cache, e: Event, id: string)
    requires e.MessageDelete? && e.id == id
    ensures Sourced(cache, Outcome(cache - {id}, [Emission(e, cache - {id})]))
  {
    var trace := [Emission(e, cache - {id})];
    assert trace[..1] == trace && EventsIn(trace) == [e];
    OneEvent(ViewOf(cache), e);
    assert ViewOf(cache - {id}) == ViewOf(cache) - {id};
  }

  lemma {:induction false} DeleteAllSourced(cache: Cache, channel: string, gone: seq<string>)
    ensures Sourced(cache, DeleteAll(cache, channel, gone))
  {
    if gone == [] {
      NothingSourced(cache);
    } else {
      var before := DeleteAll(cache, channel, gone[..|gone|-1]);
      var id := gone[|gone|-1];
      var e := DeleteEvent(before.cache, channel, id);
      var trace := [Emission(e, before.cache - {id})];
      DeleteAllSourced(cache, channel, gone[..|gone|-1]);
      DeleteSourced(before.cache, e, id);
      SourcedThen(cache, before, Outcome(before.cache - {id}, trace));
    }
  }

  lemma PolledSourced(mem: Memory, channel: string, page: Page)
    ensures Sourced(mem.cache, Outcome(Polled(mem, channel, page).0.cache, Polled(mem, channel, page).1))
  {
    if page.None? {
      NothingSourced(mem.cache);
    } else {
      var seen := ObserveAll(mem.cache, Messages(page.value, channel));
      ObserveAllSourced(mem.cache, Messages(page.value, channel));
      DeleteAllSourced(seen.cache, channel, Gone(mem, channel, page.value));
      SourcedThen(mem.cache, seen, DeleteAll(seen.cache, channel, Gone(mem, channel, page.value)));
    }
  }

  // ----- What a poll can tell -----

  /** A CREATE, an UPDATE or a reaction event of one of the messages. */
  ghost predicate About(e: Event, ids: set<string>)
  {
    (e.MessageCreate? || NeedsMessage(e)) && e.id in ids
  }

  lemma ObserveAbout(cache: Cache, m: Message)
    ensures forall x :: x in Observe(cache, m).trace ==> About(x.event, {m.id})
  {
    if m.id in cache {
      var shown := if ComparedOf(cache[m.id].fields) != ComparedOf(m.fields) then cache[m.id := m] else cache;
      var deltas := ReactionDeltas(cache[m.id].reactions, m, |m.reactions|, shown);
      ReactionsQuiet(cache[m.id].reactions, m, |m.reactions|, shown);
      forall x | x in Observe(cache, m).trace ensures About(x.event, {m.id}) {
        if !x.event.MessageUpdate? { assert x in deltas; }
      }
    }
  }

  lemma {:induction false} ObserveAllAbout(cache: Cache, ms: seq<Message>)
    ensures forall x :: x in ObserveAll(cache, ms).trace ==> About(x.event, IdsOf(ms))
  {
    if ms != [] {
      var most, m := ms[..|ms|-1], ms[|ms|-1];
      ObserveAllAbout(cache, most);
      ObserveAbout(ObserveAll(cache, most).cache, m);
      IdsOfMore(most, m);
      assert ms == most + [m];
    }
  }

  lemma {:induction false} DeleteAllEvents(cache: Cache, channel: string, gone: seq<string>)
    ensures |DeleteAll(cache, channel, gone).trace| == |gone|
    ensures forall i :: 0 <= i < |gone| ==>
              var e := DeleteAll(cache, channel, gone).trace[i].event; e.MessageDelete? && e.id == gone[i]
  {
    if gone != [] { DeleteAllEvents(cache, channel, gone[..|gone|-1]); }
  }

  lemma {:induction false} DeleteAllTake(cache: Cache, channel: string, gone: seq<string>, j: nat)
    requires j <= |gone| == |DeleteAll(cache, channel, gone).trace|
    ensures DeleteAll(cache, channel, gone).trace[..j] == DeleteAll(cache, channel, gone[..j]).trace
  {
    if j == |gone| {
      assert gone[..j] == gone;
      assert DeleteAll(cache, channel, gone).trace[..j] == DeleteAll(cache, channel, gone).trace;
    } else {
      var most := gone[..|gone|-1];
      DeleteAllEvents(cache, channel, most);
      DeleteAllTake(cache, channel, most, j);
      assert most[..j] == gone[..j];
    }
  }

  ghost function ToSet<T>(s: seq<T>): set<T>
  {
    set x | x in s
  }

  lemma {:induction false} HearDeletes(client: Client, cache: Cache, channel: string, gone: seq<string>)
    ensures HearAll(client, EventsIn(DeleteAll(cache, channel, gone).trace)) == client - ToSet(gone)
  {
    if gone == [] {
      assert EventsIn([]) == [];
    } else {
      var most, id := gone[..|gone|-1], gone[|gone|-1];
      HearDeletes(client, cache, channel, most);
      LastDelete(client, cache, channel, gone);
      assert ToSet(gone) == ToSet(most) + {id};
    }
  }

  lemma LastDelete(client: Client, cache: Cache, channel: string, gone: seq<string>)
    requires gone != []
    ensures var most, id := gone[..|gone|-1], gone[|gone|-1];
            var before := EventsIn(DeleteAll(cache, channel, most).trace);
            var all := EventsIn(DeleteAll(cache, channel, gone).trace);
            && HearAll(client, all) == HearAll(client, before) - {id}
            && (FitsAll(client, all) <==> FitsAll(client, before) && id in HearAll(client, before))
  {
    var before := DeleteAll(cache, channel, gone[..|gone|-1]);
    var e := DeleteEvent(before.cache, channel, gone[|gone|-1]);
    var last := [Emission(e, before.cache - {gone[|gone|-1]})];
    EventsConcat(before.trace, last);
    assert EventsIn(last) == [e];
    HearConcat(client, EventsIn(before.trace), [e]);
    OneEvent(HearAll(client, EventsIn(before.trace)), e);
  }

  /** Deletes of distinct ids fit exactly when the client knows them all. */
  lemma {:induction false} DeletesFitIff(client: Client, cache: Cache, channel: string, gone: seq<string>)
    requires forall i, j :: 0 <= i < j < |gone| ==> gone[i] != gone[j]
    ensures FitsAll(client, EventsIn(DeleteAll(cache, channel, gone).trace)) <==> ToSet(gone) <= client.Keys
  {
    if gone != [] {
      var most, id := gone[..|gone|-1], gone[|gone|-1];
      DeletesFitIff(client, cache, channel, most);
      HearDeletes(client, cache, channel, most);
      LastDelete(client, cache, channel, gone);
      assert ToSet(gone) == ToSet(most) + {id};
    } else {
      assert EventsIn([]) == [];
    }
  }

  /** The messages of the page that a poll looks at. */
  function PageMessages(p: Poll): seq<Message>
  {
    if p.page.None? then [] else Messages(p.page.value, p.channel)
  }

  function PageIds(p: Poll): set<string>
  {
    IdsOf(PageMessages(p))
  }

  /** The ids that a poll reports deleted if it is not cut. */
  function GoneIn(mem: Memory, p: Poll): seq<string>
  {
    if p.page.None? then [] else Gone(mem, p.channel, p.page.value)
  }

  function Seen(mem: Memory, p: Poll): Outcome
  {
    ObserveAll(mem.cache, PageMessages(p))
  }

  lemma GoneProperties(mem: Memory, p: Poll)
    ensures forall i, j :: 0 <= i < j < |GoneIn(mem, p)| ==> GoneIn(mem, p)[i] != GoneIn(mem, p)[j]
    ensures forall id :: id in GoneIn(mem, p) ==> id in SeenIn(mem, p.channel) && id !in PageIds(p)
  {
  }

  lemma TraceWhole(mem: Memory, p: Poll)
    ensures var seen, gone := Seen(mem, p), GoneIn(mem, p);
            var after := DeleteAll(seen.cache, p.channel, gone);
            TraceOf(mem, p) == seen.trace + after.trace && |after.trace| == |gone|
  {
    DeleteAllEvents(Seen(mem, p).cache, p.channel, GoneIn(mem, p));
  }

  /** What is heard of a poll that is not cut before its deletes. */
  function WithDeletes(mem: Memory, p: Poll, j: nat): seq<Event>
    requires j <= |GoneIn(mem, p)|
  {
    var seen := Seen(mem, p);
    EventsIn(seen.trace) + EventsIn(DeleteAll(seen.cache, p.channel, GoneIn(mem, p)[..j]).trace)
  }

  lemma DeletesOf(trace: seq<Emission>, seen: seq<Emission>, deletes: seq<Emission>, some: seq<Emission>, j: nat)
    requires trace == seen + deletes && j <= |deletes| && deletes[..j] == some
    ensures EventsIn(trace[..|seen| + j]) == EventsIn(seen) + EventsIn(some)
  {
    EventsTake(seen, deletes, |seen| + j);
  }

  lemma DeletesTaken(trace: seq<Emission>, seen: Outcome, channel: string, gone: seq<string>, j: nat)
    requires trace == seen.trace + DeleteAll(seen.cache, channel, gone).trace
    requires j <= |gone| == |DeleteAll(seen.cache, channel, gone).trace|
    ensures |seen.trace| + j <= |trace|
    ensures EventsIn(trace[..|seen.trace| + j]) ==
            EventsIn(seen.trace) + EventsIn(DeleteAll(seen.cache, channel, gone[..j]).trace)
  {
    DeleteAllTake(seen.cache, channel, gone, j);
    DeletesOf(trace, seen.trace, DeleteAll(seen.cache, channel, gone).trace,
              DeleteAll(seen.cache, channel, gone[..j]).trace, j);
  }

  lemma TraceDeletes(mem: Memory, p: Poll, j: nat)
    requires j <= |GoneIn(mem, p)|
    ensures |Seen(mem, p).trace| + j <= |TraceOf(mem, p)|
    ensures EventsIn(TraceOf(mem, p)[..|Seen(mem, p).trace| + j]) == WithDeletes(mem, p, j)
  {
    TraceWhole(mem, p);
    DeletesTaken(TraceOf(mem, p), Seen(mem, p), p.channel, GoneIn(mem, p), j);
  }

  lemma TakeFirst<T>(t: seq<T>, a: seq<T>, b: seq<T>, n: nat)
    requires t == a + b && n <= |a|
    ensures t[..n] == a[..n]
  {
  }

  lemma TraceSeen(mem: Memory, p: Poll, n: nat)
    requires n <= |Seen(mem, p).trace|
    ensures n <= |TraceOf(mem, p)| && TraceOf(mem, p)[..n] == Seen(mem, p).trace[..n]
  {
    var seen := Seen(mem, p);
    TraceWhole(mem, p);
    TakeFirst(TraceOf(mem, p), seen.trace, DeleteAll(seen.cache, p.channel, GoneIn(mem, p)).trace, n);
  }

  lemma TraceSize(mem: Memory, p: Poll)
    ensures |TraceOf(mem, p)| == |Seen(mem, p).trace| + |GoneIn(mem, p)|
  {
    TraceWhole(mem, p);
  }

  /** The ids of the DELETE events, in any order. */
  function DeletedIn(events: seq<Event>): set<string>
  {
    set e | e in events && e.MessageDelete? :: e.id
  }

  ghost predicate NoDeletes(events: seq<Event>)
  {
    forall e :: e in events ==> !e.MessageDelete?
  }

  lemma NoneDeleted(cache: Cache, ms: seq<Message>, n: nat)
    requires n <= |ObserveAll(cache, ms).trace|
    ensures NoDeletes(EventsIn(ObserveAll(cache, ms).trace[..n]))
    ensures DeletedIn(EventsIn(ObserveAll(cache, ms).trace[..n])) == {}
  {
    ObserveAllAbout(cache, ms);
    var trace := ObserveAll(cache, ms).trace;
    forall e | e in EventsIn(trace[..n]) ensures !e.MessageDelete? {
      var i :| 0 <= i < n && EventsIn(trace[..n])[i] == e;
      assert trace[i] in trace;
    }
  }

  lemma AllDeleted(cache: Cache, channel: string, gone: seq<string>)
    ensures DeletedIn(EventsIn(DeleteAll(cache, channel, gone).trace)) == ToSet(gone)
  {
    DeleteAllEvents(cache, channel, gone);
    var events := EventsIn(DeleteAll(cache, channel, gone).trace);
    forall id | id in gone ensures id in DeletedIn(events) {
      var i :| 0 <= i < |gone| && gone[i] == id;
      assert events[i] in events;
    }
  }

  lemma DeletedConcat(a: seq<Event>, b: seq<Event>)
    ensures DeletedIn(a + b) == DeletedIn(a) + DeletedIn(b)
  {
  }

  lemma ObserveKeys(cache: Cache, m: Message)
    ensures Observe(cache, m).cache.Keys == cache.Keys + {m.id}
  {
  }

  lemma {:induction false} ObserveAllKeys(cache: Cache, ms: seq<Message>)
    ensures ObserveAll(cache, ms).cache.Keys == cache.Keys + IdsOf(ms)
  {
    if ms == [] {
    } else {
      var most, m := ms[..|ms|-1], ms[|ms|-1];
      ObserveAllKeys(cache, most);
      ObserveKeys(ObserveAll(cache, most).cache, m);
      IdsOfMore(most, m);
      SplitLast(ms);
    }
  }

  lemma ObservedFits(client: Client, mem: Memory, p: Poll)
    requires client.Keys == mem.cache.Keys
    ensures var observed := EventsIn(Seen(mem, p).trace);
            && FitsAll(client, observed)
            && HearAll(client, observed).Keys == mem.cache.Keys + PageIds(p)
            && DeletedIn(observed) == {}
  {
    var ms := PageMessages(p);
    var seen := Seen(mem, p);
    ObserveAllSourced(mem.cache, ms);
    HearKeys(client, ViewOf(mem.cache), EventsIn(seen.trace));
    ObserveAllKeys(mem.cache, ms);
    assert seen.trace[..|seen.trace|] == seen.trace;
    NoneDeleted(mem.cache, ms, |seen.trace|);
    ViewKeys(seen.cache);
  }

  lemma SplitFits(client: Client, a: seq<Event>, b: seq<Event>, known: set<string>, page: set<string>,
                  gone: set<string>)
    requires FitsAll(client, a) && HearAll(client, a).Keys == known + page
    requires DeletedIn(a) == {} && DeletedIn(b) == gone && gone !! page
    requires FitsAll(HearAll(client, a), b) <==> gone <= known + page
    ensures FitsAll(client, a + b) <==> DeletedIn(a + b) <= known
  {
    HearConcat(client, a, b);
    DeletedConcat(a, b);
  }

  lemma GonePrefix(mem: Memory, p: Poll, j: nat)
    requires j <= |GoneIn(mem, p)|
    ensures var gone := GoneIn(mem, p)[..j];
            && (forall i, k :: 0 <= i < k < |gone| ==> gone[i] != gone[k])
            && ToSet(gone) !! PageIds(p) && ToSet(gone) <= SeenIn(mem, p.channel)
  {
    GoneProperties(mem, p);
    assert forall id :: id in GoneIn(mem, p)[..j] ==> id in GoneIn(mem, p);
  }

  lemma WithDeletesFitIff(client: Client, mem: Memory, p: Poll, j: nat)
    requires client.Keys == mem.cache.Keys && j <= |GoneIn(mem, p)|
    ensures FitsAll(client, WithDeletes(mem, p, j)) <==> DeletedIn(WithDeletes(mem, p, j)) <= mem.cache.Keys
  {
    var cache, gone := Seen(mem, p).cache, GoneIn(mem, p)[..j];
    var observed, deletes := EventsIn(Seen(mem, p).trace), EventsIn(DeleteAll(cache, p.channel, gone).trace);
    ObservedFits(client, mem, p);
    AllDeleted(cache, p.channel, gone);
    GonePrefix(mem, p, j);
    DeletesFitIff(HearAll(client, observed), cache, p.channel, gone);
    SplitFits(client, observed, deletes, mem.cache.Keys, PageIds(p), ToSet(gone));
  }

  lemma ObservedPrefixFits(client: Client, mem: Memory, p: Poll, n: nat)
    requires client.Keys == mem.cache.Keys && n <= |Seen(mem, p).trace|
    ensures FitsAll(client, EventsIn(Seen(mem, p).trace[..n])) && DeletedIn(EventsIn(Seen(mem, p).trace[..n])) == {}
  {
    var trace := Seen(mem, p).trace;
    NoneDeleted(mem.cache, PageMessages(p), n);
    ObservedFits(client, mem, p);
    EventsPrefix(trace, n);
    FitsPrefix(client, EventsIn(trace), n);
  }

  lemma CutInPageFits(client: Client, mem: Memory, p: Poll)
    requires client.Keys == mem.cache.Keys && HeardCount(mem, p) <= |Seen(mem, p).trace|
    ensures FitsAll(client, HeardIn(mem, p)) && DeletedIn(HeardIn(mem, p)) == {}
  {
    TraceSeen(mem, p, HeardCount(mem, p));
    ObservedPrefixFits(client, mem, p, HeardCount(mem, p));
  }

  lemma HeardFirst(mem: Memory, p: Poll, n: nat)
    requires HeardCount(mem, p) == n
    ensures n <= |TraceOf(mem, p)| && HeardIn(mem, p) == EventsIn(TraceOf(mem, p)[..n])
  {
  }

  lemma HeardGone(mem: Memory, p: Poll, j: nat)
    requires HeardCount(mem, p) == |Seen(mem, p).trace| + j
    ensures j <= |GoneIn(mem, p)|
  {
    TraceSize(mem, p);
    HeardFirst(mem, p, |Seen(mem, p).trace| + j);
  }

  lemma HeardDeletes(mem: Memory, p: Poll, j: nat)
    requires HeardCount(mem, p) == |Seen(mem, p).trace| + j && j <= |GoneIn(mem, p)|
    ensures HeardIn(mem, p) == WithDeletes(mem, p, j)
  {
    HeardFirst(mem, p, |Seen(mem, p).trace| + j);
    TraceDeletes(mem, p, j);
  }

  /** To a client that knows the same messages, a poll fits, cut or not, exactly when every
      message it reports deleted is in the cache. */
  lemma PollFitsIff(client: Client, mem: Memory, p: Poll)
    requires client.Keys == mem.cache.Keys
    ensures FitsAll(client, HeardIn(mem, p)) <==> DeletedIn(HeardIn(mem, p)) <= mem.cache.Keys
  {
    if HeardCount(mem, p) <= |Seen(mem, p).trace| {
      CutInPageFits(client, mem, p);
    } else {
      var j: nat := HeardCount(mem, p) - |Seen(mem, p).trace|;
      HeardGone(mem, p, j);
      HeardDeletes(mem, p, j);
      WithDeletesFitIff(client, mem, p, j);
    }
  }

  // ----- Runs -----

  /** The broadcast that raised before the client was served, if there is one. */
  function Unserved(mem: Memory, p: Poll): Option<Event>
  {
    if CutShort(mem, p) && !p.cut.value.served then Some(TraceOf(mem, p)[p.cut.value.at].event) else None
  }

  lemma OneMoreHeard(client: Client, trace: seq<Emission>, n: nat)
    requires n < |trace|
    ensures HearAll(client, EventsIn(trace[..n+1])) == Hear(HearAll(client, EventsIn(trace[..n])), trace[n].event)
  {
    assert trace[..n+1] == trace[..n] + [trace[n]];
    EventsConcat(trace[..n], [trace[n]]);
    assert EventsIn([trace[n]]) == [trace[n].event];
    HearConcat(client, EventsIn(trace[..n]), [trace[n].event]);
    OneEvent(HearAll(client, EventsIn(trace[..n])), trace[n].event);
  }

  lemma ViewAtEnd(mem: Memory, p: Poll)
    requires !CutShort(mem, p)
    ensures ViewOf(MemoryAfter(mem, p).cache) == HearAll(ViewOf(mem.cache), HeardIn(mem, p))
  {
    PolledSourced(mem, p.channel, p.page);
    assert TraceOf(mem, p)[..|TraceOf(mem, p)|] == TraceOf(mem, p);
  }

  lemma ViewAtCut(mem: Memory, p: Poll)
    requires CutShort(mem, p)
    ensures ViewOf(MemoryAfter(mem, p).cache) ==
            HearAll(ViewOf(mem.cache), EventsIn(TraceOf(mem, p)[..p.cut.value.at+1]))
  {
    PolledSourced(mem, p.channel, p.page);
  }

  /** The cache afterwards is what the client heard, and the unserved broadcast. */
  lemma MemoryView(mem: Memory, p: Poll)
    ensures var heard := HearAll(ViewOf(mem.cache), HeardIn(mem, p));
            ViewOf(MemoryAfter(mem, p).cache) ==
              if Unserved(mem, p).Some? then Hear(heard, Unserved(mem, p).value) else heard
  {
    if !CutShort(mem, p) {
      ViewAtEnd(mem, p);
    } else {
      ViewAtCut(mem, p);
      OneMoreHeard(ViewOf(mem.cache), TraceOf(mem, p), p.cut.value.at);
    }
  }

  /** No create or delete goes past the client. */
  ghost predicate KeysHeard(mem: Memory, p: Poll)
  {
    Unserved(mem, p).Some? ==> NeedsMessage(Unserved(mem, p).value)
  }

  ghost predicate KeysHeardAll(polls: seq<Poll>)
  {
    polls == [] ||
    (KeysHeardAll(polls[..|polls|-1]) && KeysHeard(Run(polls[..|polls|-1]).memory, polls[|polls|-1]))
  }

  /** Every message the poll reports deleted is in the cache. */
  ghost predicate DeletesKnown(mem: Memory, p: Poll)
  {
    DeletedIn(HeardIn(mem, p)) <= mem.cache.Keys
  }

  ghost predicate DeletesKnownAll(polls: seq<Poll>)
  {
    polls == [] ||
    (DeletesKnownAll(polls[..|polls|-1]) && DeletesKnown(Run(polls[..|polls|-1]).memory, polls[|polls|-1]))
  }

  ghost predicate ServedAll(polls: seq<Poll>)
  {
    polls == [] ||
    (ServedAll(polls[..|polls|-1]) && Unserved(Run(polls[..|polls|-1]).memory, polls[|polls|-1]).None?)
  }

  lemma PollKeys(client: Client, mem: Memory, p: Poll)
    requires client.Keys == mem.cache.Keys && KeysHeard(mem, p)
    ensures HearAll(client, HeardIn(mem, p)).Keys == MemoryAfter(mem, p).cache.Keys
  {
    MemoryView(mem, p);
    HearKeys(client, ViewOf(mem.cache), HeardIn(mem, p));
    ViewKeys(mem.cache);
    ViewKeys(MemoryAfter(mem, p).cache);
  }

  lemma {:induction false} AfterFitsIff(h: History, p: Poll)
    requires ClientOf(h).Keys == h.memory.cache.Keys && KeysHeard(h.memory, p)
    ensures ClientOf(After(h, p)).Keys == After(h, p).memory.cache.Keys
    ensures FitsAll(map[], After(h, p).events) <==> FitsAll(map[], h.events) && DeletesKnown(h.memory, p)
  {
    HearConcat(map[], h.events, HeardIn(h.memory, p));
    PollKeys(ClientOf(h), h.memory, p);
    PollFitsIff(ClientOf(h), h.memory, p);
  }

  /** In any run in which no create or delete goes past the client, whether or not channels
      share messages, the client knows the ids in the cache, and the events fit if and only if
      every poll reports only cached messages deleted. */
  lemma {:induction false} EventsFitIff(polls: seq<Poll>)
    requires KeysHeardAll(polls)
    ensures ClientOf(Run(polls)).Keys == Run(polls).memory.cache.Keys
    ensures FitsAll(map[], Run(polls).events) <==> DeletesKnownAll(polls)
  {
    if polls != [] {
      EventsFitIff(polls[..|polls|-1]);
      AfterFitsIff(Run(polls[..|polls|-1]), polls[|polls|-1]);
    }
  }

  /** When nothing goes past the client, it and the cache agree on the ids and the compared fields. */
  lemma {:induction false} ClientIsCacheView(polls: seq<Poll>)
    requires ServedAll(polls)
    ensures ClientOf(Run(polls)) == ViewOf(Run(polls).memory.cache)
  {
    if polls != [] {
      var before, p := polls[..|polls|-1], polls[|polls|-1];
      ClientIsCacheView(before);
      MemoryView(Run(before).memory, p);
      HearConcat(map[], Run(before).events, HeardIn(Run(before).memory, p));
    }
  }
}

/** How a client's messages follow the last pages of the channels. */
module LastPages {
  import opened Text
  import opened Discord
  import opened Polling
  import opened Mirror
  import opened Grammar

  // ----- What a page does to the client -----

  /** The client has what the view has of one message. */
  predicate Covers(client: Client, view: Client, id: string)
  {
    id in view ==> id in client && client[id] == view[id]
  }

  lemma {:induction false} CoversHear(client: Client, view: Client, events: seq<Event>, id: string)
    requires Covers(client, view, id)
    ensures Covers(HearAll(client, events), HearAll(view, events), id)
  {
    if events != [] { CoversHear(client, view, events[..|events|-1], id); }
  }

  predicate Mentions(e: Event, id: string)
  {
    (e.MessageCreate? || e.MessageUpdate? || e.MessageDelete?) && e.id == id
  }

  lemma {:induction false} Unmentioned(client: Client, events: seq<Event>, id: string)
    requires forall e :: e in events ==> !Mentions(e, id)
    ensures id in HearAll(client, events) <==> id in client
    ensures id in client ==> HearAll(client, events)[id] == client[id]
  {
    if events != [] {
      assert events[|events|-1] in events;
      Unmentioned(client, events[..|events|-1], id);
    }
  }

  /** The ids of the CREATE events, in any order. */
  function CreatedIn(events: seq<Event>): set<string>
  {
    set e | e in events && e.MessageCreate? :: e.id
  }

  lemma {:induction false} OnlyCreated(client: Client, events: seq<Event>)
    ensures HearAll(client, events).Keys <= client.Keys + CreatedIn(events)
  {
    if events != [] {
      assert events[|events|-1] in events;
      OnlyCreated(client, events[..|events|-1]);
    }
  }

  lemma {:induction false} CreatedStays(client: Client, events: seq<Event>, id: string)
    requires id in CreatedIn(events) && id !in DeletedIn(events)
    ensures id in HearAll(client, events)
  {
    var most, e := events[..|events|-1], events[|events|-1];
    assert e in events;
    if !(e.MessageCreate? && e.id == id) {
      var c :| c in events && c.MessageCreate? && c.id == id;
      assert c in most;
      assert forall d :: d in most ==> d in events;
      CreatedStays(client, most, id);
    }
  }

  /** The last of the observed messages with the given id: the first such entry of the page. */
  function LastWith(ms: seq<Message>, id: string): Option<Message>
  {
    if ms == [] then None
    else if ms[|ms|-1].id == id then Some(ms[|ms|-1])
    else LastWith(ms[..|ms|-1], id)
  }

  lemma ObserveView(cache: Cache, m: Message)
    ensures ViewOf(Observe(cache, m).cache) == ViewOf(cache)[m.id := ComparedOf(m.fields)]
  {
  }

  /** After a page the cache has the entry it saw last, and keeps what it did not see. */
  lemma {:induction false} ObserveAllView(cache: Cache, ms: seq<Message>, id: string)
    ensures id in IdsOf(ms) <==> LastWith(ms, id).Some?
    ensures var view := ViewOf(ObserveAll(cache, ms).cache);
            if LastWith(ms, id).Some? then id in view && view[id] == ComparedOf(LastWith(ms, id).value.fields)
            else (id in view <==> id in cache) && (id in cache ==> view[id] == ViewOf(cache)[id])
  {
    if ms != [] {
      var most, m := ms[..|ms|-1], ms[|ms|-1];
      ObserveAllView(cache, most, id);
      ObserveView(ObserveAll(cache, most).cache, m);
      SplitLast(ms);
      IdsOfMore(most, m);
    }
  }

  /** Observing a page creates exactly its messages that were not cached. */
  lemma {:induction false} ObserveAllCreates(client: Client, cache: Cache, ms: seq<Message>)
    ensures HearAll(client, EventsIn(ObserveAll(cache, ms).trace)).Keys == client.Keys + (IdsOf(ms) - cache.Keys)
  {
    if ms == [] {
      assert EventsIn([]) == [];
    } else {
      var most, m := ms[..|ms|-1], ms[|ms|-1];
      var before := ObserveAll(cache, most);
      ObserveAllCreates(client, cache, most);
      ObserveAllKeys(cache, most);
      ObserveCreates(HearAll(client, EventsIn(before.trace)), before.cache, m);
      EventsConcat(before.trace, Observe(before.cache, m).trace);
      HearConcat(client, EventsIn(before.trace), EventsIn(Observe(before.cache, m).trace));
      SplitLast(ms);
      IdsOfMore(most, m);
      MoreCreated(client.Keys, cache.Keys, IdsOf(most), m.id);
    }
  }

  lemma MoreCreated(held: set<string>, cached: set<string>, ids: set<string>, id: string)
    ensures held + (ids - cached) + ({id} - (cached + ids)) == held + (ids + {id} - cached)
  {
  }

  lemma ObserveCreates(client: Client, cache: Cache, m: Message)
    ensures HearAll(client, EventsIn(Observe(cache, m).trace)).Keys == client.Keys + ({m.id} - cache.Keys)
  {
    var events := EventsIn(Observe(cache, m).trace);
    if m.id in cache {
      var x := Observe(cache, m).trace;
      ObserveAbout(cache, m);
      forall e | e in events ensures NeedsMessage(e) {
        var i :| 0 <= i < |events| && events[i] == e;
        assert x[i] in x && e == x[i].event;
        KnownHasNoCreate(cache, m, i);
      }
      NoCreatesKeys(client, events);
    } else {
      assert events == [MessageCreate(m.id, m.fields)];
      OneEvent(client, events[0]);
    }
  }

  lemma KnownHasNoCreate(cache: Cache, m: Message, i: nat)
    requires m.id in cache && i < |Observe(cache, m).trace|
    ensures NeedsMessage(Observe(cache, m).trace[i].event)
  {
    var shown := if ComparedOf(cache[m.id].fields) != ComparedOf(m.fields) then cache[m.id := m] else cache;
    var deltas := ReactionDeltas(cache[m.id].reactions, m, |m.reactions|, shown);
    ReactionsQuiet(cache[m.id].reactions, m, |m.reactions|, shown);
    var x := Observe(cache, m).trace[i];
    if !x.event.MessageUpdate? { assert x in deltas; }
  }

  lemma {:induction false} NoCreatesKeys(client: Client, events: seq<Event>)
    requires forall e :: e in events ==> NeedsMessage(e)
    ensures HearAll(client, events).Keys == client.Keys
  {
    if events != [] {
      assert events[|events|-1] in events;
      NoCreatesKeys(client, events[..|events|-1]);
    }
  }

  /** What the client has after a poll that was not cut. */
  lemma ClientAfterPage(client: Client, mem: Memory, p: Poll)
    requires !CutShort(mem, p)
    ensures HearAll(client, HeardIn(mem, p)).Keys ==
              client.Keys + (PageIds(p) - mem.cache.Keys) - ToSet(GoneIn(mem, p))
  {
    var seen, gone := Seen(mem, p), GoneIn(mem, p);
    var observed, deletes := EventsIn(seen.trace), DeleteAll(seen.cache, p.channel, gone).trace;
    TraceWhole(mem, p);
    assert TraceOf(mem, p)[..|TraceOf(mem, p)|] == seen.trace + deletes;
    EventsConcat(seen.trace, deletes);
    HearConcat(client, observed, EventsIn(deletes));
    ObserveAllCreates(client, mem.cache, PageMessages(p));
    HearDeletes(HearAll(client, observed), seen.cache, p.channel, gone);
  }

  /** What the cache has for a message of the page afterwards. */
  lemma ViewAfterPage(mem: Memory, p: Poll, id: string)
    requires !CutShort(mem, p) && id in PageIds(p)
    ensures LastWith(PageMessages(p), id).Some?
    ensures var view := ViewOf(MemoryAfter(mem, p).cache);
            id in view && view[id] == ComparedOf(LastWith(PageMessages(p), id).value.fields)
  {
    var seen, gone := Seen(mem, p), GoneIn(mem, p);
    ObserveAllView(mem.cache, PageMessages(p), id);
    DeleteAllSourced(seen.cache, p.channel, gone);
    HearDeletes(ViewOf(seen.cache), seen.cache, p.channel, gone);
    GoneProperties(mem, p);
  }

  // ----- The condition for following the next page -----

  /** Everything cached of the channel was heard. */
  ghost predicate CacheHeard(client: Client, cache: Cache, owner: string -> string, channel: string)
  {
    forall id :: id in cache && owner(id) == channel ==> id in client && client[id] == ComparedOf(cache[id].fields)
  }

  /** Everything held of the channel is among its known ids. */
  ghost predicate HeldSeen(client: Client, mem: Memory, owner: string -> string, channel: string)
  {
    forall id :: id in client && owner(id) == channel ==> id in SeenIn(mem, channel)
  }

  ghost predicate InTouch(h: History, owner: string -> string, channel: string)
  {
    CacheHeard(ClientOf(h), h.memory.cache, owner, channel) && HeldSeen(ClientOf(h), h.memory, owner, channel)
  }

  /** Of the channel the client holds exactly the messages, as the last of each id is. */
  ghost predicate Shows(client: Client, owner: string -> string, channel: string, ms: seq<Message>)
  {
    forall id :: owner(id) == channel ==> ShowsAt(client, ms, id)
  }

  ghost predicate ShowsAt(client: Client, ms: seq<Message>, id: string)
  {
    && (id in client <==> id in IdsOf(ms))
    && (id in client ==> LastWith(ms, id).Some? && client[id] == ComparedOf(LastWith(ms, id).value.fields))
  }

  lemma CoversAfter(h: History, p: Poll, id: string)
    requires Unserved(h.memory, p).None? && Covers(ClientOf(h), ViewOf(h.memory.cache), id)
    ensures Covers(ClientOf(After(h, p)), ViewOf(After(h, p).memory.cache), id)
  {
    MemoryView(h.memory, p);
    HearConcat(map[], h.events, HeardIn(h.memory, p));
    CoversHear(ClientOf(h), ViewOf(h.memory.cache), HeardIn(h.memory, p), id);
  }

  ghost predicate ShortPage(p: Poll)
  {
    p.page.Some? && |p.page.value| < PAGE_LIMIT
  }

  lemma ShortGone(mem: Memory, p: Poll)
    requires ShortPage(p)
    ensures ToSet(GoneIn(mem, p)) == SeenIn(mem, p.channel) - PageIds(p)
  {
  }

  lemma HeldAfterPage(h: History, p: Poll, owner: string -> string, id: string)
    requires HeldSeen(ClientOf(h), h.memory, owner, p.channel) && ShortPage(p) && !CutShort(h.memory, p)
    requires owner(id) == p.channel
    ensures id in ClientOf(After(h, p)) ==> id in PageIds(p)
  {
    HearConcat(map[], h.events, HeardIn(h.memory, p));
    ClientAfterPage(ClientOf(h), h.memory, p);
    ShortGone(h.memory, p);
    if id in ClientOf(h) { assert id in SeenIn(h.memory, p.channel); }
  }

  lemma ShowsPageAt(h: History, p: Poll, owner: string -> string, id: string)
    requires InTouch(h, owner, p.channel) && ShortPage(p) && !CutShort(h.memory, p) && owner(id) == p.channel
    ensures ShowsAt(ClientOf(After(h, p)), PageMessages(p), id)
  {
    HeldAfterPage(h, p, owner, id);
    if id in PageIds(p) {
      ViewAfterPage(h.memory, p, id);
      ViewKeys(h.memory.cache);
      CoversAfter(h, p, id);
    }
  }

  lemma PageShows(h: History, p: Poll, owner: string -> string)
    requires InTouch(h, owner, p.channel) && ShortPage(p) && !CutShort(h.memory, p)
    ensures Shows(ClientOf(After(h, p)), owner, p.channel, PageMessages(p))
  {
    forall id | owner(id) == p.channel ensures ShowsAt(ClientOf(After(h, p)), PageMessages(p), id) {
      ShowsPageAt(h, p, owner, id);
    }
  }

  /** The next page, when it has messages of this channel only, shows on the client. */
  ghost predicate NextShows(h: History, owner: string -> string, channel: string, entries: seq<RawEntry>)
  {
    var p := Poll(channel, Some(entries), None);
    |entries| < PAGE_LIMIT && Unshared([p], owner) ==> Shows(ClientOf(After(h, p)), owner, channel, PageMessages(p))
  }

  lemma EmptyPageClient(h: History, channel: string)
    ensures ClientOf(After(h, Poll(channel, Some([]), None))).Keys == ClientOf(h).Keys - SeenIn(h.memory, channel)
    ensures PageMessages(Poll(channel, Some([]), None)) == [] && PageIds(Poll(channel, Some([]), None)) == {}
  {
    var p := Poll(channel, Some([]), None);
    HearConcat(map[], h.events, HeardIn(h.memory, p));
    ClientAfterPage(ClientOf(h), h.memory, p);
    assert PageMessages(p) == [] && PageIds(p) == {};
    ShortGone(h.memory, p);
  }

  /** Something held that the channel does not know of: an empty page leaves it. */
  lemma UnseenStays(h: History, owner: string -> string, channel: string, id: string)
    requires id in ClientOf(h) && owner(id) == channel && id !in SeenIn(h.memory, channel)
    ensures !NextShows(h, owner, channel, [])
  {
    EmptyPageClient(h, channel);
    var p := Poll(channel, Some([]), None);
    assert !ShowsAt(ClientOf(After(h, p)), PageMessages(p), id);
  }

  lemma EntryObserved(cache: Cache, channel: string, id: string)
    requires id in cache
    ensures Observe(cache, Normalize(Entry(id, ComparedOf(cache[id].fields)), channel)).trace == []
  {
    EntryCompared(id, ComparedOf(cache[id].fields), channel);
  }

  lemma SilentPage(client: Client, mem: Memory, channel: string, id: string)
    requires id in mem.cache && id != ""
    ensures var p := PageOf(channel, Entry(id, ComparedOf(mem.cache[id].fields)));
            HearAll(client, HeardIn(mem, p)) == client - ToSet(GoneIn(mem, p))
  {
    var e := Entry(id, ComparedOf(mem.cache[id].fields));
    var p := PageOf(channel, e);
    OneMessage(e, channel);
    ObserveOne(mem.cache, Normalize(e, channel));
    EntryObserved(mem.cache, channel, id);
    var seen, gone := Seen(mem, p), GoneIn(mem, p);
    TraceWhole(mem, p);
    assert TraceOf(mem, p)[..|TraceOf(mem, p)|] == DeleteAll(seen.cache, channel, gone).trace;
    HearDeletes(client, seen.cache, channel, gone);
  }

  /** Something cached that was not heard as it is: a page with just that stays silent about it. */
  lemma UnheardStays(h: History, owner: string -> string, channel: string, id: string)
    requires id in h.memory.cache && owner(id) == channel && id != ""
    requires !(id in ClientOf(h) && ClientOf(h)[id] == ComparedOf(h.memory.cache[id].fields))
    ensures !NextShows(h, owner, channel, [Entry(id, ComparedOf(h.memory.cache[id].fields))])
  {
    var e := Entry(id, ComparedOf(h.memory.cache[id].fields));
    var p := PageOf(channel, e);
    var m := Normalize(e, channel);
    OneMessage(e, channel);
    EntryCompared(id, ComparedOf(h.memory.cache[id].fields), channel);
    HearConcat(map[], h.events, HeardIn(h.memory, p));
    SilentPage(ClientOf(h), h.memory, channel, id);
    assert PageMessages(p) == [m] && PageIds(p) == {id};
    assert LastWith([m], id) == Some(m);
    assert !ShowsAt(ClientOf(After(h, p)), PageMessages(p), id);
    assert Unshared([p], owner);
  }

  /** Every short page that may come next on a channel shows on the client if and only if what
      is cached of the channel was heard and what is held of it is known to the channel. */
  lemma NextPagesShowIff(h: History, owner: string -> string, channel: string)
    requires "" !in h.memory.cache
    ensures InTouch(h, owner, channel) <==> forall entries :: NextShows(h, owner, channel, entries)
  {
    if InTouch(h, owner, channel) {
      forall entries ensures NextShows(h, owner, channel, entries) {
        var p := Poll(channel, Some(entries), None);
        if |entries| < PAGE_LIMIT { PageShows(h, p, owner); }
      }
    } else if !CacheHeard(ClientOf(h), h.memory.cache, owner, channel) {
      var id :| id in h.memory.cache && owner(id) == channel &&
                !(id in ClientOf(h) && ClientOf(h)[id] == ComparedOf(h.memory.cache[id].fields));
      UnheardStays(h, owner, channel, id);
    } else {
      var id :| id in ClientOf(h) && owner(id) == channel && id !in SeenIn(h.memory, channel);
      UnseenStays(h, owner, channel, id);
    }
  }

  // ----- Cuts -----

  /** A cut after which the channel's next pages still show: every create the client heard is of
      a message the channel knows, and an unserved create or update says what it already has. */
  ghost predicate SafeCut(h: History, p: Poll)
  {
    CutShort(h.memory, p) ==>
      && CreatedIn(HeardIn(h.memory, p)) <= SeenIn(h.memory, p.channel)
      && (!p.cut.value.served ==> AlreadyHas(ClientAt(ClientOf(h), h.memory, p), CutEvent(h.memory, p)))
  }

  predicate AlreadyHas(client: Client, e: Event)
  {
    e.MessageCreate? || e.MessageUpdate? ==> e.id in client && client[e.id] == ComparedOf(e.message)
  }

  /** One broadcast that the client may miss. */
  lemma CoversOne(client: Client, view: Client, e: Event, served: bool, id: string)
    requires Covers(client, view, id)
    requires !served ==> AlreadyHas(client, e)
    ensures Covers(if served then Hear(client, e) else client, Hear(view, e), id)
  {
  }

  lemma CoversCut(h: History, p: Poll, id: string)
    requires CutShort(h.memory, p) && Covers(ClientOf(h), ViewOf(h.memory.cache), id)
    requires !p.cut.value.served ==> AlreadyHas(ClientAt(ClientOf(h), h.memory, p), CutEvent(h.memory, p))
    ensures Covers(ClientOf(After(h, p)), ViewOf(After(h, p).memory.cache), id)
  {
    var client, view := ClientAt(ClientOf(h), h.memory, p), ClientAt(ViewOf(h.memory.cache), h.memory, p);
    CoversHear(ClientOf(h), ViewOf(h.memory.cache), EventsIn(TraceOf(h.memory, p)[..p.cut.value.at]), id);
    CoversOne(client, view, CutEvent(h.memory, p), p.cut.value.served, id);
    ClientAfter(h, p);
  }

  lemma CacheHeardIs(h: History, owner: string -> string, channel: string)
    ensures CacheHeard(ClientOf(h), h.memory.cache, owner, channel) <==>
            forall id :: owner(id) == channel ==> Covers(ClientOf(h), ViewOf(h.memory.cache), id)
  {
    ViewKeys(h.memory.cache);
    if CacheHeard(ClientOf(h), h.memory.cache, owner, channel) {
      forall id | owner(id) == channel ensures Covers(ClientOf(h), ViewOf(h.memory.cache), id) {
        if id in ViewOf(h.memory.cache) { assert id in h.memory.cache; }
      }
    }
    if forall id :: owner(id) == channel ==> Covers(ClientOf(h), ViewOf(h.memory.cache), id) {
      forall id | id in h.memory.cache && owner(id) == channel
        ensures id in ClientOf(h) && ClientOf(h)[id] == ComparedOf(h.memory.cache[id].fields)
      {
        assert Covers(ClientOf(h), ViewOf(h.memory.cache), id);
      }
    }
  }

  lemma HeardAfter(h: History, p: Poll)
    ensures ClientOf(After(h, p)) == HearAll(ClientOf(h), HeardIn(h.memory, p))
  {
    HearConcat(map[], h.events, HeardIn(h.memory, p));
  }

  /** What the poll's broadcasts are about: ids of the page, and known ids for the deletes. */
  lemma HeardAbout(mem: Memory, p: Poll)
    ensures CreatedIn(HeardIn(mem, p)) <= PageIds(p)
    ensures forall e, id :: e in HeardIn(mem, p) && Mentions(e, id) ==> id in PageIds(p) || id in SeenIn(mem, p.channel)
  {
    forall e | e in HeardIn(mem, p)
      ensures e.MessageCreate? || e.MessageUpdate? ==> e.id in PageIds(p)
      ensures e.MessageDelete? ==> e.id in SeenIn(mem, p.channel)
    {
      var k :| 0 <= k < HeardCount(mem, p) && HeardIn(mem, p)[k] == e;
      assert e == TraceOf(mem, p)[k].event;
      EventAt(mem, p, k);
      GoneProperties(mem, p);
    }
  }

  /** The ids held after a cut poll are known to the channel exactly when those it created are. */
  lemma HeldAfterCutIff(h: History, p: Poll, owner: string -> string)
    requires CutShort(h.memory, p) && Unshared([p], owner) && HeldSeen(ClientOf(h), h.memory, owner, p.channel)
    ensures HeldSeen(ClientOf(After(h, p)), After(h, p).memory, owner, p.channel) <==>
            CreatedIn(HeardIn(h.memory, p)) <= SeenIn(h.memory, p.channel)
  {
    var heard := HeardIn(h.memory, p);
    HeardAfter(h, p);
    IdsAfter(h.memory, p);
    SameSeen(h.memory, After(h, p).memory, p.channel);
    HeardAbout(h.memory, p);
    DeletedAreGone(h.memory, p);
    PageIsOwned(p, owner);
    HeldIff(ClientOf(h), heard, SeenIn(h.memory, p.channel), owner, p.channel);
  }

  lemma HeldIff(client: Client, heard: seq<Event>, known: set<string>, owner: string -> string, channel: string)
    requires forall id :: id in client && owner(id) == channel ==> id in known
    requires forall id :: id in CreatedIn(heard) ==> owner(id) == channel
    requires DeletedIn(heard) <= known
    ensures (forall id :: id in HearAll(client, heard) && owner(id) == channel ==> id in known) <==>
            CreatedIn(heard) <= known
  {
    OnlyCreated(client, heard);
    if forall id :: id in HearAll(client, heard) && owner(id) == channel ==> id in known {
      forall id | id in CreatedIn(heard) ensures id in known {
        if id !in DeletedIn(heard) { CreatedStays(client, heard, id); }
      }
    }
  }

  /** What an unserved create or update leaves in the cache. */
  lemma UnservedInCache(h: History, p: Poll, owner: string -> string)
    requires CutShort(h.memory, p) && Unshared([p], owner) && !p.cut.value.served
    requires CutEvent(h.memory, p).MessageCreate? || CutEvent(h.memory, p).MessageUpdate?
    ensures var e, next := CutEvent(h.memory, p), After(h, p).memory.cache;
            owner(e.id) == p.channel && e.id in next && ComparedOf(next[e.id].fields) == ComparedOf(e.message)
  {
    ViewKeys(h.memory.cache);
    FitsAt(ViewOf(h.memory.cache), h.memory, p);
    ClientAfter(h, p);
    PageIsOwned(p, owner);
    ViewKeys(After(h, p).memory.cache);
  }

  lemma CutHeardIf(h: History, p: Poll, owner: string -> string)
    requires CutShort(h.memory, p) && CacheHeard(ClientOf(h), h.memory.cache, owner, p.channel)
    requires !p.cut.value.served ==> AlreadyHas(ClientAt(ClientOf(h), h.memory, p), CutEvent(h.memory, p))
    ensures CacheHeard(ClientOf(After(h, p)), After(h, p).memory.cache, owner, p.channel)
  {
    CacheHeardIs(h, owner, p.channel);
    forall id | owner(id) == p.channel
      ensures Covers(ClientOf(After(h, p)), ViewOf(After(h, p).memory.cache), id)
    {
      CoversCut(h, p, id);
    }
    CacheHeardIs(After(h, p), owner, p.channel);
  }

  lemma CutHeardOnlyIf(h: History, p: Poll, owner: string -> string)
    requires CutShort(h.memory, p) && Unshared([p], owner) && !p.cut.value.served
    requires CacheHeard(ClientOf(After(h, p)), After(h, p).memory.cache, owner, p.channel)
    ensures AlreadyHas(ClientAt(ClientOf(h), h.memory, p), CutEvent(h.memory, p))
  {
    var e := CutEvent(h.memory, p);
    ClientAfter(h, p);
    if e.MessageCreate? || e.MessageUpdate? { UnservedInCache(h, p, owner); }
  }

  /** A cut poll keeps the client in touch with its channel if and only if the cut is safe. */
  lemma CutKeepsTouchIff(h: History, p: Poll, owner: string -> string)
    requires InTouch(h, owner, p.channel) && Unshared([p], owner) && CutShort(h.memory, p)
    ensures InTouch(After(h, p), owner, p.channel) <==> SafeCut(h, p)
  {
    HeldAfterCutIff(h, p, owner);
    if SafeCut(h, p) { CutHeardIf(h, p, owner); }
    if InTouch(After(h, p), owner, p.channel) && !p.cut.value.served { CutHeardOnlyIf(h, p, owner); }
  }

  lemma MissedKeys(view: Client, heard: seq<Event>, missed: Option<Event>, page: set<string>)
    requires CreatedIn(heard) <= page
    requires missed.Some? && missed.value.MessageCreate? ==> missed.value.id in page
    ensures var next := HearAll(view, heard);
            (if missed.Some? then Hear(next, missed.value) else next).Keys <= view.Keys + page
  {
    OnlyCreated(view, heard);
  }

  lemma UnservedOnPage(mem: Memory, p: Poll)
    ensures Unserved(mem, p).Some? && Unserved(mem, p).value.MessageCreate? ==> Unserved(mem, p).value.id in PageIds(p)
  {
    if Unserved(mem, p).Some? { EventAt(mem, p, p.cut.value.at); }
  }

  lemma CachedAfter(mem: Memory, p: Poll)
    ensures MemoryAfter(mem, p).cache.Keys <= mem.cache.Keys + PageIds(p)
  {
    MemoryView(mem, p);
    ViewKeys(mem.cache);
    ViewKeys(MemoryAfter(mem, p).cache);
    HeardAbout(mem, p);
    UnservedOnPage(mem, p);
    MissedKeys(ViewOf(mem.cache), HeardIn(mem, p), Unserved(mem, p), PageIds(p));
  }

  /** Nothing is ever cached without an id. */
  lemma NoEmptyId(mem: Memory, p: Poll)
    requires "" !in mem.cache
    ensures "" !in MemoryAfter(mem, p).cache
  {
    CachedAfter(mem, p);
    if p.page.Some? { MessageIds(p.page.value, p.channel); }
  }

  /** So the pages that may follow a cut all show on the client if and only if the cut is safe. */
  lemma CutShowsIff(h: History, p: Poll, owner: string -> string)
    requires InTouch(h, owner, p.channel) && Unshared([p], owner) && CutShort(h.memory, p)
    requires "" !in h.memory.cache
    ensures SafeCut(h, p) <==> forall entries :: NextShows(After(h, p), owner, p.channel, entries)
  {
    CutKeepsTouchIff(h, p, owner);
    NoEmptyId(h.memory, p);
    NextPagesShowIff(After(h, p), owner, p.channel);
  }

  // ----- Whole runs -----

  /** The known ids of every channel are its own. */
  ghost predicate OwnIds(mem: Memory, owner: string -> string)
  {
    forall c, id :: c in mem.channelIds && id in mem.channelIds[c] ==> owner(id) == c
  }

  lemma OwnIdsIn(mem: Memory, owner: string -> string, channel: string)
    requires OwnIds(mem, owner)
    ensures forall id :: id in SeenIn(mem, channel) ==> owner(id) == channel
  {
    forall id | id in SeenIn(mem, channel) ensures owner(id) == channel {
      assert channel in mem.channelIds && id in mem.channelIds[channel] ==> owner(id) == channel;
    }
  }

  lemma OwnIdsAfter(mem: Memory, p: Poll, owner: string -> string)
    requires OwnIds(mem, owner) && Unshared([p], owner)
    ensures OwnIds(MemoryAfter(mem, p), owner)
  {
    IdsAfter(mem, p);
    PageIsOwned(p, owner);
  }

  /** A poll of another channel says nothing about this one. */
  lemma OtherChannel(h: History, p: Poll, owner: string -> string, id: string)
    requires OwnIds(h.memory, owner) && Unshared([p], owner) && owner(id) != p.channel
    ensures id in ClientOf(After(h, p)) <==> id in ClientOf(h)
    ensures id in ClientOf(h) ==> ClientOf(After(h, p))[id] == ClientOf(h)[id]
    ensures id in After(h, p).memory.cache <==> id in h.memory.cache
    ensures id in h.memory.cache ==>
              ComparedOf(After(h, p).memory.cache[id].fields) == ComparedOf(h.memory.cache[id].fields)
  {
    HeardAfter(h, p);
    HeardOfOthers(h.memory, p, owner, id);
    Unmentioned(ClientOf(h), HeardIn(h.memory, p), id);
    OtherInCache(h.memory, p, owner, id);
  }

  lemma UnmentionedMissed(view: Client, heard: seq<Event>, missed: Option<Event>, id: string)
    requires forall e :: e in heard ==> !Mentions(e, id)
    requires missed.Some? ==> !Mentions(missed.value, id)
    ensures var next := HearAll(view, heard);
            var after := if missed.Some? then Hear(next, missed.value) else next;
            (id in after <==> id in view) && (id in view ==> after[id] == view[id])
  {
    Unmentioned(view, heard, id);
  }

  lemma HeardOfOthers(mem: Memory, p: Poll, owner: string -> string, id: string)
    requires OwnIds(mem, owner) && Unshared([p], owner) && owner(id) != p.channel
    ensures forall e :: e in HeardIn(mem, p) ==> !Mentions(e, id)
    ensures Unserved(mem, p).Some? ==> !Mentions(Unserved(mem, p).value, id)
  {
    HeardAbout(mem, p);
    PageIsOwned(p, owner);
    OwnIdsIn(mem, owner, p.channel);
    if Unserved(mem, p).Some? { UnservedAbout(mem, p); }
  }

  lemma OtherInCache(mem: Memory, p: Poll, owner: string -> string, id: string)
    requires OwnIds(mem, owner) && Unshared([p], owner) && owner(id) != p.channel
    ensures id in MemoryAfter(mem, p).cache <==> id in mem.cache
    ensures id in mem.cache ==> ComparedOf(MemoryAfter(mem, p).cache[id].fields) == ComparedOf(mem.cache[id].fields)
  {
    MemoryView(mem, p);
    ViewKeys(mem.cache);
    ViewKeys(MemoryAfter(mem, p).cache);
    HeardOfOthers(mem, p, owner, id);
    UnmentionedMissed(ViewOf(mem.cache), HeardIn(mem, p), Unserved(mem, p), id);
  }

  lemma UnservedAbout(mem: Memory, p: Poll)
    requires Unserved(mem, p).Some?
    ensures forall id :: Mentions(Unserved(mem, p).value, id) ==> id in PageIds(p) || id in SeenIn(mem, p.channel)
  {
    EventAt(mem, p, p.cut.value.at);
    GoneProperties(mem, p);
  }

  lemma OtherTouch(h: History, p: Poll, owner: string -> string, channel: string)
    requires OwnIds(h.memory, owner) && Unshared([p], owner) && channel != p.channel && InTouch(h, owner, channel)
    ensures InTouch(After(h, p), owner, channel)
  {
    IdsAfter(h.memory, p);
    assert SeenIn(After(h, p).memory, channel) == SeenIn(h.memory, channel);
    forall id | owner(id) == channel
      ensures id in After(h, p).memory.cache ==>
                id in ClientOf(After(h, p)) &&
                ClientOf(After(h, p))[id] == ComparedOf(After(h, p).memory.cache[id].fields)
      ensures id in ClientOf(After(h, p)) ==> id in SeenIn(After(h, p).memory, channel)
    {
      OtherChannel(h, p, owner, id);
    }
  }

  lemma OtherShows(h: History, p: Poll, owner: string -> string, channel: string, ms: seq<Message>)
    requires OwnIds(h.memory, owner) && Unshared([p], owner) && channel != p.channel
    requires Shows(ClientOf(h), owner, channel, ms)
    ensures Shows(ClientOf(After(h, p)), owner, channel, ms)
  {
    forall id | owner(id) == channel ensures ShowsAt(ClientOf(After(h, p)), ms, id) {
      OtherChannel(h, p, owner, id);
      assert ShowsAt(ClientOf(h), ms, id);
    }
  }

  lemma PageTouch(h: History, p: Poll, owner: string -> string)
    requires InTouch(h, owner, p.channel) && ShortPage(p) && !CutShort(h.memory, p)
    ensures InTouch(After(h, p), owner, p.channel)
  {
    CacheHeardIs(h, owner, p.channel);
    IdsAfter(h.memory, p);
    forall id | owner(id) == p.channel
      ensures Covers(ClientOf(After(h, p)), ViewOf(After(h, p).memory.cache), id)
      ensures id in ClientOf(After(h, p)) ==> id in SeenIn(After(h, p).memory, p.channel)
    {
      CoversAfter(h, p, id);
      HeldAfterPage(h, p, owner, id);
    }
    CacheHeardIs(After(h, p), owner, p.channel);
  }

  /** A poll without a page, a short page, or a safe cut. */
  ghost predicate SafePoll(h: History, p: Poll)
  {
    if CutShort(h.memory, p) then SafeCut(h, p) else p.page.Some? ==> ShortPage(p)
  }

  ghost predicate SafeRun(polls: seq<Poll>)
  {
    polls == [] || (SafeRun(polls[..|polls|-1]) && SafePoll(Run(polls[..|polls|-1]), polls[|polls|-1]))
  }

  /** The messages of the channel's last page, none before the first; unknown after a page that was cut. */
  ghost function LastPage(polls: seq<Poll>, channel: string): Option<seq<Message>>
  {
    if polls == [] then Some([])
    else
      var before, p := polls[..|polls|-1], polls[|polls|-1];
      if p.channel != channel || p.page.None? then LastPage(before, channel)
      else if CutShort(Run(before).memory, p) then None
      else Some(PageMessages(p))
  }

  lemma NoPage(h: History, p: Poll)
    requires p.page.None?
    ensures After(h, p).memory == h.memory && ClientOf(After(h, p)) == ClientOf(h)
  {
    HeardAfter(h, p);
    assert TraceOf(h.memory, p) == [] && HeardIn(h.memory, p) == [];
  }

  lemma StepTouch(h: History, p: Poll, owner: string -> string, channel: string)
    requires OwnIds(h.memory, owner) && Unshared([p], owner) && InTouch(h, owner, channel) && SafePoll(h, p)
    ensures InTouch(After(h, p), owner, channel)
  {
    if p.page.None? {
      NoPage(h, p);
    } else if p.channel != channel {
      OtherTouch(h, p, owner, channel);
    } else if CutShort(h.memory, p) {
      CutKeepsTouchIff(h, p, owner);
    } else {
      PageTouch(h, p, owner);
    }
  }

  lemma {:induction false} RunInTouch(polls: seq<Poll>, owner: string -> string, channel: string)
    requires Unshared(polls, owner) && SafeRun(polls)
    ensures OwnIds(Run(polls).memory, owner) && InTouch(Run(polls), owner, channel)
  {
    if polls != [] {
      UnsharedParts(polls, owner);
      RunInTouch(polls[..|polls|-1], owner, channel);
      OwnIdsAfter(Run(polls[..|polls|-1]).memory, polls[|polls|-1], owner);
      StepTouch(Run(polls[..|polls|-1]), polls[|polls|-1], owner, channel);
    }
  }

  /** In every run of short pages and safe cuts on channels that share no messages, a client
      identified throughout shows the last page of every channel whose last page was not cut. */
  lemma {:induction false} ClientShowsLastPage(polls: seq<Poll>, owner: string -> string, channel: string)
    requires Unshared(polls, owner) && SafeRun(polls) && LastPage(polls, channel).Some?
    ensures Shows(ClientOf(Run(polls)), owner, channel, LastPage(polls, channel).value)
  {
    if polls != [] {
      var before, p := polls[..|polls|-1], polls[|polls|-1];
      UnsharedParts(polls, owner);
      RunInTouch(before, owner, channel);
      if p.channel == channel && p.page.Some? {
        PageShows(Run(before), p, owner);
      } else {
        ClientShowsLastPage(before, owner, channel);
        if p.page.None? { NoPage(Run(before), p); }
        else { OtherShows(Run(before), p, owner, channel, LastPage(before, channel).value); }
      }
    }
  }

  // ----- One page, full or not -----

  /** Of the channel the client holds exactly these ids. */
  ghost predicate Holds(client: Client, owner: string -> string, channel: string, ids: set<string>)
  {
    forall id :: owner(id) == channel ==> (id in client <==> id in ids)
  }

  lemma FullGone(mem: Memory, p: Poll)
    ensures ToSet(GoneIn(mem, p)) == if ShortPage(p) then SeenIn(mem, p.channel) - PageIds(p) else {}
  {
  }

  /** In any state, a page leaves the client with exactly its ids if and only if everything else
      it held of the channel is known there and the page is short, and it has what is cached. */
  lemma PageHeldIff(h: History, p: Poll, owner: string -> string)
    requires Unshared([p], owner) && p.page.Some? && !CutShort(h.memory, p)
    ensures Holds(ClientOf(After(h, p)), owner, p.channel, PageIds(p)) <==>
            (forall id :: id in ClientOf(h) && owner(id) == p.channel && id !in PageIds(p) ==>
               ShortPage(p) && id in SeenIn(h.memory, p.channel)) &&
            (forall id :: id in PageIds(p) && id in h.memory.cache ==> id in ClientOf(h))
  {
    HeardAfter(h, p);
    ClientAfterPage(ClientOf(h), h.memory, p);
    FullGone(h.memory, p);
    PageIsOwned(p, owner);
    HeldIffIds(ClientOf(h).Keys, h.memory.cache.Keys, PageIds(p), SeenIn(h.memory, p.channel), ShortPage(p), owner,
               p.channel);
  }

  lemma HeldIffIds(held: set<string>, cached: set<string>, page: set<string>, seen: set<string>, short: bool,
                   owner: string -> string, channel: string)
    requires forall id :: id in page ==> owner(id) == channel
    ensures var after := held + (page - cached) - (if short then seen - page else {});
            (forall id :: owner(id) == channel ==> (id in after <==> id in page)) <==>
            (forall id :: id in held && owner(id) == channel && id !in page ==> short && id in seen) &&
            (forall id :: id in page && id in cached ==> id in held)
  {
    var after := held + (page - cached) - (if short then seen - page else {});
    if forall id :: owner(id) == channel ==> (id in after <==> id in page) {
      forall id | id in held && owner(id) == channel && id !in page ensures short && id in seen {
        assert id !in after;
      }
      forall id | id in page && id in cached ensures id in held {
        assert id in after;
      }
    }
  }

  // ----- Shared messages -----

  /** The ids on the last page of any channel. */
  ghost function AllSeen(mem: Memory): set<string>
  {
    set c, id | c in mem.channelIds && id in mem.channelIds[c] :: id
  }

  ghost function SeenElsewhere(mem: Memory, channel: string): set<string>
  {
    set c, id | c in mem.channelIds && c != channel && id in mem.channelIds[c] :: id
  }

  /** What the page misses of the channel's ids is nowhere else if it is short, and everywhere else if it is full. */
  ghost predicate PageSettles(mem: Memory, p: Poll)
  {
    p.page.Some? ==>
      var off := SeenIn(mem, p.channel) - PageIds(p);
      if ShortPage(p) then off !! SeenElsewhere(mem, p.channel) else off <= SeenElsewhere(mem, p.channel)
  }

  lemma SeenParts(mem: Memory, channel: string)
    ensures AllSeen(mem) == SeenElsewhere(mem, channel) + SeenIn(mem, channel)
  {
    forall id | id in AllSeen(mem) ensures id in SeenElsewhere(mem, channel) + SeenIn(mem, channel) {
      var c :| c in mem.channelIds && id in mem.channelIds[c];
    }
  }

  lemma ElsewhereSame(mem: Memory, next: Memory, channel: string, page: set<string>)
    requires next.channelIds == mem.channelIds[channel := page]
    ensures SeenElsewhere(next, channel) == SeenElsewhere(mem, channel)
  {
    forall id | id in SeenElsewhere(next, channel) ensures id in SeenElsewhere(mem, channel) {
      var c :| c in next.channelIds && c != channel && id in next.channelIds[c];
      assert c in mem.channelIds && id in mem.channelIds[c];
    }
    forall id | id in SeenElsewhere(mem, channel) ensures id in SeenElsewhere(next, channel) {
      var c :| c in mem.channelIds && c != channel && id in mem.channelIds[c];
      assert c in next.channelIds && id in next.channelIds[c];
    }
  }

  lemma SeenAfterPage(mem: Memory, p: Poll)
    requires p.page.Some? && !CutShort(mem, p)
    ensures AllSeen(MemoryAfter(mem, p)) == SeenElsewhere(mem, p.channel) + PageIds(p)
  {
    IdsAfter(mem, p);
    SeenParts(MemoryAfter(mem, p), p.channel);
    ElsewhereSame(mem, MemoryAfter(mem, p), p.channel, PageIds(p));
  }

  /** The client holds exactly the messages on the channels' last pages. */
  ghost predicate HoldsLastPages(h: History)
  {
    ClientOf(h).Keys == AllSeen(h.memory)
  }

  lemma PageSettlesIff(h: History, p: Poll)
    requires ClientOf(h).Keys == h.memory.cache.Keys && HoldsLastPages(h) && p.cut.None?
    ensures HoldsLastPages(After(h, p)) <==> PageSettles(h.memory, p)
  {
    if p.page.None? {
      NoPage(h, p);
    } else {
      HeardAfter(h, p);
      ClientAfterPage(ClientOf(h), h.memory, p);
      FullGone(h.memory, p);
      SeenParts(h.memory, p.channel);
      SeenAfterPage(h.memory, p);
      Settles(SeenElsewhere(h.memory, p.channel), SeenIn(h.memory, p.channel), PageIds(p), ShortPage(p));
    }
  }

  lemma Settles(others: set<string>, seen: set<string>, page: set<string>, short: bool)
    ensures var held := others + seen;
            held + (page - held) - (if short then seen - page else {}) == others + page <==>
            (if short then (seen - page) !! others else seen - page <= others)
  {
    var held := others + seen;
    var after := held + (page - held) - (if short then seen - page else {});
    if short {
      if after == others + page {
        forall id | id in seen - page ensures id !in others { assert id !in after; }
      }
    } else if after == others + page {
      forall id | id in seen - page ensures id in others { assert id in after; }
    }
  }

  ghost predicate AlwaysHoldsLastPages(polls: seq<Poll>)
  {
    polls == [] || (AlwaysHoldsLastPages(polls[..|polls|-1]) && HoldsLastPages(Run(polls)))
  }

  ghost predicate AlwaysSettles(polls: seq<Poll>)
  {
    polls == [] ||
    (AlwaysSettles(polls[..|polls|-1]) && PageSettles(Run(polls[..|polls|-1]).memory, polls[|polls|-1]))
  }

  lemma CompleteKeysHeard(polls: seq<Poll>)
    requires Complete(polls)
    ensures KeysHeardAll(polls)
  {
    if polls != [] {
      assert polls[|polls|-1] in polls;
      assert forall p :: p in polls[..|polls|-1] ==> p in polls;
      CompleteKeysHeard(polls[..|polls|-1]);
    }
  }

  /** In any run of complete polls, whether or not channels share messages, the client holds
      exactly the last pages' messages after every poll if and only if every page settles. */
  lemma {:induction false} LastPagesHeldIff(polls: seq<Poll>)
    requires Complete(polls)
    ensures AlwaysHoldsLastPages(polls) <==> AlwaysSettles(polls)
  {
    if polls != [] {
      var before, p := polls[..|polls|-1], polls[|polls|-1];
      assert p in polls;
      assert forall q :: q in before ==> q in polls;
      LastPagesHeldIff(before);
      CompleteKeysHeard(before);
      EventsFitIff(before);
      if AlwaysHoldsLastPages(before) {
        StartHolds(before);
        PageSettlesIff(Run(before), p);
      }
    }
  }

  lemma StartHolds(polls: seq<Poll>)
    requires AlwaysHoldsLastPages(polls)
    ensures HoldsLastPages(Run(polls))
  {
  }

  // ----- Inputs that leave the client behind -----

  /** The first page of a run, cut at its create. */
  lemma AfterFirstCut(e: RawEntry, served: bool)
    requires e.RawMessage? && e.id != ""
    ensures var m := Normalize(e, "a");
            After(START, Poll("a", Some([e]), Some(Cut(0, served)))) ==
              History(Memory(map[e.id := m], map[]), if served then [MessageCreate(e.id, m.fields)] else [])
  {
    FirstTrace(e, Some(Cut(0, served)));
    EventsOne(TraceOf(START.memory, Poll("a", Some([e]), Some(Cut(0, served))))[0]);
  }

  lemma HoldsCreated(h: History, id: string, fields: Fields)
    requires h.events == [MessageCreate(id, fields)]
    ensures id in ClientOf(h)
  {
    OneEvent(map[], MessageCreate(id, fields));
  }

  /** A peer that closes during a create: the message is never deleted for the client that was served. */
  lemma CutCreateGoesStale(e: RawEntry)
    requires e.RawMessage? && e.id != ""
    ensures var polls := [Poll("a", Some([e]), Some(Cut(0, true))), Poll("a", Some([]), None)];
            LastPage(polls, "a") == Some([]) && e.id in ClientOf(Run(polls))
  {
    var p, q := Poll("a", Some([e]), Some(Cut(0, true))), Poll("a", Some([]), None);
    AfterFirstCut(e, true);
    var h := After(START, p);
    HoldsCreated(h, e.id, Normalize(e, "a").fields);
    NoneSeen(h.memory, "a");
    EmptyPageClient(h, "a");
    RunTwo(p, q);
    LastOfTwo(p, q);
  }

  lemma NoneSeen(mem: Memory, channel: string)
    requires mem.channelIds == map[]
    ensures SeenIn(mem, channel) == {}
  {
  }

  lemma LastPageIs(polls: seq<Poll>, p: Poll)
    requires p.page.Some? && p.cut.None?
    ensures LastPage(polls + [p], p.channel) == Some(PageMessages(p))
  {
    assert (polls + [p])[..|polls|] == polls;
  }

  lemma LastOfTwo(p: Poll, q: Poll)
    requires q.page.Some? && q.cut.None?
    ensures LastPage([p, q], q.channel) == Some(PageMessages(q))
  {
    LastPageIs([p], q);
    assert [p] + [q] == [p, q];
  }

  lemma SameAgain(e: RawEntry)
    requires e.RawMessage? && e.id != "" && e.reactions == []
    ensures var h := History(Memory(map[e.id := Normalize(e, "a")], map[]), []);
            After(h, Poll("a", Some([e]), None)).events == []
  {
    var h := History(Memory(map[e.id := Normalize(e, "a")], map[]), []);
    FirstPolled(h.memory, "a", e);
    assert Observe(h.memory.cache, Normalize(e, "a")).trace == [];
    assert EventsIn(TraceOf(h.memory, Poll("a", Some([e]), None))[..0]) == [];
  }

  lemma NothingHeard(h: History)
    requires h.events == []
    ensures ClientOf(h) == map[]
  {
  }

  /** And a client that was not served never hears of it. */
  lemma UnservedCreateIsNeverHeard(e: RawEntry)
    requires e.RawMessage? && e.id != "" && e.reactions == []
    ensures var polls := [Poll("a", Some([e]), Some(Cut(0, false))), Poll("a", Some([e]), None)];
            LastPage(polls, "a") == Some([Normalize(e, "a")]) && ClientOf(Run(polls)) == map[]
  {
    var p, q := Poll("a", Some([e]), Some(Cut(0, false))), Poll("a", Some([e]), None);
    AfterFirstCut(e, false);
    SameAgain(e);
    NothingHeard(After(After(START, p), q));
    RunTwo(p, q);
    LastOfTwo(p, q);
    OneMessage(e, "a");
  }

  /** A full page hides what fell off it: the client keeps a message that is gone. */
  lemma FullPageGoesStale(e: RawEntry, full: seq<RawEntry>)
    requires e.RawMessage? && e.id != "" && |full| == PAGE_LIMIT
    requires forall f :: f in full ==> f.RawMessage? && f.id != "" && f.id != e.id
    ensures var h := Run([Poll("a", Some([e]), None), Poll("a", Some(full), None)]);
            e.id in ClientOf(h) && e.id !in IdsOf(Messages(full, "a"))
  {
    var p, q := Poll("a", Some([e]), None), Poll("a", Some(full), None);
    AfterFirst(e);
    var h := After(START, p);
    HoldsCreated(h, e.id, Normalize(e, "a").fields);
    MessageIds(full, "a");
    HeardAfter(h, q);
    ClientAfterPage(ClientOf(h), h.memory, q);
    FullGone(h.memory, q);
    RunTwo(p, q);
  }

  /** Two channels that report the same message: a page without it on one of them takes it from the other. */
  lemma SharedIdIsLost(e: RawEntry)
    requires e.RawMessage? && e.id != "" && e.reactions == []
    ensures var polls := [Poll("a", Some([e]), None), Poll("b", Some([e]), None), Poll("b", Some([]), None)];
            e.id in SeenIn(Run(polls).memory, "a") && e.id !in ClientOf(Run(polls))
  {
    var p, q, r := Poll("a", Some([e]), None), Poll("b", Some([e]), None), Poll("b", Some([]), None);
    AfterFirst(e);
    var h1 := After(START, p);
    AfterShared(h1, e);
    var h2 := After(h1, q);
    AfterEmpty(h2, "b", e.id, None);
    EmptyPageClient(h2, "b");
    RunThree(p, q, r);
    IdsAfter(h2.memory, r);
  }

  // ----- An unchanged page -----

  ghost predicate WellKeyed(cache: Cache)
  {
    forall id :: id in cache ==> cache[id].id == id
  }

  /** Up to what the poll can tell apart. */
  predicate SameMessage(a: Message, b: Message)
  {
    a.id == b.id && ComparedOf(a.fields) == ComparedOf(b.fields) && SameReactions(a.reactions, b.reactions)
  }

  ghost predicate DistinctIds(ms: seq<Message>)
  {
    forall i, j :: 0 <= i < j < |ms| ==> ms[i].id != ms[j].id
  }

  ghost predicate DistinctReactions(counts: Reactions)
  {
    forall i, j :: 0 <= i < j < |counts| ==> counts[i].key != counts[j].key
  }

  lemma {:induction false} PutReactionKeys(counts: Reactions, r: RawReaction)
    requires DistinctReactions(counts)
    ensures DistinctReactions(PutReaction(counts, r))
    ensures forall x :: x in PutReaction(counts, r) ==> x == r || x in counts
  {
    if counts != [] && counts[0].key != r.key {
      var rest := PutReaction(counts[1..], r);
      PutReactionKeys(counts[1..], r);
      forall i, j | 0 <= i < j < |[counts[0]] + rest|
        ensures ([counts[0]] + rest)[i].key != ([counts[0]] + rest)[j].key
      {
        assert rest[j-1] in rest;
      }
    }
  }

  lemma {:induction false} ReactionCountsDistinct(raw: seq<RawReaction>)
    ensures DistinctReactions(ReactionCounts(raw))
  {
    if raw != [] {
      ReactionCountsDistinct(raw[..|raw|-1]);
      PutReactionKeys(ReactionCounts(raw[..|raw|-1]), raw[|raw|-1]);
    }
  }

  lemma {:induction false} FindDistinct(counts: Reactions, r: RawReaction)
    requires DistinctReactions(counts) && r in counts
    ensures FindReaction(counts, r.key) == Some(r)
  {
    if counts[0] != r { FindDistinct(counts[1..], r); }
  }

  lemma {:induction false} NoDeltas(was: Reactions, m: Message, n: nat, cache: Cache)
    requires DistinctReactions(m.reactions) && SameReactions(was, m.reactions) && n <= |m.reactions|
    ensures ReactionDeltas(was, m, n, cache) == []
  {
    if n > 0 {
      NoDeltas(was, m, n - 1, cache);
      FindDistinct(m.reactions, m.reactions[n-1]);
    }
  }

  lemma {:induction false} ObserveAgain(cache: Cache, ms: seq<Message>)
    requires forall m :: m in ms ==> m.id in cache && SameMessage(cache[m.id], m) && DistinctReactions(m.reactions)
    ensures ObserveAll(cache, ms) == Outcome(cache, [])
  {
    if ms != [] {
      var m := ms[|ms|-1];
      ObserveAgain(cache, ms[..|ms|-1]);
      assert m in ms;
      NoDeltas(cache[m.id].reactions, m, |m.reactions|, cache);
    }
  }

  lemma {:induction false} MessagesDistinctReactions(entries: seq<RawEntry>, channel: string)
    ensures forall m :: m in Messages(entries, channel) ==> DistinctReactions(m.reactions)
  {
    if entries != [] {
      MessagesDistinctReactions(entries[1..], channel);
      if entries[0].RawMessage? { ReactionCountsDistinct(entries[0].reactions); }
    }
  }

  lemma ObserveKeeps(cache: Cache, m: Message)
    requires WellKeyed(cache)
    ensures var next := Observe(cache, m).cache;
            && WellKeyed(next) && m.id in next && SameMessage(next[m.id], m)
            && (forall id :: id in cache && id != m.id ==> id in next && next[id] == cache[id])
  {
  }

  /** Every message of a page of distinct ids is cached as it was seen. */
  lemma {:induction false} ObserveAllKeeps(cache: Cache, ms: seq<Message>)
    requires WellKeyed(cache) && DistinctIds(ms)
    ensures var next := ObserveAll(cache, ms).cache;
            WellKeyed(next) && forall m :: m in ms ==> m.id in next && SameMessage(next[m.id], m)
  {
    if ms != [] {
      var most, m := ms[..|ms|-1], ms[|ms|-1];
      ObserveAllKeeps(cache, most);
      ObserveKeeps(ObserveAll(cache, most).cache, m);
      SplitLast(ms);
      assert forall x :: x in most ==> x.id != m.id;
    }
  }

  lemma {:induction false} DeleteKeeps(cache: Cache, channel: string, gone: seq<string>)
    ensures DeleteAll(cache, channel, gone).cache == map id | id in cache && id !in gone :: cache[id]
  {
    if gone != [] {
      DeleteKeeps(cache, channel, gone[..|gone|-1]);
      SplitLast(gone);
    }
  }

  lemma SeenOnce(mem: Memory, channel: string, entries: seq<RawEntry>)
    requires WellKeyed(mem.cache) && DistinctIds(Messages(entries, channel))
    ensures var once := Polled(mem, channel, Some(entries)).0.cache;
            forall m :: m in Messages(entries, channel) ==> m.id in once && SameMessage(once[m.id], m)
  {
    var ms := Messages(entries, channel);
    var seen := ObserveAll(mem.cache, ms).cache;
    ObserveAllKeeps(mem.cache, ms);
    DeleteKeeps(seen, channel, Gone(mem, channel, entries));
    forall m | m in ms ensures m.id !in Gone(mem, channel, entries) {
      assert m.id in IdsOf(ms);
    }
  }

  lemma SilentWhenSeen(once: Memory, channel: string, entries: seq<RawEntry>)
    requires var ms := Messages(entries, channel);
             && channel in once.channelIds && once.channelIds[channel] == IdsOf(ms)
             && (forall m :: m in ms ==> m.id in once.cache && SameMessage(once.cache[m.id], m))
    ensures Polled(once, channel, Some(entries)) == (once, [])
  {
    var ms := Messages(entries, channel);
    MessagesDistinctReactions(entries, channel);
    ObserveAgain(once.cache, ms);
    assert SeenIn(once, channel) - IdsOf(ms) == {};
    assert Gone(once, channel, entries) == [];
    assert DeleteAll(once.cache, channel, []) == Outcome(once.cache, []);
    assert once.channelIds[channel := IdsOf(ms)] == once.channelIds;
    var none: seq<Emission> := [];
    AddNothing(none);
  }

  /** Polling an unchanged page of distinct ids again changes nothing and broadcasts nothing. */
  lemma UnchangedPageIsSilent(mem: Memory, channel: string, entries: seq<RawEntry>)
    requires WellKeyed(mem.cache) && DistinctIds(Messages(entries, channel))
    ensures var once := Polled(mem, channel, Some(entries)).0;
            Polled(once, channel, Some(entries)) == (once, [])
  {
    SeenOnce(mem, channel, entries);
    SilentWhenSeen(Polled(mem, channel, Some(entries)).0, channel, entries);
  }
}

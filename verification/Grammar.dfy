/** The grammar of the events a client hears, and where polls may be cut without breaking it. */
module Grammar {
  import opened Text
  import opened Discord
  import opened Polling
  import opened Mirror

  /** The CREATE (true) and DELETE (false) events of one message, in order. */
  function Lifecycle(events: seq<Event>, id: string): seq<bool>
  {
    if events == [] then []
    else
      var e := events[|events|-1];
      Lifecycle(events[..|events|-1], id) +
      (if e.MessageCreate? && e.id == id then [true] else if e.MessageDelete? && e.id == id then [false] else [])
  }

  /** CREATE, DELETE, CREATE, DELETE, ... */
  ghost predicate Alternates(cycle: seq<bool>)
  {
    forall i :: 0 <= i < |cycle| ==> cycle[i] == (i % 2 == 0)
  }

  /** Between a CREATE and the next DELETE. */
  predicate Alive(events: seq<Event>, id: string)
  {
    |Lifecycle(events, id)| % 2 == 1
  }

  lemma {:induction false} FitsAlternates(events: seq<Event>, id: string)
    requires FitsAll(map[], events)
    ensures Alternates(Lifecycle(events, id))
    ensures Alive(events, id) <==> id in HearAll(map[], events)
  {
    if events != [] { FitsAlternates(events[..|events|-1], id); }
  }

  /** Creates and deletes of a message alternate, starting with a create, and its updates and
      reactions come between them. */
  ghost predicate Grammatical(events: seq<Event>)
  {
    && (forall id :: Alternates(Lifecycle(events, id)))
    && (forall k :: 0 <= k < |events| && NeedsMessage(events[k]) ==> Alive(events[..k], events[k].id))
  }

  lemma {:induction false} FitsGrammatical(events: seq<Event>)
    requires FitsAll(map[], events)
    ensures Grammatical(events)
  {
    forall id ensures Alternates(Lifecycle(events, id)) {
      FitsAlternates(events, id);
    }
    forall k | 0 <= k < |events| && NeedsMessage(events[k]) ensures Alive(events[..k], events[k].id) {
      FitsPrefix(map[], events, k);
      FitsAlternates(events[..k], events[k].id);
    }
  }

  lemma {:induction false} PrefixGrammatical(events: seq<Event>)
    requires events != [] && Grammatical(events)
    ensures Grammatical(events[..|events|-1])
  {
    var most := events[..|events|-1];
    forall id ensures Alternates(Lifecycle(most, id)) {
      assert Alternates(Lifecycle(events, id));
      assert Lifecycle(most, id) <= Lifecycle(events, id);
    }
    forall k | 0 <= k < |most| && NeedsMessage(most[k]) ensures Alive(most[..k], most[k].id) {
      assert most[..k] == events[..k] && Alive(events[..k], events[k].id);
    }
  }

  lemma {:induction false} GrammaticalFits(events: seq<Event>)
    requires Grammatical(events)
    ensures FitsAll(map[], events)
  {
    if events != [] {
      var k := |events| - 1;
      var e := events[k];
      PrefixGrammatical(events);
      GrammaticalFits(events[..k]);
      if e.MessageCreate? || e.MessageDelete? {
        FitsAlternates(events[..k], e.id);
        assert Alternates(Lifecycle(events, e.id));
        assert Lifecycle(events, e.id)[|Lifecycle(events[..k], e.id)|] == e.MessageCreate?;
      } else if NeedsMessage(e) {
        FitsAlternates(events[..k], e.id);
        assert Alive(events[..k], events[k].id);
      }
    }
  }

  /** In any run in which no create or delete goes past the client, shared messages included, the
      events are in order if and only if every poll reports only cached messages deleted. */
  lemma EventsInOrderIff(polls: seq<Poll>)
    requires KeysHeardAll(polls)
    ensures Grammatical(Run(polls).events) <==> DeletesKnownAll(polls)
  {
    EventsFitIff(polls);
    if Grammatical(Run(polls).events) { GrammaticalFits(Run(polls).events); }
    if FitsAll(map[], Run(polls).events) { FitsGrammatical(Run(polls).events); }
  }

  // ----- Channels that share no messages -----

  /** No message id is shared between channels: owner gives every polled id its channel. */
  ghost predicate Unshared(polls: seq<Poll>, owner: string -> string)
  {
    forall p, id :: p in polls && id in PageIds(p) ==> owner(id) == p.channel
  }

  /** The known ids of every channel are its own, and cached. */
  ghost predicate Owned(mem: Memory, owner: string -> string)
  {
    forall c, id :: c in mem.channelIds && id in mem.channelIds[c] ==> id in mem.cache && owner(id) == c && id != ""
  }

  /** A cut after which the client and the cache still agree on the ids: not in the deletes, and
      not before the client is served a create. */
  ghost predicate Harmless(mem: Memory, p: Poll)
  {
    CutShort(mem, p) ==>
      var e := TraceOf(mem, p)[p.cut.value.at].event;
      !e.MessageDelete? && (e.MessageCreate? ==> p.cut.value.served)
  }

  ghost predicate HarmlessFrom(h: History, polls: seq<Poll>)
  {
    polls == [] ||
    (HarmlessFrom(h, polls[..|polls|-1]) && Harmless(RunFrom(h, polls[..|polls|-1]).memory, polls[|polls|-1]))
  }

  lemma {:induction false} MessageIds(entries: seq<RawEntry>, channel: string)
    ensures forall m :: m in Messages(entries, channel) ==> m.id != ""
    ensures forall id :: id in IdsOf(Messages(entries, channel)) <==>
              exists e :: e in entries && e.RawMessage? && e.id == id && id != ""
  {
    if entries != [] {
      var rest := Messages(entries[1..], channel);
      MessageIds(entries[1..], channel);
      assert entries == [entries[0]] + entries[1..];
      if entries[0].RawMessage? && entries[0].id != "" { IdsOfMore(rest, Normalize(entries[0], channel)); }
    }
  }

  /** Of two traces, one about messages and one of deletes, what the k-th broadcast is. */
  lemma EventOfParts(seen: seq<Emission>, deletes: seq<Emission>, page: set<string>, gone: seq<string>, k: nat)
    requires forall x :: x in seen ==> About(x.event, page)
    requires |deletes| == |gone|
    requires forall i :: 0 <= i < |gone| ==> deletes[i].event.MessageDelete? && deletes[i].event.id == gone[i]
    requires k < |seen + deletes|
    ensures IsPart((seen + deletes)[k], seen, page, gone, k)
  {
    if k < |seen| { assert seen[k] in seen; }
  }

  ghost predicate IsPart(x: Emission, seen: seq<Emission>, page: set<string>, gone: seq<string>, k: nat)
  {
    if k < |seen| then x == seen[k] && About(x.event, page)
    else x.event.MessageDelete? && k - |seen| < |gone| && x.event.id == gone[k-|seen|]
  }

  lemma EventAt(mem: Memory, p: Poll, k: nat)
    requires k < |TraceOf(mem, p)|
    ensures IsPart(TraceOf(mem, p)[k], Seen(mem, p).trace, PageIds(p), GoneIn(mem, p), k)
  {
    var seen, gone := Seen(mem, p), GoneIn(mem, p);
    TraceWhole(mem, p);
    DeleteAllEvents(seen.cache, p.channel, gone);
    ObserveAllAbout(mem.cache, PageMessages(p));
    EventOfParts(seen.trace, DeleteAll(seen.cache, p.channel, gone).trace, PageIds(p), gone, k);
  }

  lemma HarmlessKeys(mem: Memory, p: Poll)
    requires Harmless(mem, p)
    ensures KeysHeard(mem, p)
  {
    if CutShort(mem, p) { EventAt(mem, p, p.cut.value.at); }
  }

  lemma DeletedAreGone(mem: Memory, p: Poll)
    ensures DeletedIn(HeardIn(mem, p)) <= SeenIn(mem, p.channel)
  {
    forall e | e in HeardIn(mem, p) && e.MessageDelete? ensures e.id in SeenIn(mem, p.channel) {
      var k :| 0 <= k < HeardCount(mem, p) && HeardIn(mem, p)[k] == e;
      assert e == TraceOf(mem, p)[k].event;
      EventAt(mem, p, k);
      GoneProperties(mem, p);
    }
  }

  lemma {:induction false} NoDeletesGrow(client: Client, events: seq<Event>)
    requires NoDeletes(events)
    ensures client.Keys <= HearAll(client, events).Keys
  {
    if events != [] {
      NoDeletesGrow(client, events[..|events|-1]);
      assert events[|events|-1] in events;
    }
  }

  lemma HarmlessCutGrows(mem: Memory, p: Poll)
    requires CutShort(mem, p) && !TraceOf(mem, p)[p.cut.value.at].event.MessageDelete?
    ensures mem.cache.Keys <= MemoryAfter(mem, p).cache.Keys
  {
    var k := p.cut.value.at;
    EventAt(mem, p, k);
    PolledSourced(mem, p.channel, p.page);
    TraceSeen(mem, p, k + 1);
    NoneDeleted(mem.cache, PageMessages(p), k + 1);
    NoDeletesGrow(ViewOf(mem.cache), EventsIn(TraceOf(mem, p)[..k+1]));
    ViewKeys(mem.cache);
    ViewKeys(TraceOf(mem, p)[k].cache);
  }

  lemma CompletePollKeys(mem: Memory, p: Poll)
    requires !CutShort(mem, p)
    ensures MemoryAfter(mem, p).cache.Keys == mem.cache.Keys + PageIds(p) - ToSet(GoneIn(mem, p))
  {
    var seen, gone := Seen(mem, p), GoneIn(mem, p);
    ObserveAllKeys(mem.cache, PageMessages(p));
    DeleteAllSourced(seen.cache, p.channel, gone);
    HearDeletes(ViewOf(seen.cache), seen.cache, p.channel, gone);
    ViewKeys(seen.cache);
    ViewKeys(DeleteAll(seen.cache, p.channel, gone).cache);
    if p.page.None? { assert PageIds(p) == {} && ToSet(gone) == {}; }
  }

  /** The bookkeeping of a poll that is not cut, on any two memories it relates. */
  lemma OwnedStep(mem: Memory, next: Memory, channel: string, page: set<string>, gone: set<string>,
                  owner: string -> string)
    requires Owned(mem, owner) && gone <= SeenIn(mem, channel) && gone !! page
    requires forall id :: id in page ==> owner(id) == channel && id != ""
    requires next.channelIds == mem.channelIds[channel := page] && next.cache.Keys == mem.cache.Keys + page - gone
    ensures Owned(next, owner)
  {
    forall c, id | c in next.channelIds && id in next.channelIds[c]
      ensures id in next.cache.Keys && owner(id) == c && id != ""
    {
      if c != channel {
        assert c in mem.channelIds && id in mem.channelIds[c];
        assert channel in mem.channelIds && id in mem.channelIds[channel] ==> owner(id) == channel;
      }
    }
  }

  lemma PageIsOwned(p: Poll, owner: string -> string)
    requires Unshared([p], owner)
    ensures forall id :: id in PageIds(p) ==> owner(id) == p.channel && id != ""
  {
    assert p in [p];
    if p.page.Some? { MessageIds(p.page.value, p.channel); }
  }

  lemma IdsAfter(mem: Memory, p: Poll)
    ensures MemoryAfter(mem, p).channelIds ==
              if CutShort(mem, p) || p.page.None? then mem.channelIds else mem.channelIds[p.channel := PageIds(p)]
  {
  }

  lemma OwnedGrows(mem: Memory, next: Memory, owner: string -> string)
    requires Owned(mem, owner) && next.channelIds == mem.channelIds && mem.cache.Keys <= next.cache.Keys
    ensures Owned(next, owner)
  {
  }

  lemma GoneSet(mem: Memory, p: Poll)
    ensures ToSet(GoneIn(mem, p)) <= SeenIn(mem, p.channel) && ToSet(GoneIn(mem, p)) !! PageIds(p)
  {
    GoneProperties(mem, p);
  }

  lemma OwnedAfter(mem: Memory, p: Poll, owner: string -> string)
    requires Owned(mem, owner) && Unshared([p], owner) && Harmless(mem, p)
    ensures Owned(MemoryAfter(mem, p), owner)
  {
    IdsAfter(mem, p);
    if CutShort(mem, p) {
      HarmlessCutGrows(mem, p);
      OwnedGrows(mem, MemoryAfter(mem, p), owner);
    } else if p.page.Some? {
      CompletePollKeys(mem, p);
      PageIsOwned(p, owner);
      GoneSet(mem, p);
      OwnedStep(mem, MemoryAfter(mem, p), p.channel, PageIds(p), ToSet(GoneIn(mem, p)), owner);
    }
  }

  ghost predicate Sound(h: History, owner: string -> string)
  {
    FitsAll(map[], h.events) && ClientOf(h).Keys == h.memory.cache.Keys && Owned(h.memory, owner)
  }

  lemma OwnedSeen(mem: Memory, channel: string, owner: string -> string)
    requires Owned(mem, owner)
    ensures SeenIn(mem, channel) <= mem.cache.Keys
  {
  }

  lemma Chain<T>(a: set<T>, b: set<T>, c: set<T>)
    requires a <= b && b <= c
    ensures a <= c
  {
  }

  lemma OwnedIsKnown(mem: Memory, p: Poll, owner: string -> string)
    requires Owned(mem, owner)
    ensures DeletesKnown(mem, p)
  {
    DeletedAreGone(mem, p);
    OwnedSeen(mem, p.channel, owner);
    Chain(DeletedIn(HeardIn(mem, p)), SeenIn(mem, p.channel), mem.cache.Keys);
  }

  lemma SoundAfter(h: History, p: Poll, owner: string -> string)
    requires Sound(h, owner) && Unshared([p], owner) && Harmless(h.memory, p)
    ensures Sound(After(h, p), owner)
  {
    HarmlessKeys(h.memory, p);
    OwnedIsKnown(h.memory, p, owner);
    AfterFitsIff(h, p);
    OwnedAfter(h.memory, p, owner);
  }

  lemma UnsharedParts(polls: seq<Poll>, owner: string -> string)
    requires polls != [] && Unshared(polls, owner)
    ensures Unshared(polls[..|polls|-1], owner) && Unshared([polls[|polls|-1]], owner)
  {
    assert forall p :: p in polls[..|polls|-1] ==> p in polls;
  }

  lemma {:induction false} RunSound(h: History, polls: seq<Poll>, owner: string -> string)
    requires Sound(h, owner) && Unshared(polls, owner) && HarmlessFrom(h, polls)
    ensures Sound(RunFrom(h, polls), owner)
  {
    if polls != [] {
      UnsharedParts(polls, owner);
      RunSound(h, polls[..|polls|-1], owner);
      SoundAfter(RunFrom(h, polls[..|polls|-1]), polls[|polls|-1], owner);
    }
  }

  /** In every run of channels that share no messages, full pages and harmless cuts included,
      the events of every message are in order. */
  lemma {:induction false} EventGrammar(polls: seq<Poll>, owner: string -> string)
    requires Unshared(polls, owner) && HarmlessFrom(START, polls)
    ensures Grammatical(Run(polls).events)
  {
    RunSound(START, polls, owner);
    FitsGrammatical(Run(polls).events);
  }

  // ----- Pages that tell two states apart -----

  /** An entry with the given compared fields. */
  function Entry(id: string, c: Compared): RawEntry
  {
    RawMessage(id, map["content" := c.content, "edited_timestamp" := c.editedTimestamp, "pinned" := c.pinned,
                       "attachments" := c.attachments, "embeds" := c.embeds, "flags" := c.flags], [])
  }

  lemma {:induction false} DefaultsKeep(fields: Fields, defaults: seq<(string, Json)>, key: string)
    requires key in fields
    ensures key in SetDefaults(fields, defaults) && SetDefaults(fields, defaults)[key] == fields[key]
    decreases |defaults|
  {
    if defaults != [] {
      var (k, v) := defaults[0];
      DefaultsKeep(if k in fields then fields else fields[k := v], defaults[1..], key);
    }
  }

  lemma EntryCompared(id: string, c: Compared, channel: string)
    ensures ComparedOf(Normalize(Entry(id, c), channel).fields) == c
  {
    var fields := Entry(id, c).fields;
    forall key | key in fields ensures Get(SetDefaults(fields, Defaults(channel)), key) == fields[key] {
      DefaultsKeep(fields, Defaults(channel), key);
    }
  }

  lemma OneMessage(e: RawEntry, channel: string)
    requires e.RawMessage? && e.id != ""
    ensures Messages([e], channel) == [Normalize(e, channel)] && IdsOf([Normalize(e, channel)]) == {e.id}
  {
    assert [e][1..] == [];
    assert [] + [Normalize(e, channel)] == [Normalize(e, channel)];
  }

  lemma ObserveOne(cache: Cache, m: Message)
    ensures ObserveAll(cache, [m]) == Observe(cache, m)
  {
    assert [m][..0] == [];
    assert [] + Observe(cache, m).trace == Observe(cache, m).trace;
  }

  function PageOf(channel: string, e: RawEntry): Poll
  {
    Poll(channel, Some([e]), None)
  }

  lemma FirstOfPage(mem: Memory, channel: string, e: RawEntry)
    requires e.RawMessage? && e.id != "" && Observe(mem.cache, Normalize(e, channel)).trace != []
    ensures HeardIn(mem, PageOf(channel, e)) != []
    ensures HeardIn(mem, PageOf(channel, e))[0] == Observe(mem.cache, Normalize(e, channel)).trace[0].event
    ensures PageIds(PageOf(channel, e)) == {e.id}
  {
    var p := PageOf(channel, e);
    OneMessage(e, channel);
    ObserveOne(mem.cache, Normalize(e, channel));
    TraceWhole(mem, p);
  }

  lemma FirstMisfit(h: History, p: Poll)
    requires HeardIn(h.memory, p) != [] && !Fits(ClientOf(h), HeardIn(h.memory, p)[0])
    ensures !FitsAll(map[], After(h, p).events)
  {
    var heard := HeardIn(h.memory, p);
    HearConcat(map[], h.events, heard);
    assert heard[..0] == [];
    if FitsAll(ClientOf(h), heard) { FitsPrefix(ClientOf(h), heard, 0); }
  }

  lemma EmptyPage(mem: Memory, channel: string)
    ensures var p := Poll(channel, Some([]), None);
            && PageMessages(p) == [] && PageIds(p) == {}
            && Seen(mem, p) == Outcome(mem.cache, [])
            && ToSet(GoneIn(mem, p)) == SeenIn(mem, channel)
  {
    var p := Poll(channel, Some([]), None);
    assert PageMessages(p) == [] && IdsOf([]) == {};
    assert SeenIn(mem, channel) - {} == SeenIn(mem, channel);
  }

  lemma HeardWhole(mem: Memory, p: Poll, trace: seq<Emission>)
    requires !CutShort(mem, p) && TraceOf(mem, p) == trace
    ensures HeardIn(mem, p) == EventsIn(trace)
  {
    assert trace[..|trace|] == trace;
  }

  lemma EmptyPageDeletes(mem: Memory, channel: string)
    ensures DeletedIn(HeardIn(mem, Poll(channel, Some([]), None))) == SeenIn(mem, channel)
    ensures PageIds(Poll(channel, Some([]), None)) == {}
  {
    var p := Poll(channel, Some([]), None);
    var deletes := DeleteAll(mem.cache, channel, GoneIn(mem, p)).trace;
    EmptyPage(mem, channel);
    TraceWhole(mem, p);
    AddNothing(deletes);
    HeardWhole(mem, p, deletes);
    AllDeleted(mem.cache, channel, GoneIn(mem, p));
  }

  // ----- Exactly the harmless cuts -----

  /** The client at the broadcast that raised. */
  ghost function ClientAt(client: Client, mem: Memory, p: Poll): Client
    requires CutShort(mem, p)
  {
    HearAll(client, EventsIn(TraceOf(mem, p)[..p.cut.value.at]))
  }

  ghost function CutEvent(mem: Memory, p: Poll): Event
    requires CutShort(mem, p)
  {
    TraceOf(mem, p)[p.cut.value.at].event
  }

  lemma ClientAfter(h: History, p: Poll)
    requires CutShort(h.memory, p)
    ensures ClientOf(After(h, p)) ==
              var client := ClientAt(ClientOf(h), h.memory, p);
              if p.cut.value.served then Hear(client, CutEvent(h.memory, p)) else client
    ensures ViewOf(After(h, p).memory.cache) ==
              Hear(ClientAt(ViewOf(h.memory.cache), h.memory, p), CutEvent(h.memory, p))
  {
    var k := p.cut.value.at;
    HearConcat(map[], h.events, HeardIn(h.memory, p));
    OneMoreHeard(ClientOf(h), TraceOf(h.memory, p), k);
    OneMoreHeard(ViewOf(h.memory.cache), TraceOf(h.memory, p), k);
    PolledSourced(h.memory, p.channel, p.page);
  }

  lemma FitsAt(client: Client, mem: Memory, p: Poll)
    requires client.Keys == mem.cache.Keys && CutShort(mem, p) && !CutEvent(mem, p).MessageDelete?
    ensures About(CutEvent(mem, p), PageIds(p)) && Fits(ClientAt(client, mem, p), CutEvent(mem, p))
  {
    var k := p.cut.value.at;
    EventAt(mem, p, k);
    ObservedFits(client, mem, p);
    TraceSeen(mem, p, k);
    EventsPrefix(Seen(mem, p).trace, k);
    FitsPrefix(client, EventsIn(Seen(mem, p).trace), k);
  }

  lemma DeletesLeave(client: Client, mem: Memory, p: Poll, j: nat)
    requires client.Keys == mem.cache.Keys && j < |GoneIn(mem, p)| && GoneIn(mem, p)[j] in mem.cache
    ensures GoneIn(mem, p)[j] in HearAll(client, WithDeletes(mem, p, j))
  {
    var cache, gone := Seen(mem, p).cache, GoneIn(mem, p)[..j];
    var observed := EventsIn(Seen(mem, p).trace);
    ObservedFits(client, mem, p);
    HearConcat(client, observed, EventsIn(DeleteAll(cache, p.channel, gone).trace));
    HearDeletes(HearAll(client, observed), cache, p.channel, gone);
    GoneProperties(mem, p);
  }

  lemma DeletePart(x: Emission, seen: seq<Emission>, page: set<string>, gone: seq<string>, k: nat)
    requires IsPart(x, seen, page, gone, k) && x.event.MessageDelete?
    ensures k >= |seen| && k - |seen| < |gone| && x.event.id == gone[k-|seen|]
  {
  }

  lemma DeleteIndex(mem: Memory, p: Poll) returns (j: nat)
    requires CutShort(mem, p) && CutEvent(mem, p).MessageDelete?
    ensures p.cut.value.at == |Seen(mem, p).trace| + j && j < |GoneIn(mem, p)|
    ensures CutEvent(mem, p).id == GoneIn(mem, p)[j]
  {
    var k := p.cut.value.at;
    EventAt(mem, p, k);
    DeletePart(TraceOf(mem, p)[k], Seen(mem, p).trace, PageIds(p), GoneIn(mem, p), k);
    j := k - |Seen(mem, p).trace|;
  }

  lemma GoneIsSeen(mem: Memory, p: Poll, j: nat)
    requires j < |GoneIn(mem, p)|
    ensures GoneIn(mem, p)[j] in SeenIn(mem, p.channel)
  {
    GoneProperties(mem, p);
  }

  lemma StillHeld(client: Client, mem: Memory, p: Poll, j: nat)
    requires client.Keys == mem.cache.Keys && j < |GoneIn(mem, p)| && GoneIn(mem, p)[j] in mem.cache
    ensures |Seen(mem, p).trace| + j <= |TraceOf(mem, p)|
    ensures GoneIn(mem, p)[j] in HearAll(client, EventsIn(TraceOf(mem, p)[..|Seen(mem, p).trace| + j]))
  {
    TraceDeletes(mem, p, j);
    DeletesLeave(client, mem, p, j);
  }

  lemma DeleteAt(client: Client, mem: Memory, p: Poll, owner: string -> string)
    requires client.Keys == mem.cache.Keys && Owned(mem, owner)
    requires CutShort(mem, p) && CutEvent(mem, p).MessageDelete?
    ensures CutEvent(mem, p).id in SeenIn(mem, p.channel) && CutEvent(mem, p).id in ClientAt(client, mem, p)
  {
    var j := DeleteIndex(mem, p);
    GoneIsSeen(mem, p, j);
    OwnedSeen(mem, p.channel, owner);
    StillHeld(client, mem, p, j);
  }

  /** A create that went past the client: the next change of the message is an update of an unknown one. */
  lemma UnservedCreateMisfits(h: History, p: Poll, owner: string -> string) returns (q: Poll)
    requires Sound(h, owner) && Unshared([p], owner) && CutShort(h.memory, p)
    requires CutEvent(h.memory, p).MessageCreate? && !p.cut.value.served
    ensures q.cut.None? && Unshared([q], owner)
    ensures !FitsAll(map[], After(After(h, p), q).events)
  {
    var id := CutEvent(h.memory, p).id;
    var next := After(h, p);
    FitsAt(ClientOf(h), h.memory, p);
    ClientAfter(h, p);
    PageIsOwned(p, owner);
    ViewKeys(next.memory.cache);
    var cached := ComparedOf(next.memory.cache[id].fields);
    var c := cached.(content := if cached.content == Str("a") then Str("b") else Str("a"));
    EntryCompared(id, c, p.channel);
    q := PageOf(p.channel, Entry(id, c));
    FirstOfPage(next.memory, p.channel, Entry(id, c));
    FirstMisfit(next, q);
  }

  lemma OwnedId(mem: Memory, channel: string, id: string, owner: string -> string)
    requires Owned(mem, owner) && id in SeenIn(mem, channel)
    ensures id != "" && owner(id) == channel
  {
    assert channel in mem.channelIds && id in mem.channelIds[channel] ==> id in mem.cache && owner(id) == channel;
  }

  /** After a cut in the deletes the message is known to the channel but not cached, and the
      client has it if it was not served. */
  lemma AfterDeleteCut(h: History, p: Poll, owner: string -> string)
    requires Sound(h, owner) && CutShort(h.memory, p) && CutEvent(h.memory, p).MessageDelete?
    ensures var id, next := CutEvent(h.memory, p).id, After(h, p);
            && id != "" && owner(id) == p.channel
            && id in SeenIn(next.memory, p.channel) && id !in next.memory.cache
            && (id in ClientOf(next) <==> !p.cut.value.served)
  {
    DeleteAt(ClientOf(h), h.memory, p, owner);
    OwnedId(h.memory, p.channel, CutEvent(h.memory, p).id, owner);
    IdsAfter(h.memory, p);
    SameSeen(h.memory, After(h, p).memory, p.channel);
    ClientAfter(h, p);
    ViewKeys(After(h, p).memory.cache);
  }

  lemma SameSeen(a: Memory, b: Memory, channel: string)
    requires a.channelIds == b.channelIds
    ensures SeenIn(a, channel) == SeenIn(b, channel)
  {
  }

  /** A known id that is neither cached nor held is deleted by the next empty page. */
  lemma DeletedAgain(h: History, channel: string, id: string)
    requires id in SeenIn(h.memory, channel) && id !in h.memory.cache && ClientOf(h).Keys == h.memory.cache.Keys
    ensures !FitsAll(map[], After(h, Poll(channel, Some([]), None)).events)
  {
    EmptyPageDeletes(h.memory, channel);
    AfterFitsIff(h, Poll(channel, Some([]), None));
  }

  /** A message that the client holds but the cache does not is created again when it comes back. */
  lemma CreatedAgain(h: History, channel: string, id: string) returns (e: RawEntry)
    requires id !in h.memory.cache && id in ClientOf(h) && id != ""
    ensures PageIds(PageOf(channel, e)) == {id} && !FitsAll(map[], After(h, PageOf(channel, e)).events)
  {
    e := Entry(id, Compared(Null, Null, Null, Null, Null, Null));
    FirstOfPage(h.memory, channel, e);
    FirstMisfit(h, PageOf(channel, e));
  }

  lemma DeleteMisfits(h: History, p: Poll, owner: string -> string) returns (q: Poll)
    requires Sound(h, owner) && CutShort(h.memory, p) && CutEvent(h.memory, p).MessageDelete?
    ensures q.cut.None? && Unshared([q], owner)
    ensures !FitsAll(map[], After(After(h, p), q).events)
  {
    AfterDeleteCut(h, p, owner);
    if p.cut.value.served {
      PollKeys(ClientOf(h), h.memory, p);
      HearConcat(map[], h.events, HeardIn(h.memory, p));
      EmptyPageDeletes(After(h, p).memory, p.channel);
      DeletedAgain(After(h, p), p.channel, CutEvent(h.memory, p).id);
      q := Poll(p.channel, Some([]), None);
    } else {
      var e := CreatedAgain(After(h, p), p.channel, CutEvent(h.memory, p).id);
      q := PageOf(p.channel, e);
    }
  }

  lemma OneMorePoll(h: History, q: Poll)
    ensures RunFrom(h, [q]) == After(h, q)
  {
    assert [q][..0] == [];
  }

  ghost predicate Complete(polls: seq<Poll>)
  {
    forall p :: p in polls ==> p.cut.None?
  }

  lemma {:induction false} CompleteHarmless(h: History, polls: seq<Poll>)
    requires Complete(polls)
    ensures HarmlessFrom(h, polls)
  {
    if polls != [] {
      assert polls[|polls|-1] in polls;
      assert forall p :: p in polls[..|polls|-1] ==> p in polls;
      CompleteHarmless(h, polls[..|polls|-1]);
    }
  }

  /** The grammar holds for a run of complete polls from here on. */
  ghost predicate StaysInOrder(h: History, more: seq<Poll>)
  {
    FitsAll(map[], RunFrom(h, more).events)
  }

  /** A cut lets every later run of complete polls keep the events in order if and only if it is harmless. */
  lemma CutKeepsOrderIff(h: History, p: Poll, owner: string -> string)
    requires Sound(h, owner) && Unshared([p], owner)
    ensures Harmless(h.memory, p) <==>
            forall more :: Unshared(more, owner) && Complete(more) ==> StaysInOrder(After(h, p), more)
  {
    if Harmless(h.memory, p) {
      SoundAfter(h, p, owner);
      forall more | Unshared(more, owner) && Complete(more) ensures StaysInOrder(After(h, p), more) {
        CompleteHarmless(After(h, p), more);
        RunSound(After(h, p), more, owner);
      }
    } else {
      var q;
      if CutEvent(h.memory, p).MessageCreate? {
        q := UnservedCreateMisfits(h, p, owner);
      } else {
        q := DeleteMisfits(h, p, owner);
      }
      OneMorePoll(After(h, p), q);
      assert Unshared([q], owner) && Complete([q]) && !StaysInOrder(After(h, p), [q]);
    }
  }

  // ----- Inputs that break the order -----

  lemma DeleteOne(cache: Cache, channel: string, id: string)
    ensures DeleteAll(cache, channel, [id]) ==
              Outcome(cache - {id}, [Emission(DeleteEvent(cache, channel, id), cache - {id})])
  {
    assert [id][..0] == [];
  }

  lemma SortedOne(id: string)
    ensures Sorted({id}) == [id]
  {
    assert Sorted({id})[0] in Sorted({id});
  }

  /** A page of one message on a channel without known ids. */
  lemma FirstPolled(mem: Memory, channel: string, e: RawEntry)
    requires e.RawMessage? && e.id != "" && SeenIn(mem, channel) == {}
    ensures var next := Observe(mem.cache, Normalize(e, channel));
            Polled(mem, channel, Some([e])) == (Memory(next.cache, mem.channelIds[channel := {e.id}]), next.trace)
  {
    var m := Normalize(e, channel);
    OneMessage(e, channel);
    ObserveOne(mem.cache, m);
    assert Gone(mem, channel, [e]) == [];
    AddNothing(Observe(mem.cache, m).trace);
  }

  lemma EmptyPolled(mem: Memory, channel: string, id: string)
    requires SeenIn(mem, channel) == {id}
    ensures Polled(mem, channel, Some([])) ==
              (Memory(mem.cache - {id}, mem.channelIds[channel := {}]),
               [Emission(DeleteEvent(mem.cache, channel, id), mem.cache - {id})])
  {
    assert Messages([], channel) == [] && IdsOf([]) == {};
    assert SeenIn(mem, channel) - {} == {id};
    SortedOne(id);
    DeleteOne(mem.cache, channel, id);
  }

  lemma CreateDeleteDelete(c: Event, d1: Event, d2: Event, id: string)
    requires c.MessageCreate? && d1.MessageDelete? && d2.MessageDelete?
    requires c.id == id && d1.id == id && d2.id == id
    ensures Lifecycle([c, d1, d2], id) == [true, false, false]
  {
    assert [c, d1, d2][..2] == [c, d1] && [c, d1][..1] == [c] && [c][..0] == [];
    assert Lifecycle([c], id) == [true];
    assert Lifecycle([c, d1], id) == [true, false];
  }

  lemma FirstTrace(e: RawEntry, cut: Option<Cut>)
    requires e.RawMessage? && e.id != ""
    ensures var m := Normalize(e, "a");
            TraceOf(START.memory, Poll("a", Some([e]), cut)) ==
              [Emission(MessageCreate(e.id, m.fields), map[e.id := m])]
  {
    FirstPolled(START.memory, "a", e);
  }

  lemma EventsOne(x: Emission)
    ensures EventsIn([x][..1]) == [x.event] && EventsIn([x][..0]) == []
  {
  }

  /** The first page of a run, with one message. */
  lemma AfterFirst(e: RawEntry)
    requires e.RawMessage? && e.id != ""
    ensures var m := Normalize(e, "a");
            After(START, Poll("a", Some([e]), None)) ==
              History(Memory(map[e.id := m], map["a" := {e.id}]), [MessageCreate(e.id, m.fields)])
  {
    FirstPolled(START.memory, "a", e);
    FirstTrace(e, None);
    EventsOne(TraceOf(START.memory, Poll("a", Some([e]), None))[0]);
  }

  /** An empty page, cut or not, of a channel that knows one id. */
  lemma AfterEmpty(h: History, channel: string, id: string, cut: Option<Cut>)
    requires SeenIn(h.memory, channel) == {id} && (cut.None? || cut == Some(Cut(0, true)))
    ensures var next := After(h, Poll(channel, Some([]), cut));
            && next.events == h.events + [DeleteEvent(h.memory.cache, channel, id)]
            && next.memory.cache == h.memory.cache - {id}
            && next.memory.channelIds ==
                 if cut.None? then h.memory.channelIds[channel := {}] else h.memory.channelIds
  {
    EmptyPolled(h.memory, channel, id);
    var trace := TraceOf(h.memory, Poll(channel, Some([]), cut));
    assert trace[..1] == trace && EventsIn(trace) == [DeleteEvent(h.memory.cache, channel, id)];
  }

  lemma RunMore(polls: seq<Poll>, p: Poll)
    ensures Run(polls + [p]) == After(Run(polls), p)
  {
    assert (polls + [p])[..|polls|] == polls;
  }

  lemma RunTwo(p: Poll, q: Poll)
    ensures Run([p, q]) == After(After(START, p), q)
  {
    OneMorePoll(START, p);
    RunMore([p], q);
    assert [p] + [q] == [p, q];
  }

  lemma RunThree(p: Poll, q: Poll, r: Poll)
    ensures Run([p, q, r]) == After(After(After(START, p), q), r)
  {
    RunTwo(p, q);
    RunMore([p, q], r);
    assert [p, q] + [r] == [p, q, r];
  }

  lemma TwoDeletes(c: Event, d: Event, f: Event, id: string)
    requires c.MessageCreate? && d.MessageDelete? && f.MessageDelete? && c.id == id && d.id == id && f.id == id
    ensures Lifecycle([c] + [d] + [f], id) == [true, false, false]
  {
    assert [c] + [d] + [f] == [c, d, f];
    CreateDeleteDelete(c, d, f, id);
  }

  /** A peer that closes during the delete gets the message deleted twice in a row for the others. */
  lemma CutDeleteComesTwice(e: RawEntry)
    requires e.RawMessage? && e.id != ""
    ensures Lifecycle(Run([Poll("a", Some([e]), None), Poll("a", Some([]), Some(Cut(0, true))),
                           Poll("a", Some([]), None)]).events, e.id) == [true, false, false]
  {
    var p, q, r := Poll("a", Some([e]), None), Poll("a", Some([]), Some(Cut(0, true))), Poll("a", Some([]), None);
    AfterFirst(e);
    var h1 := After(START, p);
    AfterEmpty(h1, "a", e.id, q.cut);
    var h2 := After(h1, q);
    AfterEmpty(h2, "a", e.id, None);
    RunThree(p, q, r);
    TwoDeletes(h1.events[0], DeleteEvent(h1.memory.cache, "a", e.id), DeleteEvent(h2.memory.cache, "a", e.id), e.id);
  }

  lemma {:induction false} DefaultsGet(f: Fields, g: Fields, a: seq<(string, Json)>, b: seq<(string, Json)>,
                                       key: string)
    requires f.Keys == g.Keys && Get(f, key) == Get(g, key)
    requires |a| == |b| && forall i :: 0 <= i < |a| ==> a[i].0 == b[i].0 && (a[i].0 == key ==> a[i] == b[i])
    ensures Get(SetDefaults(f, a), key) == Get(SetDefaults(g, b), key)
    decreases |a|
  {
    if a != [] {
      var (k, v) := a[0];
      DefaultsGet(if k in f then f else f[k := v], if k in g then g else g[k := b[0].1], a[1..], b[1..], key);
    }
  }

  /** The channel a message is polled from does not matter to the six compared fields. */
  lemma NormalizeCompared(e: RawEntry, a: string, b: string)
    requires e.RawMessage?
    ensures ComparedOf(Normalize(e, a).fields) == ComparedOf(Normalize(e, b).fields)
  {
    forall key | key != "channel_id"
      ensures Get(SetDefaults(e.fields, Defaults(a)), key) == Get(SetDefaults(e.fields, Defaults(b)), key)
    {
      DefaultsGet(e.fields, e.fields, Defaults(a), Defaults(b), key);
    }
  }

  /** The same message on another channel: nothing is said, and both channels know its id. */
  lemma AfterShared(h: History, e: RawEntry)
    requires e.RawMessage? && e.id != "" && e.reactions == []
    requires h.memory == Memory(map[e.id := Normalize(e, "a")], map["a" := {e.id}])
    ensures var next := After(h, Poll("b", Some([e]), None));
            && next.memory.cache == h.memory.cache && next.events == h.events
            && SeenIn(next.memory, "a") == {e.id} && SeenIn(next.memory, "b") == {e.id}
  {
    NormalizeCompared(e, "a", "b");
    FirstPolled(h.memory, "b", e);
    assert Observe(h.memory.cache, Normalize(e, "b")).trace == [];
    var p := Poll("b", Some([e]), None);
    assert EventsIn(TraceOf(h.memory, p)[..0]) == [];
  }

  lemma RunFour(p: Poll, q: Poll, r: Poll, t: Poll)
    ensures Run([p, q, r, t]) == After(After(After(After(START, p), q), r), t)
  {
    RunThree(p, q, r);
    RunMore([p, q, r], t);
    assert [p, q, r] + [t] == [p, q, r, t];
  }

  /** Two channels that report the same message get it deleted twice in a row. */
  lemma SharedIdDeletedTwice(e: RawEntry)
    requires e.RawMessage? && e.id != "" && e.reactions == []
    ensures Lifecycle(Run([Poll("a", Some([e]), None), Poll("b", Some([e]), None),
                           Poll("a", Some([]), None), Poll("b", Some([]), None)]).events, e.id) == [true, false, false]
  {
    var p, q := Poll("a", Some([e]), None), Poll("b", Some([e]), None);
    var r, t := Poll("a", Some([]), None), Poll("b", Some([]), None);
    AfterFirst(e);
    AfterShared(After(START, p), e);
    var h2 := After(After(START, p), q);
    AfterEmpty(h2, "a", e.id, None);
    var h3 := After(h2, r);
    AfterEmpty(h3, "b", e.id, None);
    RunFour(p, q, r, t);
    TwoDeletes(h2.events[0], DeleteEvent(h2.memory.cache, "a", e.id), DeleteEvent(h3.memory.cache, "b", e.id), e.id);
  }
}

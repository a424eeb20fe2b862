/** Turning polled message pages into Gateway events, and the cache behind it. */
module Polling {
  import opened Text
  import opened Discord
  import opened Gateway

  const PAGE_LIMIT := 25

  // ----- Pages -----

  /** One element of a message's reactions list; key is the emoji's id or name, "" when it has neither. */
  datatype RawReaction = RawReaction(key: string, count: int, emoji: Json)

  /** One element of a page: id is the text of the message id, "" when there is none. */
  datatype RawEntry = NotAnObject | RawMessage(id: string, fields: Fields, reactions: seq<RawReaction>)

  /** None stands for every poll that did not return a list. */
  type Page = Option<seq<RawEntry>>

  /** A dict from emoji key to count and emoji, in insertion order. */
  type Reactions = seq<RawReaction>

  datatype Message = Message(id: string, fields: Fields, reactions: Reactions)

  function PutReaction(counts: Reactions, r: RawReaction): Reactions
  {
    if counts == [] then [r]
    else if counts[0].key == r.key then [r] + counts[1..]
    else [counts[0]] + PutReaction(counts[1..], r)
  }

  function ReactionCounts(raw: seq<RawReaction>): Reactions
  {
    if raw == [] then []
    else
      var counts := ReactionCounts(raw[..|raw|-1]);
      if raw[|raw|-1].key == "" then counts else PutReaction(counts, raw[|raw|-1])
  }

  function FindReaction(counts: Reactions, key: string): Option<RawReaction>
  {
    if counts == [] then None
    else if counts[0].key == key then Some(counts[0])
    else FindReaction(counts[1..], key)
  }

  /** dict equality: the order of the keys does not matter. */
  predicate SameReactions(a: Reactions, b: Reactions)
  {
    && (forall r :: r in a ==> FindReaction(b, r.key) == FindReaction(a, r.key))
    && (forall r :: r in b ==> FindReaction(b, r.key) == FindReaction(a, r.key))
  }

  const FALSE := Num(0.0)

  /** The setdefault calls that fill in a message, in order. */
  function Defaults(channel: string): seq<(string, Json)>
  {
    [("channel_id", Str(channel)), ("type", Num(0.0)), ("content", Str("")), ("mentions", Arr([])),
     ("mention_roles", Arr([])), ("mention_everyone", FALSE), ("attachments", Arr([])), ("embeds", Arr([])),
     ("pinned", FALSE), ("tts", FALSE)]
  }

  function SetDefaults(fields: Fields, defaults: seq<(string, Json)>): Fields
    decreases |defaults|
  {
    if defaults == [] then fields
    else
      var (key, value) := defaults[0];
      SetDefaults(if key in fields then fields else fields[key := value], defaults[1..])
  }

  function Normalize(raw: RawEntry, channel: string): Message
    requires raw.RawMessage?
  {
    Message(raw.id, SetDefaults(raw.fields, Defaults(channel)), ReactionCounts(raw.reactions))
  }

  /** The entries that the poll looks at, in the order it looks at them: oldest first. */
  function Messages(page: seq<RawEntry>, channel: string): seq<Message>
  {
    if page == [] then []
    else
      var rest := Messages(page[1..], channel);
      if page[0].NotAnObject? || page[0].id == "" then rest else rest + [Normalize(page[0], channel)]
  }

  // ----- One poll -----

  /** The six fields whose change makes an UPDATE. */
  datatype Compared = Compared(content: Json, editedTimestamp: Json, pinned: Json, attachments: Json, embeds: Json,
                               flags: Json)

  function ComparedOf(fields: Fields): Compared
  {
    Compared(Get(fields, "content"), Get(fields, "edited_timestamp"), Get(fields, "pinned"),
             Get(fields, "attachments"), Get(fields, "embeds"), Get(fields, "flags"))
  }

  function Truthy(v: Json): bool
  {
    match v
    case Null => false
    case Num(n) => n != 0.0
    case Str(s) => s != ""
    case Arr(items) => items != []
    case Obj(fields) => fields != map[]
  }

  function GuildOf(fields: Fields): Option<Json>
  {
    if Truthy(Get(fields, "guild_id")) then Some(Get(fields, "guild_id")) else None
  }

  function ReactionEvent(m: Message, was: int, r: RawReaction): Event
  {
    var channel, guild := Get(m.fields, "channel_id"), GuildOf(m.fields);
    if r.count > was then ReactionAdd(m.id, channel, r.emoji, guild) else ReactionRemove(m.id, channel, r.emoji, guild)
  }

  function CountIn(counts: Reactions, key: string): int
  {
    match FindReaction(counts, key)
    case None => 0
    case Some(r) => r.count
  }

  type Cache = map<string, Message>

  /** One broadcast, and the cache at the moment it starts. */
  datatype Emission = Emission(event: Event, cache: Cache)

  function EventsIn(trace: seq<Emission>): seq<Event>
  {
    seq(|trace|, i requires 0 <= i < |trace| => trace[i].event)
  }

  function ReactionDelta(was: int, m: Message, r: RawReaction, cache: Cache): seq<Emission>
  {
    if r.count == was then [] else [Emission(ReactionEvent(m, was, r), cache)]
  }

  /** Only the emojis still present produce events. */
  function ReactionDeltas(was: Reactions, m: Message, n: nat, cache: Cache): seq<Emission>
    requires n <= |m.reactions|
  {
    if n == 0 then []
    else ReactionDeltas(was, m, n - 1, cache) +
         ReactionDelta(CountIn(was, m.reactions[n-1].key), m, m.reactions[n-1], cache)
  }

  datatype Outcome = Outcome(cache: Cache, trace: seq<Emission>)

  function Observe(cache: Cache, m: Message): Outcome
  {
    if m.id !in cache then Outcome(cache[m.id := m], [Emission(MessageCreate(m.id, m.fields), cache[m.id := m])])
    else
      var previous := cache[m.id];
      var changed := ComparedOf(previous.fields) != ComparedOf(m.fields);
      var reactionsChanged := !SameReactions(previous.reactions, m.reactions);
      var shown := if changed then cache[m.id := m] else cache;
      Outcome(if changed || reactionsChanged then cache[m.id := m] else cache,
              (if changed then [Emission(MessageUpdate(m.id, m.fields), shown)] else []) +
              ReactionDeltas(previous.reactions, m, |m.reactions|, shown))
  }

  function ObserveAll(cache: Cache, ms: seq<Message>): Outcome
  {
    if ms == [] then Outcome(cache, [])
    else
      var before := ObserveAll(cache, ms[..|ms|-1]);
      var last := Observe(before.cache, ms[|ms|-1]);
      Outcome(last.cache, before.trace + last.trace)
  }

  function DeleteEvent(cache: Cache, channel: string, id: string): Event
  {
    MessageDelete(id, Str(channel), if id in cache then GuildOf(cache[id].fields) else None)
  }

  function DeleteAll(cache: Cache, channel: string, ids: seq<string>): Outcome
  {
    if ids == [] then Outcome(cache, [])
    else
      var before := DeleteAll(cache, channel, ids[..|ids|-1]);
      var id := ids[|ids|-1];
      Outcome(before.cache - {id},
              before.trace + [Emission(DeleteEvent(before.cache, channel, id), before.cache - {id})])
  }

  function IdsOf(ms: seq<Message>): set<string>
  {
    set m | m in ms :: m.id
  }

  /** The message cache and the ids seen on the last usable page of each channel. */
  datatype Memory = Memory(cache: Cache, channelIds: map<string, set<string>>)

  function SeenIn(mem: Memory, channel: string): set<string>
  {
    if channel in mem.channelIds then mem.channelIds[channel] else {}
  }

  /** The ids a page reports deleted, in order: a full page reports none. */
  function Gone(mem: Memory, channel: string, entries: seq<RawEntry>): seq<string>
  {
    if |entries| < PAGE_LIMIT then Sorted(SeenIn(mem, channel) - IdsOf(Messages(entries, channel))) else []
  }

  /** A poll whose every send succeeds. */
  function Polled(mem: Memory, channel: string, page: Page): (Memory, seq<Emission>)
  {
    match page
    case None => (mem, [])
    case Some(entries) =>
      var ms := Messages(entries, channel);
      var seen := ObserveAll(mem.cache, ms);
      var after := DeleteAll(seen.cache, channel, Gone(mem, channel, entries));
      (Memory(after.cache, mem.channelIds[channel := IdsOf(ms)]), seen.trace + after.trace)
  }

  // ----- The poller -----

  lemma {:induction false} HeardLive(p: PeerState, events: seq<Event>)
    ensures IsLive(Heard(p, events)) == IsLive(p)
  {
    if events != [] { HeardLive(p, events[..|events|-1]); }
  }

  lemma {:induction false} HeardMore(p: PeerState, events: seq<Event>, e: Event)
    ensures Heard(Heard(p, events), [e]) == Heard(p, events + [e])
  {
    HeardLive(p, events);
    assert (events + [e])[..|events|] == events && [e][..0] == [];
  }

  lemma EventsMore(log: seq<Emission>, x: Emission)
    ensures EventsIn(log + [x]) == EventsIn(log) + [x.event]
    ensures EventsIn(log + [x])[..|log|] == EventsIn(log)
  {
  }

  /** What a peer can have heard when the last of the broadcasts raised. */
  ghost predicate HeardUntilRaise(before: PeerState, after: PeerState, events: seq<Event>)
    requires events != []
  {
    var most := Heard(before, events[..|events|-1]);
    after == most || after == Heard(before, events) || (IsLive(before) && after == Raised(most, events[|events|-1]))
  }

  /** The peers that close during the broadcast of a given number. */
  type Closing = nat -> set<GatewayPeer>

  ghost predicate Breaks(origin: map<GatewayPeer, PeerState>, closing: set<GatewayPeer>)
  {
    exists p :: p in closing && p in origin && IsLive(origin[p])
  }

  lemma {:induction false} DeltasPrefix(was: Reactions, m: Message, i: nat, n: nat, cache: Cache)
    requires i <= n <= |m.reactions|
    ensures ReactionDeltas(was, m, i, cache) <= ReactionDeltas(was, m, n, cache)
  {
    if i < n { DeltasPrefix(was, m, i, n - 1, cache); }
  }

  lemma IdsOfMore(ms: seq<Message>, m: Message)
    ensures IdsOf(ms + [m]) == IdsOf(ms) + {m.id}
  {
  }

  lemma ObserveAllMore(cache: Cache, ms: seq<Message>, m: Message)
    ensures var before := ObserveAll(cache, ms);
            var last := Observe(before.cache, m);
            ObserveAll(cache, ms + [m]) == Outcome(last.cache, before.trace + last.trace)
  {
    assert (ms + [m])[..|ms|] == ms;
  }

  lemma {:induction false} MessagesSuffix(entries: seq<RawEntry>, channel: string, i: nat)
    requires i <= |entries|
    ensures Messages(entries[i..], channel) <= Messages(entries, channel)
  {
    if i == 0 {
      assert entries[0..] == entries;
    } else {
      MessagesSuffix(entries[1..], channel, i - 1);
      assert entries[1..][i-1..] == entries[i..];
    }
  }

  lemma {:induction false} ObserveAllPrefix(cache: Cache, some: seq<Message>, all: seq<Message>)
    returns (rest: seq<Emission>)
    requires some <= all
    ensures ObserveAll(cache, some).trace + rest == ObserveAll(cache, all).trace
  {
    var trace := ObserveAll(cache, some).trace;
    if some == all {
      AddNothing(trace);
      rest := [];
    } else {
      var before := all[..|all|-1];
      var first := ObserveAllPrefix(cache, some, before);
      var last := Observe(ObserveAll(cache, before).cache, all[|all|-1]).trace;
      Associative(trace, first, last);
      rest := first + last;
    }
  }

  lemma DeleteAllMore(cache: Cache, channel: string, gone: seq<string>, k: nat)
    requires k < |gone|
    ensures var before := DeleteAll(cache, channel, gone[..k]);
            DeleteAll(cache, channel, gone[..k+1]) ==
              Outcome(before.cache - {gone[k]},
                      before.trace + [Emission(DeleteEvent(before.cache, channel, gone[k]), before.cache - {gone[k]})])
  {
    assert gone[..k+1][..k] == gone[..k];
  }

  lemma {:induction false} DeleteAllPrefix(cache: Cache, channel: string, gone: seq<string>, k: nat)
    returns (rest: seq<Emission>)
    requires k <= |gone|
    ensures DeleteAll(cache, channel, gone[..k]).trace + rest == DeleteAll(cache, channel, gone).trace
  {
    var some := DeleteAll(cache, channel, gone[..k]).trace;
    if k == |gone| {
      assert gone[..k] == gone;
      AddNothing(some);
      rest := [];
    } else {
      var most, id := gone[..|gone|-1], gone[|gone|-1];
      assert most[..k] == gone[..k];
      var first := DeleteAllPrefix(cache, channel, most, k);
      var before := DeleteAll(cache, channel, most).cache;
      var last := [Emission(DeleteEvent(before, channel, id), before - {id})];
      Associative(some, first, last);
      rest := first + last;
    }
  }

  lemma StillPrefix<T>(log: seq<T>, some: seq<T>, rest: seq<T>)
    requires log <= some
    ensures log <= some + rest
  {
  }

  lemma NextDelta(log: seq<Emission>, was: Reactions, m: Message, i: nat, cache: Cache)
    requires i < |m.reactions|
    ensures var r := m.reactions[i];
            log + ReactionDeltas(was, m, i, cache) + ReactionDelta(CountIn(was, r.key), m, r, cache) ==
            log + ReactionDeltas(was, m, i + 1, cache)
  {
    var r := m.reactions[i];
    Associative(log, ReactionDeltas(was, m, i, cache), ReactionDelta(CountIn(was, r.key), m, r, cache));
  }

  lemma LongerTail<T>(log: seq<T>, some: seq<T>, all: seq<T>)
    requires some <= all
    ensures log + some <= log + all
  {
  }

  lemma DeltasCut(log: seq<Emission>, was: Reactions, m: Message, i: nat, cache: Cache)
    requires i <= |m.reactions|
    ensures log + ReactionDeltas(was, m, i, cache) <= log + ReactionDeltas(was, m, |m.reactions|, cache)
  {
    DeltasPrefix(was, m, i, |m.reactions|, cache);
    LongerTail(log, ReactionDeltas(was, m, i, cache), ReactionDeltas(was, m, |m.reactions|, cache));
  }

  /** A page that was cut at entry i. */
  lemma PagePrefix(cache: Cache, entries: seq<RawEntry>, channel: string, i: nat, log: seq<Emission>)
    requires i <= |entries| && log <= ObserveAll(cache, Messages(entries[i..], channel)).trace
    ensures log <= ObserveAll(cache, Messages(entries, channel)).trace
  {
    MessagesSuffix(entries, channel, i);
    var rest := ObserveAllPrefix(cache, Messages(entries[i..], channel), Messages(entries, channel));
    StillPrefix(log, ObserveAll(cache, Messages(entries[i..], channel)).trace, rest);
  }

  /** Deletes that were cut after the first k. */
  lemma DropPrefix(log: seq<Emission>, cache: Cache, channel: string, gone: seq<string>, k: nat)
    requires k <= |gone|
    ensures log + DeleteAll(cache, channel, gone[..k]).trace <= log + DeleteAll(cache, channel, gone).trace
  {
    var some := DeleteAll(cache, channel, gone[..k]).trace;
    var rest := DeleteAllPrefix(cache, channel, gone, k);
    Associative(log, some, rest);
  }

  class MessagePoller {
    var peers: set<GatewayPeer>
    var messageCache: Cache
    var channelMessageIds: map<string, set<string>>

    /** How many broadcasts of the current poll went through. */
    var sent: nat

    /** Those broadcasts, and the one that raised. */
    ghost var log: seq<Emission>

    ghost function Known(): Memory
      reads this
    {
      Memory(messageCache, channelMessageIds)
    }

    constructor ()
      ensures Known() == Memory(map[], map[]) && peers == {}
    {
      peers, messageCache, channelMessageIds, sent, log := {}, map[], map[], 0, [];
    }

    /** Every peer heard the broadcasts of the log, up to where the last one raised when not ok. */
    ghost predicate InStep(ok: bool, origin: map<GatewayPeer, PeerState>, closing: Closing)
      reads this, peers
    {
      && origin.Keys == peers
      && |log| == (if ok then sent else sent + 1)
      && (forall j: nat :: j < sent ==> !Breaks(origin, closing(j)))
      && (ok ==> forall p :: p in peers ==> p.State() == Heard(origin[p], EventsIn(log)))
      && (!ok ==> Breaks(origin, closing(sent)) && messageCache == log[sent].cache)
      && (!ok ==> forall p :: p in peers ==> HeardUntilRaise(origin[p], p.State(), EventsIn(log)))
    }

    method Emit(event: Event, ghost origin: map<GatewayPeer, PeerState>, closing: Closing) returns (ok: bool)
      requires InStep(true, origin, closing)
      modifies this`sent, this`log, peers
      ensures InStep(ok, origin, closing)
      ensures log == old(log) + [Emission(event, messageCache)]
    {
      ghost var events := EventsIn(log);
      EventsMore(log, Emission(event, messageCache));
      log := log + [Emission(event, messageCache)];
      forall p | p in peers
        ensures IsLive(p.State()) == IsLive(origin[p])
        ensures Heard(p.State(), [event]) == Heard(origin[p], EventsIn(log))
      {
        HeardLive(origin[p], events);
        HeardMore(origin[p], events, event);
      }
      ok := DispatchToAll(peers, event, closing(sent));
      if ok { sent := sent + 1; }
    }

    /** The event of one emoji, if its count changed. */
    method DispatchDelta(was: int, current: Message, r: RawReaction, ghost origin: map<GatewayPeer, PeerState>,
                         closing: Closing)
      returns (ok: bool)
      requires InStep(true, origin, closing)
      modifies this`sent, this`log, peers
      ensures InStep(ok, origin, closing)
      ensures log == old(log) + ReactionDelta(was, current, r, messageCache)
    {
      if r.count == was {
        AddNothing(log);
        return true;
      }
      var channel, guild := Get(current.fields, "channel_id"), GuildOf(current.fields);
      if r.count > was {
        ok := Emit(ReactionAdd(current.id, channel, r.emoji, guild), origin, closing);
      } else {
        ok := Emit(ReactionRemove(current.id, channel, r.emoji, guild), origin, closing);
      }
    }

    method DispatchReactionDeltas(previous: Message, current: Message, ghost origin: map<GatewayPeer, PeerState>,
                                  closing: Closing)
      returns (ok: bool)
      requires InStep(true, origin, closing)
      modifies this`sent, this`log, peers
      ensures InStep(ok, origin, closing)
      ensures var all := old(log) + ReactionDeltas(previous.reactions, current, |current.reactions|, messageCache);
              if ok then log == all else log <= all
    {
      ghost var before, was := log, previous.reactions;
      AddNothing(before);
      for i := 0 to |current.reactions|
        invariant InStep(true, origin, closing)
        invariant log == before + ReactionDeltas(was, current, i, messageCache)
      {
        NextDelta(before, was, current, i, messageCache);
        var r := current.reactions[i];
        ok := DispatchDelta(CountIn(previous.reactions, r.key), current, r, origin, closing);
        if !ok {
          DeltasCut(before, was, current, i + 1, messageCache);
          return;
        }
      }
      return true;
    }

    /** The entry of a message that is in the cache. */
    method ObserveKnown(message: Message, ghost origin: map<GatewayPeer, PeerState>, closing: Closing)
      returns (ok: bool)
      requires InStep(true, origin, closing) && message.id in messageCache
      modifies this`messageCache, this`sent, this`log, peers
      ensures InStep(ok, origin, closing)
      ensures ok ==> messageCache == Observe(old(messageCache), message).cache
      ensures var all := old(log) + Observe(old(messageCache), message).trace;
              if ok then log == all else log <= all
    {
      var previous := messageCache[message.id];
      var reactionsChanged := !SameReactions(previous.reactions, message.reactions);
      if ComparedOf(previous.fields) != ComparedOf(message.fields) {
        messageCache := messageCache[message.id := message];
        ghost var shown := [Emission(MessageUpdate(message.id, message.fields), messageCache)];
        ghost var deltas := ReactionDeltas(previous.reactions, message, |message.reactions|, messageCache);
        Associative(log, shown, deltas);
        ok := Emit(MessageUpdate(message.id, message.fields), origin, closing);
        if !ok { return; }
      }
      AddNothing(old(log));
      Associative(old(log), [], ReactionDeltas(previous.reactions, message, |message.reactions|, messageCache));
      ok := DispatchReactionDeltas(previous, message, origin, closing);
      if ok && reactionsChanged {
        messageCache := messageCache[message.id := message];
      }
    }

    /** One entry of a page, as the body of the poll's loop treats it. */
    method ObserveMessage(message: Message, ghost origin: map<GatewayPeer, PeerState>, closing: Closing)
      returns (ok: bool)
      requires InStep(true, origin, closing)
      modifies this`messageCache, this`sent, this`log, peers
      ensures InStep(ok, origin, closing)
      ensures ok ==> messageCache == Observe(old(messageCache), message).cache
      ensures var all := old(log) + Observe(old(messageCache), message).trace;
              if ok then log == all else log <= all
    {
      if message.id !in messageCache {
        messageCache := messageCache[message.id := message];
        ok := Emit(MessageCreate(message.id, message.fields), origin, closing);
      } else {
        ok := ObserveKnown(message, origin, closing);
      }
    }

    method ObservePage(entries: seq<RawEntry>, channel: string, ghost origin: map<GatewayPeer, PeerState>,
                       closing: Closing)
      returns (ok: bool, currentIds: set<string>)
      requires InStep(true, origin, closing) && log == []
      modifies this`messageCache, this`sent, this`log, peers
      ensures InStep(ok, origin, closing)
      ensures var all := ObserveAll(old(messageCache), Messages(entries, channel));
              if ok then currentIds == IdsOf(Messages(entries, channel)) && messageCache == all.cache &&
                  log == all.trace
              else log <= all.trace
    {
      currentIds := {};
      var i := |entries|;
      while i > 0
        invariant 0 <= i <= |entries|
        invariant InStep(true, origin, closing)
        invariant currentIds == IdsOf(Messages(entries[i..], channel))
        invariant ObserveAll(old(messageCache), Messages(entries[i..], channel)) == Outcome(messageCache, log)
      {
        i := i - 1;
        var raw := entries[i];
        ghost var done := Messages(entries[i+1..], channel);
        assert entries[i..][1..] == entries[i+1..];
        if raw.RawMessage? && raw.id != "" {
          var message := Normalize(raw, channel);
          IdsOfMore(done, message);
          ObserveAllMore(old(messageCache), done, message);
          currentIds := currentIds + {message.id};
          ok := ObserveMessage(message, origin, closing);
          if !ok {
            PagePrefix(old(messageCache), entries, channel, i, log);
            return;
          }
        }
      }
      assert entries[0..] == entries;
      return true, currentIds;
    }

    method DropMissing(gone: seq<string>, channel: string, ghost origin: map<GatewayPeer, PeerState>, closing: Closing)
      returns (ok: bool)
      requires InStep(true, origin, closing)
      modifies this`messageCache, this`sent, this`log, peers
      ensures InStep(ok, origin, closing)
      ensures var all := DeleteAll(old(messageCache), channel, gone);
              if ok then messageCache == all.cache && log == old(log) + all.trace else log <= old(log) + all.trace
    {
      AddNothing(log);
      for k := 0 to |gone|
        invariant InStep(true, origin, closing)
        invariant messageCache == DeleteAll(old(messageCache), channel, gone[..k]).cache
        invariant log == old(log) + DeleteAll(old(messageCache), channel, gone[..k]).trace
      {
        ghost var before := DeleteAll(old(messageCache), channel, gone[..k]).trace;
        DeleteAllMore(old(messageCache), channel, gone, k);
        var event := DeleteEvent(messageCache, channel, gone[k]);
        messageCache := messageCache - {gone[k]};
        ok := Emit(event, origin, closing);
        Associative(old(log), before, [Emission(event, messageCache)]);
        if !ok {
          DropPrefix(old(log), old(messageCache), channel, gone, k + 1);
          return;
        }
      }
      assert gone[..|gone|] == gone;
      return true;
    }

    /** The part of a poll that broadcasts. */
    method ShowPage(entries: seq<RawEntry>, channel: string, ghost origin: map<GatewayPeer, PeerState>,
                    closing: Closing)
      returns (ok: bool, currentIds: set<string>)
      requires InStep(true, origin, closing) && log == []
      modifies this`messageCache, this`sent, this`log, peers
      ensures InStep(ok, origin, closing)
      ensures var (next, all) := Polled(old(Known()), channel, Some(entries));
              if ok then currentIds == IdsOf(Messages(entries, channel)) && messageCache == next.cache && log == all
              else log <= all
    {
      ghost var seen := ObserveAll(messageCache, Messages(entries, channel));
      ghost var gone := Gone(Known(), channel, entries);
      ghost var after := DeleteAll(seen.cache, channel, gone);
      ok, currentIds := ObservePage(entries, channel, origin, closing);
      if !ok {
        StillPrefix(log, seen.trace, after.trace);
        return;
      }
      var previousIds := if channel in channelMessageIds then channelMessageIds[channel] else {};
      if |entries| < PAGE_LIMIT {
        ok := DropMissing(Sorted(previousIds - currentIds), channel, origin, closing);
      } else {
        AddNothing(seen.trace);
      }
    }

    /** No broadcast of this poll yet. */
    method StartPoll(closing: Closing) returns (ghost origin: map<GatewayPeer, PeerState>)
      modifies this`sent, this`log
      ensures forall p :: p in peers ==> p in origin && origin[p] == p.State()
      ensures InStep(true, origin, closing) && log == []
    {
      origin := map p | p in peers :: p.State();
      sent, log := 0, [];
      assert EventsIn(log) == [];
    }

    /** One poll. When a send raises, what was cached stays cached and the ids of the channel stay
        as they were. */
    method PollChannelMessages(channel: string, page: Page, closing: Closing)
      returns (ok: bool, ghost origin: map<GatewayPeer, PeerState>)
      modifies this`messageCache, this`channelMessageIds, this`sent, this`log, peers
      ensures forall p :: p in peers ==> p in origin && origin[p] == old(p.State())
      ensures InStep(ok, origin, closing)
      ensures var (next, all) := Polled(old(Known()), channel, page);
              if ok then Known() == next && log == all
              else channelMessageIds == old(channelMessageIds) && log <= all
    {
      origin := StartPoll(closing);
      if page == None {
        ok := true;
      } else {
        var currentIds;
        ok, currentIds := ShowPage(page.value, channel, origin, closing);
        if ok { channelMessageIds := channelMessageIds[channel := currentIds]; }
      }
    }
  }
}

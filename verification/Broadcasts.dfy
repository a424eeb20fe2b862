/** What each broadcast of a poll says, in terms of the pages that Discord sent. */
module Broadcasts {
  import opened Text
  import opened Discord
  import opened Polling
  import opened Mirror

  // ----- Reaction counts -----

  /** A dict has one entry per key. */
  predicate OneEach(counts: Reactions)
  {
    forall i, j :: 0 <= i < j < |counts| ==> counts[i].key != counts[j].key
  }

  /** The last element of the list for its emoji. */
  ghost predicate IsLast(raw: seq<RawReaction>, r: RawReaction)
  {
    exists i :: 0 <= i < |raw| && raw[i] == r && forall j :: i < j < |raw| ==> raw[j].key != r.key
  }

  lemma {:induction false} PutKeeps(counts: Reactions, r: RawReaction)
    requires OneEach(counts)
    ensures OneEach(PutReaction(counts, r))
    ensures forall p :: p in PutReaction(counts, r) <==> p == r || (p in counts && p.key != r.key)
  {
    if counts != [] {
      var c, rest := counts[0], counts[1..];
      assert counts == [c] + rest;
      assert forall i :: 0 <= i < |rest| ==> rest[i].key != c.key;
      if c.key != r.key {
        PutKeeps(rest, r);
        OneMore(c, PutReaction(rest, r));
      } else {
        OneMore(r, rest);
      }
    }
  }

  lemma OneMore(c: RawReaction, rest: Reactions)
    requires OneEach(rest) && forall p :: p in rest ==> p.key != c.key
    ensures OneEach([c] + rest)
  {
  }

  lemma LastOfMore(raw: seq<RawReaction>, x: RawReaction, r: RawReaction)
    ensures IsLast(raw + [x], r) <==> r == x || (IsLast(raw, r) && r.key != x.key)
  {
    var all := raw + [x];
    if r == x { assert all[|raw|] == r; }
    if IsLast(raw, r) && r.key != x.key {
      var i :| 0 <= i < |raw| && raw[i] == r && forall j :: i < j < |raw| ==> raw[j].key != r.key;
      assert all[i] == r;
    }
    if IsLast(all, r) && r != x {
      var i :| 0 <= i < |all| && all[i] == r && forall j :: i < j < |all| ==> all[j].key != r.key;
      assert all[|raw|] == x && raw[i] == r;
      assert forall j :: i < j < |raw| ==> raw[j] == all[j];
    }
  }

  /** Every emoji with a key counts once, as the last element for it says. */
  lemma {:induction false} CountsAreLast(raw: seq<RawReaction>)
    ensures OneEach(ReactionCounts(raw))
    ensures forall r :: r in ReactionCounts(raw) <==> r.key != "" && IsLast(raw, r)
  {
    if raw != [] {
      var before, x := raw[..|raw|-1], raw[|raw|-1];
      CountsAreLast(before);
      SplitLast(raw);
      forall r ensures IsLast(raw, r) <==> r == x || (IsLast(before, r) && r.key != x.key) {
        LastOfMore(before, x, r);
      }
      if x.key != "" { PutKeeps(ReactionCounts(before), x); }
    }
  }

  /** The emoji has gone up since, or is new with a positive count. */
  predicate Rises(was: Reactions, r: RawReaction)
  {
    (forall p :: p in was && p.key == r.key ==> p.count < r.count) &&
    ((forall p :: p in was ==> p.key != r.key) ==> 0 < r.count)
  }

  predicate Falls(was: Reactions, r: RawReaction)
  {
    (forall p :: p in was && p.key == r.key ==> p.count > r.count) &&
    ((forall p :: p in was ==> p.key != r.key) ==> 0 > r.count)
  }

  lemma {:induction false} CountIs(was: Reactions, r: RawReaction)
    requires OneEach(was)
    ensures CountIn(was, r.key) < r.count <==> Rises(was, r)
    ensures CountIn(was, r.key) > r.count <==> Falls(was, r)
  {
    if was != [] {
      var c, rest := was[0], was[1..];
      assert was == [c] + rest;
      assert forall i :: 0 <= i < |rest| ==> rest[i].key != c.key;
      CountIs(rest, r);
      if c.key != r.key { assert CountIn(was, r.key) == CountIn(rest, r.key); }
    }
  }

  lemma {:induction false} FoundIs(counts: Reactions, r: RawReaction)
    requires OneEach(counts)
    ensures r in counts <==> FindReaction(counts, r.key) == Some(r)
    ensures FindReaction(counts, r.key).Some? ==>
              FindReaction(counts, r.key).value in counts && FindReaction(counts, r.key).value.key == r.key
  {
    if counts != [] {
      var c, rest := counts[0], counts[1..];
      assert counts == [c] + rest;
      assert forall i :: 0 <= i < |rest| ==> rest[i].key != c.key;
      FoundIs(rest, r);
    }
  }

  /** Equal dicts have the same entries, in whatever order. */
  lemma SameIsSame(a: Reactions, b: Reactions)
    requires OneEach(a) && OneEach(b)
    ensures SameReactions(a, b) <==> forall r :: r in a <==> r in b
  {
    forall r
      ensures r in a <==> FindReaction(a, r.key) == Some(r)
      ensures r in b <==> FindReaction(b, r.key) == Some(r)
    {
      FoundIs(a, r);
      FoundIs(b, r);
    }
    if forall r :: r in a <==> r in b {
      forall r | r in a ensures FindReaction(b, r.key) == FindReaction(a, r.key) { FoundIs(a, r); }
      forall r | r in b ensures FindReaction(b, r.key) == FindReaction(a, r.key) { FoundIs(a, r); }
    }
  }

  /** What is cached of an observed message has the counts that were observed. */
  lemma ObservedCounts(cache: Cache, m: Message)
    requires OneEach(m.reactions) && (m.id in cache ==> OneEach(cache[m.id].reactions))
    ensures m.id in Observe(cache, m).cache
    ensures forall r :: r in Observe(cache, m).cache[m.id].reactions <==> r in m.reactions
  {
    if m.id in cache { SameIsSame(cache[m.id].reactions, m.reactions); }
  }

  // ----- Messages -----

  /** The entries of a page are taken from its end, without those that are no objects or have no id. */
  lemma {:induction false} MessagesJoin(a: seq<RawEntry>, b: seq<RawEntry>, channel: string)
    ensures Messages(a + b, channel) == Messages(b, channel) + Messages(a, channel)
  {
    if a == [] {
      AddNothing(b);
      AddNothing(Messages(b, channel));
    } else {
      assert (a + b)[1..] == a[1..] + b;
      MessagesJoin(a[1..], b, channel);
      var first := if a[0].NotAnObject? || a[0].id == "" then [] else [Normalize(a[0], channel)];
      AddNothing(Messages(a[1..], channel));
      AddNothing(Messages(b, channel) + Messages(a[1..], channel));
      Associative(Messages(b, channel), Messages(a[1..], channel), first);
    }
  }

  lemma OneMessage(raw: RawEntry, channel: string)
    ensures Messages([raw], channel) ==
            if raw.RawMessage? && raw.id != "" then [Normalize(raw, channel)] else []
  {
    assert [raw][1..] == [];
  }

  /** The value that a message without this field gets. */
  function Default(channel: string, key: string): Option<Json>
  {
    if key == "channel_id" then Some(Str(channel))
    else if key == "type" then Some(Num(0.0))
    else if key == "content" then Some(Str(""))
    else if key in {"mentions", "mention_roles", "attachments", "embeds"} then Some(Arr([]))
    else if key in {"mention_everyone", "pinned", "tts"} then Some(FALSE)
    else None
  }

  function FieldOf(fields: Fields, key: string): Option<Json>
  {
    if key in fields then Some(fields[key]) else None
  }

  function FirstDefault(defaults: seq<(string, Json)>, key: string): Option<Json>
  {
    if defaults == [] then None
    else if defaults[0].0 == key then Some(defaults[0].1)
    else FirstDefault(defaults[1..], key)
  }

  lemma {:induction false} SetDefaultsIs(fields: Fields, defaults: seq<(string, Json)>, key: string)
    ensures FieldOf(SetDefaults(fields, defaults), key) ==
            if key in fields then Some(fields[key]) else FirstDefault(defaults, key)
    decreases |defaults|
  {
    if defaults != [] {
      var (name, value) := defaults[0];
      SetDefaultsIs(if name in fields then fields else fields[name := value], defaults[1..], key);
    }
  }

  lemma FirstFrom(defaults: seq<(string, Json)>, i: nat, key: string)
    requires i < |defaults|
    ensures FirstDefault(defaults[i..], key) ==
            if defaults[i].0 == key then Some(defaults[i].1) else FirstDefault(defaults[i+1..], key)
  {
    assert defaults[i..][1..] == defaults[i+1..];
  }

  lemma NextFive(d: seq<(string, Json)>, i: nat, key: string)
    requires i + 5 <= |d|
    ensures FirstDefault(d[i..], key) ==
            if d[i].0 == key then Some(d[i].1)
            else if d[i+1].0 == key then Some(d[i+1].1)
            else if d[i+2].0 == key then Some(d[i+2].1)
            else if d[i+3].0 == key then Some(d[i+3].1)
            else if d[i+4].0 == key then Some(d[i+4].1)
            else FirstDefault(d[i+5..], key)
  {
    FirstFrom(d, i, key);
    FirstFrom(d, i + 1, key);
    FirstFrom(d, i + 2, key);
    FirstFrom(d, i + 3, key);
    FirstFrom(d, i + 4, key);
  }

  lemma TenDefaults(d: seq<(string, Json)>, key: string)
    requires |d| == 10
    ensures FirstDefault(d, key) ==
            if d[0].0 == key then Some(d[0].1)
            else if d[1].0 == key then Some(d[1].1)
            else if d[2].0 == key then Some(d[2].1)
            else if d[3].0 == key then Some(d[3].1)
            else if d[4].0 == key then Some(d[4].1)
            else if d[5].0 == key then Some(d[5].1)
            else if d[6].0 == key then Some(d[6].1)
            else if d[7].0 == key then Some(d[7].1)
            else if d[8].0 == key then Some(d[8].1)
            else if d[9].0 == key then Some(d[9].1)
            else None
  {
    assert d[0..] == d && d[10..] == [];
    NextFive(d, 0, key);
    NextFive(d, 5, key);
  }

  lemma DefaultIs(channel: string, key: string)
    ensures FirstDefault(Defaults(channel), key) == Default(channel, key)
  {
    TenDefaults(Defaults(channel), key);
    assert |"mention_everyone"| != |"attachments"| && |"mention_everyone"| != |"embeds"|;
  }

  /** A normalised message has the fields that were sent, and the defaults for those that were not. */
  lemma NormalizedFields(raw: RawEntry, channel: string, key: string)
    requires raw.RawMessage?
    ensures var m := Normalize(raw, channel);
            && m.id == raw.id && OneEach(m.reactions)
            && (forall r :: r in m.reactions <==> r.key != "" && IsLast(raw.reactions, r))
            && FieldOf(m.fields, key) == if key in raw.fields then Some(raw.fields[key]) else Default(channel, key)
  {
    CountsAreLast(raw.reactions);
    SetDefaultsIs(raw.fields, Defaults(channel), key);
    DefaultIs(channel, key);
  }

  // ----- What the events say -----

  /** The guild of a message is told if it is there and no false value of Python. */
  predicate IsGuild(fields: Fields, guild: Option<Json>)
  {
    if "guild_id" in fields && fields["guild_id"] !in {Null, Num(0.0), Str(""), Arr([]), Obj(map[])}
    then guild == Some(fields["guild_id"])
    else guild == None
  }

  lemma GuildIs(fields: Fields)
    ensures forall g :: g == GuildOf(fields) <==> IsGuild(fields, g)
  {
  }

  const COMPARED: set<string> := {"content", "edited_timestamp", "pinned", "attachments", "embeds", "flags"}

  /** What this observation of a message gives reason to say. */
  predicate Calls(cache: Cache, m: Message, e: Event)
  {
    match e
    case MessageCreate(id, message) => m.id !in cache && id == m.id && message == m.fields
    case MessageUpdate(id, message) =>
      m.id in cache && id == m.id && message == m.fields
      && exists key :: key in COMPARED && Get(cache[m.id].fields, key) != Get(m.fields, key)
    case ReactionAdd(id, channel, emoji, guild) =>
      m.id in cache && id == m.id && channel == Get(m.fields, "channel_id") && IsGuild(m.fields, guild)
      && exists r :: r in m.reactions && r.emoji == emoji && Rises(cache[m.id].reactions, r)
    case ReactionRemove(id, channel, emoji, guild) =>
      m.id in cache && id == m.id && channel == Get(m.fields, "channel_id") && IsGuild(m.fields, guild)
      && exists r :: r in m.reactions && r.emoji == emoji && Falls(cache[m.id].reactions, r)
    case _ => false
  }

  /** The reaction events of one emoji after the other, none for a count that stayed. */
  predicate Told(was: Reactions, m: Message, rs: seq<RawReaction>, events: seq<Event>)
  {
    if rs == [] then events == []
    else
      var r, before := rs[|rs|-1], rs[..|rs|-1];
      if !Rises(was, r) && !Falls(was, r) then Told(was, m, before, events)
      else
        && events != [] && Told(was, m, before, events[..|events|-1])
        && match events[|events|-1]
           case ReactionAdd(id, channel, emoji, guild) =>
             Rises(was, r) && id == m.id && channel == Get(m.fields, "channel_id") && emoji == r.emoji
             && IsGuild(m.fields, guild)
           case ReactionRemove(id, channel, emoji, guild) =>
             Falls(was, r) && id == m.id && channel == Get(m.fields, "channel_id") && emoji == r.emoji
             && IsGuild(m.fields, guild)
           case _ => false
  }

  lemma LastEvent(trace: seq<Emission>, x: Emission)
    ensures var events := EventsIn(trace + [x]);
            events != [] && events[..|events|-1] == EventsIn(trace) && events[|events|-1] == x.event
  {
  }

  lemma {:induction false} DeltasAreTold(was: Reactions, m: Message, n: nat, cache: Cache)
    requires OneEach(was) && n <= |m.reactions|
    ensures Told(was, m, m.reactions[..n], EventsIn(ReactionDeltas(was, m, n, cache)))
  {
    if n > 0 {
      var r := m.reactions[n-1];
      DeltasAreTold(was, m, n - 1, cache);
      assert m.reactions[..n][..n-1] == m.reactions[..n-1];
      CountIs(was, r);
      GuildIs(m.fields);
      var before, delta := ReactionDeltas(was, m, n - 1, cache), ReactionDelta(CountIn(was, r.key), m, r, cache);
      if delta == [] {
        AddNothing(before);
      } else {
        LastEvent(before, delta[0]);
        assert delta == [delta[0]];
      }
    }
  }

  /** The reaction events say exactly what is called for. */
  lemma {:induction false} ToldIsCalled(cache: Cache, m: Message, rs: seq<RawReaction>, events: seq<Event>, e: Event)
    requires m.id in cache && Told(cache[m.id].reactions, m, rs, events)
    ensures e in events <==> (e.ReactionAdd? || e.ReactionRemove?) && Calls(cache, Message(m.id, m.fields, rs), e)
  {
    if rs != [] {
      var was, r, before := cache[m.id].reactions, rs[|rs|-1], rs[..|rs|-1];
      SplitLast(rs);
      if Rises(was, r) || Falls(was, r) {
        ToldIsCalled(cache, m, before, events[..|events|-1], e);
        SplitLast(events);
      } else {
        ToldIsCalled(cache, m, before, events, e);
      }
    }
  }

  predicate AnyDiffers(a: Fields, b: Fields)
  {
    exists key :: key in COMPARED && Get(a, key) != Get(b, key)
  }

  lemma ComparedIs(a: Fields, b: Fields)
    ensures ComparedOf(a) != ComparedOf(b) <==> AnyDiffers(a, b)
  {
    if ComparedOf(a) == ComparedOf(b) {
      forall key | key in COMPARED ensures Get(a, key) == Get(b, key) { }
    } else {
      assert "content" in COMPARED && "edited_timestamp" in COMPARED && "pinned" in COMPARED;
      assert "attachments" in COMPARED && "embeds" in COMPARED && "flags" in COMPARED;
    }
  }

  /** A cached message: first the update, if a compared field differs, and then the reactions. */
  lemma ObservedInOrder(cache: Cache, m: Message)
    requires m.id in cache && OneEach(cache[m.id].reactions)
    ensures var events := EventsIn(Observe(cache, m).trace);
            if AnyDiffers(cache[m.id].fields, m.fields) then
              && events != [] && events[0] == MessageUpdate(m.id, m.fields)
              && Told(cache[m.id].reactions, m, m.reactions, events[1..])
            else Told(cache[m.id].reactions, m, m.reactions, events)
  {
    var was, n := cache[m.id].reactions, |m.reactions|;
    ComparedIs(cache[m.id].fields, m.fields);
    assert m.reactions[..n] == m.reactions;
    if AnyDiffers(cache[m.id].fields, m.fields) {
      var shown := cache[m.id := m];
      var deltas := ReactionDeltas(was, m, n, shown);
      DeltasAreTold(was, m, n, shown);
      EventsConcat([Emission(MessageUpdate(m.id, m.fields), shown)], deltas);
      assert EventsIn(Observe(cache, m).trace)[1..] == EventsIn(deltas);
    } else {
      DeltasAreTold(was, m, n, cache);
      AddNothing(ReactionDeltas(was, m, n, cache));
    }
  }

  lemma ObserveSays(cache: Cache, m: Message, e: Event)
    requires m.id in cache ==> OneEach(cache[m.id].reactions)
    ensures e in EventsIn(Observe(cache, m).trace) <==> Calls(cache, m, e)
  {
    var events := EventsIn(Observe(cache, m).trace);
    if m.id in cache {
      ObservedInOrder(cache, m);
      assert Message(m.id, m.fields, m.reactions) == m;
      if AnyDiffers(cache[m.id].fields, m.fields) {
        ToldIsCalled(cache, m, m.reactions, events[1..], e);
        assert events == [events[0]] + events[1..];
      } else {
        ToldIsCalled(cache, m, m.reactions, events, e);
      }
    } else {
      assert events == [MessageCreate(m.id, m.fields)];
    }
  }

  // ----- Whole pages -----

  predicate Counted(cache: Cache)
  {
    forall id :: id in cache ==> OneEach(cache[id].reactions)
  }

  predicate AllCounted(ms: seq<Message>)
  {
    forall m :: m in ms ==> OneEach(m.reactions)
  }

  lemma {:induction false} ObserveAllCounted(cache: Cache, ms: seq<Message>)
    requires Counted(cache) && AllCounted(ms)
    ensures Counted(ObserveAll(cache, ms).cache)
  {
    if ms != [] {
      SplitLast(ms);
      ObserveAllCounted(cache, ms[..|ms|-1]);
    }
  }

  /** The messages of a page as the poll takes them. */
  lemma {:induction false} MessagesCounted(page: seq<RawEntry>, channel: string)
    ensures AllCounted(Messages(page, channel))
  {
    if page != [] {
      MessagesCounted(page[1..], channel);
      if page[0].RawMessage? { CountsAreLast(page[0].reactions); }
    }
  }

  /** Entry i calls for the event, given the cache when it is looked at. */
  predicate CalledAt(cache: Cache, ms: seq<Message>, i: int, e: Event)
  {
    0 <= i < |ms| && Calls(ObserveAll(cache, ms[..i]).cache, ms[i], e)
  }

  ghost predicate CalledBefore(cache: Cache, ms: seq<Message>, n: int, e: Event)
  {
    exists i :: i < n && CalledAt(cache, ms, i, e)
  }

  lemma CalledMore(cache: Cache, ms: seq<Message>, n: int, m: int, e: Event)
    requires m == n + 1
    ensures CalledBefore(cache, ms, m, e) <==> CalledBefore(cache, ms, n, e) || CalledAt(cache, ms, n, e)
  {
  }

  lemma SaysMore(before: Outcome, m: Message, e: Event)
    requires Counted(before.cache)
    ensures e in EventsIn(before.trace + Observe(before.cache, m).trace) <==>
            e in EventsIn(before.trace) || Calls(before.cache, m, e)
  {
    ObserveSays(before.cache, m, e);
    EventsConcat(before.trace, Observe(before.cache, m).trace);
  }

  lemma PrefixCounted(ms: seq<Message>, n: nat)
    requires AllCounted(ms) && n <= |ms|
    ensures AllCounted(ms[..n])
  {
    assert forall m :: m in ms[..n] ==> m in ms;
  }

  lemma {:induction false} PrefixSays(cache: Cache, ms: seq<Message>, n: nat, e: Event)
    requires Counted(cache) && AllCounted(ms) && n <= |ms|
    ensures e in EventsIn(ObserveAll(cache, ms[..n]).trace) <==> CalledBefore(cache, ms, n, e)
  {
    if n > 0 {
      var before := ObserveAll(cache, ms[..n-1]);
      PrefixSays(cache, ms, n - 1, e);
      PrefixCounted(ms, n - 1);
      ObserveAllCounted(cache, ms[..n-1]);
      SaysMore(before, ms[n-1], e);
      PrefixGrows(ms, n - 1);
      ObserveAllMore(cache, ms[..n-1], ms[n-1]);
      CalledMore(cache, ms, n - 1, n, e);
    }
  }

  /** Exactly what some entry calls for, given the cache when it is looked at, is broadcast. */
  lemma ObserveAllSays(cache: Cache, ms: seq<Message>, e: Event)
    requires Counted(cache) && AllCounted(ms)
    ensures e in EventsIn(ObserveAll(cache, ms).trace) <==> exists i :: CalledAt(cache, ms, i, e)
  {
    PrefixSays(cache, ms, |ms|, e);
    assert ms[..|ms|] == ms;
  }

  lemma {:induction false} OthersStay(cache: Cache, ms: seq<Message>, id: string)
    requires id !in IdsOf(ms)
    ensures Keeps(cache, ObserveAll(cache, ms).cache, id)
  {
    if ms != [] {
      SplitLast(ms);
      IdsOfMore(ms[..|ms|-1], ms[|ms|-1]);
      OthersStay(cache, ms[..|ms|-1], id);
    }
  }

  predicate Keeps(a: Cache, b: Cache, id: string)
  {
    (id in a <==> id in b) && (id in a && id in b ==> a[id] == b[id])
  }

  predicate DistinctIds(ms: seq<Message>)
  {
    forall i, j :: 0 <= i < j < |ms| ==> ms[i].id != ms[j].id
  }

  lemma CallsAtTurn(cache: Cache, ms: seq<Message>, i: nat, e: Event)
    requires DistinctIds(ms) && i < |ms|
    ensures CalledAt(cache, ms, i, e) <==> Calls(cache, ms[i], e)
  {
    OthersStay(cache, ms[..i], ms[i].id);
  }

  /** On a page without repeated ids: exactly what some entry calls for given the cache before the poll. */
  lemma PageSays(cache: Cache, ms: seq<Message>, e: Event)
    requires Counted(cache) && AllCounted(ms) && DistinctIds(ms)
    ensures e in EventsIn(ObserveAll(cache, ms).trace) <==> exists m :: m in ms && Calls(cache, m, e)
  {
    ObserveAllSays(cache, ms, e);
    forall i | 0 <= i < |ms| ensures CalledAt(cache, ms, i, e) <==> Calls(cache, ms[i], e) {
      CallsAtTurn(cache, ms, i, e);
    }
  }

  // ----- Deletes -----

  /** The delete of a message names the channel that was polled, and the guild of the cached message. */
  predicate IsDelete(cache: Cache, channel: string, id: string, e: Event)
  {
    e.MessageDelete? && e.id == id && e.channel == Str(channel)
    && IsGuild(if id in cache then cache[id].fields else map[], e.guild)
  }

  lemma {:induction false} DeletesStay(cache: Cache, channel: string, gone: seq<string>, id: string)
    requires id !in gone
    ensures Keeps(cache, DeleteAll(cache, channel, gone).cache, id)
  {
    if gone != [] {
      SplitLast(gone);
      DeletesStay(cache, channel, gone[..|gone|-1], id);
    }
  }

  /** One delete for each id, in order. */
  lemma {:induction false} DeletesSay(cache: Cache, channel: string, gone: seq<string>)
    requires forall i, j :: 0 <= i < j < |gone| ==> gone[i] != gone[j]
    ensures var events := EventsIn(DeleteAll(cache, channel, gone).trace);
            |events| == |gone| && forall i :: 0 <= i < |gone| ==> IsDelete(cache, channel, gone[i], events[i])
  {
    if gone != [] {
      var n := |gone| - 1;
      var before := DeleteAll(cache, channel, gone[..n]);
      DeletesSay(cache, channel, gone[..n]);
      DeletesStay(cache, channel, gone[..n], gone[n]);
      GuildIs(if gone[n] in cache then cache[gone[n]].fields else map[]);
      LastEvent(before.trace, Emission(DeleteEvent(before.cache, channel, gone[n]), before.cache - {gone[n]}));
    }
  }

  /** The ids that vanished from a page that is not full, in increasing order. */
  lemma GoneIs(mem: Memory, channel: string, entries: seq<RawEntry>)
    ensures var gone := Gone(mem, channel, entries);
            && (|entries| >= 25 ==> gone == [])
            && (|entries| < 25 ==>
                  forall id :: id in gone <==> id in SeenIn(mem, channel) && id !in IdsOf(Messages(entries, channel)))
            && (forall i, j :: 0 <= i < j < |gone| ==> gone[i] != gone[j] && StrLe(gone[i], gone[j]))
  {
    SortedAscends(SeenIn(mem, channel) - IdsOf(Messages(entries, channel)));
  }

  // ----- Whole polls -----

  /** What a complete poll broadcasts, on a page without repeated ids: exactly what its entries call
      for, and the deletes of what vanished. */
  lemma PollSays(mem: Memory, channel: string, entries: seq<RawEntry>, e: Event)
    requires Counted(mem.cache) && DistinctIds(Messages(entries, channel))
    ensures e in EventsIn(Polled(mem, channel, Some(entries)).1) <==>
            || (exists m :: m in Messages(entries, channel) && Calls(mem.cache, m, e))
            || (exists id :: id in Gone(mem, channel, entries) && IsDelete(mem.cache, channel, id, e))
  {
    var ms, gone := Messages(entries, channel), Gone(mem, channel, entries);
    var seen := ObserveAll(mem.cache, ms);
    var deletes := EventsIn(DeleteAll(seen.cache, channel, gone).trace);
    MessagesCounted(entries, channel);
    PageSays(mem.cache, ms, e);
    GoneIs(mem, channel, entries);
    DeletesSay(seen.cache, channel, gone);
    EventsConcat(seen.trace, DeleteAll(seen.cache, channel, gone).trace);
    forall id | id in gone ensures IsDelete(seen.cache, channel, id, e) <==> IsDelete(mem.cache, channel, id, e) {
      OthersStay(mem.cache, ms, id);
    }
    DeletedIff(seen.cache, channel, gone, deletes, e);
  }

  lemma DeletedIff(cache: Cache, channel: string, gone: seq<string>, deletes: seq<Event>, e: Event)
    requires |deletes| == |gone| && forall i :: 0 <= i < |gone| ==> IsDelete(cache, channel, gone[i], deletes[i])
    ensures e in deletes <==> exists id :: id in gone && IsDelete(cache, channel, id, e)
  {
    if e in deletes {
      var i :| 0 <= i < |deletes| && deletes[i] == e;
      assert gone[i] in gone;
    }
    if id :| id in gone && IsDelete(cache, channel, id, e) {
      var i :| 0 <= i < |gone| && gone[i] == id;
      OneDelete(cache, channel, id, e, deletes[i]);
    }
  }

  lemma OneDelete(cache: Cache, channel: string, id: string, d: Event, e: Event)
    requires IsDelete(cache, channel, id, d) && IsDelete(cache, channel, id, e)
    ensures d == e
  {
  }

  predicate TraceCounted(trace: seq<Emission>)
  {
    forall x :: x in trace ==> Counted(x.cache)
  }

  lemma {:induction false} DeltasCounted(was: Reactions, m: Message, n: nat, cache: Cache)
    requires Counted(cache) && n <= |m.reactions|
    ensures TraceCounted(ReactionDeltas(was, m, n, cache))
  {
    if n > 0 { DeltasCounted(was, m, n - 1, cache); }
  }

  lemma ObserveTraceCounted(cache: Cache, m: Message)
    requires Counted(cache) && OneEach(m.reactions)
    ensures TraceCounted(Observe(cache, m).trace) && Counted(Observe(cache, m).cache)
  {
    if m.id in cache {
      DeltasCounted(cache[m.id].reactions, m, |m.reactions|, cache);
      DeltasCounted(cache[m.id].reactions, m, |m.reactions|, cache[m.id := m]);
    }
  }

  lemma {:induction false} PageTraceCounted(cache: Cache, ms: seq<Message>)
    requires Counted(cache) && AllCounted(ms)
    ensures TraceCounted(ObserveAll(cache, ms).trace)
  {
    if ms != [] {
      SplitLast(ms);
      PageTraceCounted(cache, ms[..|ms|-1]);
      ObserveAllCounted(cache, ms[..|ms|-1]);
      ObserveTraceCounted(ObserveAll(cache, ms[..|ms|-1]).cache, ms[|ms|-1]);
    }
  }

  lemma {:induction false} DeletesCounted(cache: Cache, channel: string, gone: seq<string>)
    requires Counted(cache)
    ensures TraceCounted(DeleteAll(cache, channel, gone).trace) && Counted(DeleteAll(cache, channel, gone).cache)
  {
    if gone != [] { DeletesCounted(cache, channel, gone[..|gone|-1]); }
  }

  lemma PollCounted(mem: Memory, p: Poll)
    requires Counted(mem.cache)
    ensures Counted(MemoryAfter(mem, p).cache)
  {
    if p.page.Some? {
      var ms := Messages(p.page.value, p.channel);
      MessagesCounted(p.page.value, p.channel);
      ObserveAllCounted(mem.cache, ms);
      PageTraceCounted(mem.cache, ms);
      DeletesCounted(ObserveAll(mem.cache, ms).cache, p.channel, Gone(mem, p.channel, p.page.value));
    }
  }

  /** The counts of the cache are those of dicts after every poll of a run. */
  lemma {:induction false} RunCounted(polls: seq<Poll>)
    ensures Counted(Run(polls).memory.cache)
  {
    if polls != [] {
      RunCounted(polls[..|polls|-1]);
      PollCounted(Run(polls[..|polls|-1]).memory, polls[|polls|-1]);
    }
  }
}

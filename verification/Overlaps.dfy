/** Finding sandboxes that share a messaging credential, or that may share one. */
module Overlaps {
  import opened Text

  datatype Sandbox = Sandbox(name: string, channels: Option<seq<string>>, hashes: map<string, string>)

  datatype Reason = MatchingToken | UnknownToken

  /** The credential names of each channel; none for a channel that is not known. */
  type TokenKeys = string -> seq<string>

  predicate HasStoredChannel(s: Sandbox, channel: string)
  {
    s.channels.Some? && channel in s.channels.value
  }

  /** A missing or empty hash is no hash. */
  function Hash(hashes: map<string, string>, key: string): Option<string>
  {
    if key in hashes && hashes[key] != "" then Some(hashes[key]) else None
  }

  // ----- Reasons -----

  predicate SameHash(a: map<string, string>, b: map<string, string>, key: string)
  {
    Hash(a, key).Some? && Hash(a, key) == Hash(b, key)
  }

  predicate NoHash(a: map<string, string>, b: map<string, string>, key: string)
  {
    Hash(a, key).None? || Hash(b, key).None?
  }

  /** A credential that both have makes a match; otherwise one that either lacks leaves it unknown. */
  function ReasonFor(keys: seq<string>, a: map<string, string>, b: map<string, string>): Option<Reason>
  {
    if keys == [] then Some(UnknownToken)
    else if exists key :: key in keys && SameHash(a, b, key) then Some(MatchingToken)
    else if exists key :: key in keys && NoHash(a, b, key) then Some(UnknownToken)
    else None
  }

  function PairReason(channel: string, left: Sandbox, right: Sandbox, tokenKeys: TokenKeys): Option<Reason>
  {
    if !HasStoredChannel(left, channel) || !HasStoredChannel(right, channel) then None
    else ReasonFor(tokenKeys(channel), left.hashes, right.hashes)
  }

  function RequestReason(s: Sandbox, channel: string, requested: map<string, string>,
                         tokenKeys: TokenKeys): Option<Reason>
  {
    if !HasStoredChannel(s, channel) then None
    else ReasonFor(if tokenKeys(channel) != [] then tokenKeys(channel) else Sorted(requested.Keys), requested, s.hashes)
  }

  method CompareHashes(keys: seq<string>, a: map<string, string>, b: map<string, string>) returns (r: Option<Reason>)
    ensures r == ReasonFor(keys, a, b)
  {
    if keys == [] { return Some(UnknownToken); }
    var sawUnknown := false;
    for i := 0 to |keys|
      invariant forall k :: 0 <= k < i ==> !SameHash(a, b, keys[k])
      invariant sawUnknown <==> exists k :: 0 <= k < i && NoHash(a, b, keys[k])
    {
      var left, right := Hash(a, keys[i]), Hash(b, keys[i]);
      if left.Some? && right.Some? {
        if left == right {
          assert SameHash(a, b, keys[i]);
          return Some(MatchingToken);
        }
        continue;
      }
      sawUnknown := true;
    }
    if sawUnknown {
      var k :| 0 <= k < |keys| && NoHash(a, b, keys[k]);
      assert keys[k] in keys;
    }
    return if sawUnknown then Some(UnknownToken) else None;
  }

  method ConflictReasonForPair(channel: string, left: Sandbox, right: Sandbox, tokenKeys: TokenKeys)
    returns (r: Option<Reason>)
    ensures r == PairReason(channel, left, right, tokenKeys)
  {
    if !HasStoredChannel(left, channel) || !HasStoredChannel(right, channel) { return None; }
    r := CompareHashes(tokenKeys(channel), left.hashes, right.hashes);
  }

  method ConflictReasonForRequest(s: Sandbox, channel: string, requested: map<string, string>, tokenKeys: TokenKeys)
    returns (r: Option<Reason>)
    ensures r == RequestReason(s, channel, requested, tokenKeys)
  {
    if !HasStoredChannel(s, channel) { return None; }
    var keys := if tokenKeys(channel) != [] then tokenKeys(channel) else Sorted(requested.Keys);
    r := CompareHashes(keys, requested, s.hashes);
  }

  // ----- All overlaps -----

  datatype Overlap = Overlap(channel: string, left: string, right: string, reason: Reason)

  /** A Map from channel to the sandboxes that list it, in insertion order. */
  type ByChannel = seq<(string, seq<Sandbox>)>

  function Push(groups: ByChannel, channel: string, s: Sandbox): ByChannel
  {
    if groups == [] then [(channel, [s])]
    else if groups[0].0 == channel then [(channel, groups[0].1 + [s])] + groups[1..]
    else [groups[0]] + Push(groups[1..], channel, s)
  }

  function PushAll(groups: ByChannel, channels: seq<string>, s: Sandbox): ByChannel
  {
    if channels == [] then groups else Push(PushAll(groups, channels[..|channels|-1], s), channels[|channels|-1], s)
  }

  function Group(sandboxes: seq<Sandbox>): ByChannel
  {
    if sandboxes == [] then []
    else
      var s := sandboxes[|sandboxes|-1];
      var groups := Group(sandboxes[..|sandboxes|-1]);
      if s.channels.None? then groups else PushAll(groups, s.channels.value, s)
  }

  /** The overlaps of one sandbox with each of the others. */
  function Row(channel: string, s: Sandbox, others: seq<Sandbox>, tokenKeys: TokenKeys): seq<Overlap>
  {
    if others == [] then []
    else
      var reason := PairReason(channel, s, others[0], tokenKeys);
      (if reason.Some? then [Overlap(channel, s.name, others[0].name, reason.value)] else [])
      + Row(channel, s, others[1..], tokenKeys)
  }

  function Pairs(channel: string, users: seq<Sandbox>, tokenKeys: TokenKeys): seq<Overlap>
  {
    if users == [] then [] else Row(channel, users[0], users[1..], tokenKeys) + Pairs(channel, users[1..], tokenKeys)
  }

  function OverlapsOf(groups: ByChannel, tokenKeys: TokenKeys): seq<Overlap>
  {
    if groups == [] then [] else Pairs(groups[0].0, groups[0].1, tokenKeys) + OverlapsOf(groups[1..], tokenKeys)
  }

  method GroupByChannel(sandboxes: seq<Sandbox>) returns (groups: ByChannel)
    ensures groups == Group(sandboxes)
  {
    groups := [];
    for i := 0 to |sandboxes|
      invariant groups == Group(sandboxes[..i])
    {
      assert sandboxes[..i+1][..i] == sandboxes[..i];
      var s := sandboxes[i];
      if s.channels.None? { continue; }
      ghost var before := groups;
      for k := 0 to |s.channels.value|
        invariant groups == PushAll(before, s.channels.value[..k], s)
      {
        assert s.channels.value[..k+1][..k] == s.channels.value[..k];
        groups := Push(groups, s.channels.value[k], s);
      }
      assert s.channels.value[..|s.channels.value|] == s.channels.value;
    }
    assert sandboxes[..|sandboxes|] == sandboxes;
  }

  /** The inner loop: one sandbox against those after it. */
  method PairsOfOne(channel: string, users: seq<Sandbox>, i: nat, tokenKeys: TokenKeys) returns (found: seq<Overlap>)
    requires i < |users|
    ensures found == Row(channel, users[i], users[i+1..], tokenKeys)
  {
    found := [];
    for j := i + 1 to |users|
      invariant found + Row(channel, users[i], users[j..], tokenKeys) == Row(channel, users[i], users[i+1..], tokenKeys)
    {
      ghost var rest := Row(channel, users[i], users[j+1..], tokenKeys);
      assert users[j..][0] == users[j] && users[j..][1..] == users[j+1..];
      var reason := ConflictReasonForPair(channel, users[i], users[j], tokenKeys);
      if reason.Some? {
        var more := [Overlap(channel, users[i].name, users[j].name, reason.value)];
        assert found + (more + rest) == found + more + rest;
        found := found + more;
      } else {
        assert [] + rest == rest;
      }
    }
    assert found + [] == found;
  }

  method PairsOfChannel(channel: string, users: seq<Sandbox>, tokenKeys: TokenKeys) returns (found: seq<Overlap>)
    ensures found == Pairs(channel, users, tokenKeys)
  {
    found := [];
    for i := 0 to |users|
      invariant found + Pairs(channel, users[i..], tokenKeys) == Pairs(channel, users, tokenKeys)
    {
      assert users[i..][0] == users[i] && users[i..][1..] == users[i+1..];
      ghost var rest := Pairs(channel, users[i+1..], tokenKeys);
      var row := PairsOfOne(channel, users, i, tokenKeys);
      assert found + (row + rest) == found + row + rest;
      found := found + row;
    }
    assert found + [] == found;
  }

  method FindAllOverlaps(sandboxes: seq<Sandbox>, tokenKeys: TokenKeys) returns (found: seq<Overlap>)
    ensures found == OverlapsOf(Group(sandboxes), tokenKeys)
  {
    var groups := GroupByChannel(sandboxes);
    found := [];
    for c := 0 to |groups|
      invariant found + OverlapsOf(groups[c..], tokenKeys) == OverlapsOf(groups, tokenKeys)
    {
      assert groups[c..][0] == groups[c] && groups[c..][1..] == groups[c+1..];
      ghost var rest := OverlapsOf(groups[c+1..], tokenKeys);
      if |groups[c].1| < 2 {
        FewUsersNoPairs(groups[c].0, groups[c].1, tokenKeys);
        assert [] + rest == rest;
        continue;
      }
      var more := PairsOfChannel(groups[c].0, groups[c].1, tokenKeys);
      assert found + (more + rest) == found + more + rest;
      found := found + more;
    }
    assert found + [] == found;
  }

  lemma FewUsersNoPairs(channel: string, users: seq<Sandbox>, tokenKeys: TokenKeys)
    requires |users| < 2
    ensures Pairs(channel, users, tokenKeys) == []
  {
  }

  // ----- Exactness -----

  ghost predicate DistinctNames(sandboxes: seq<Sandbox>)
  {
    forall i, j :: 0 <= i < j < |sandboxes| ==> sandboxes[i].name != sandboxes[j].name
  }

  ghost predicate NoRepeats(channels: seq<string>)
  {
    forall i, j :: 0 <= i < j < |channels| ==> channels[i] != channels[j]
  }

  ghost predicate NoRepeatedChannels(sandboxes: seq<Sandbox>)
  {
    forall s :: s in sandboxes && s.channels.Some? ==> NoRepeats(s.channels.value)
  }

  /** The sandboxes that store the channel, in order. */
  function Users(sandboxes: seq<Sandbox>, channel: string): seq<Sandbox>
  {
    if sandboxes == [] then []
    else
      Users(sandboxes[..|sandboxes|-1], channel) +
      (if HasStoredChannel(sandboxes[|sandboxes|-1], channel) then [sandboxes[|sandboxes|-1]] else [])
  }

  function UsersIn(groups: ByChannel, channel: string): seq<Sandbox>
  {
    if groups == [] then []
    else if groups[0].0 == channel then groups[0].1
    else UsersIn(groups[1..], channel)
  }

  ghost predicate DistinctChannels(groups: ByChannel)
  {
    forall i, j :: 0 <= i < j < |groups| ==> groups[i].0 != groups[j].0
  }

  lemma {:induction false} PushUsers(groups: ByChannel, channel: string, s: Sandbox, c: string)
    requires DistinctChannels(groups)
    ensures DistinctChannels(Push(groups, channel, s))
    ensures forall g :: g in Push(groups, channel, s) ==> g.0 == channel || exists h :: h in groups && h.0 == g.0
    ensures UsersIn(Push(groups, channel, s), c) == UsersIn(groups, c) + (if c == channel then [s] else [])
  {
    if groups == [] {
      assert [(channel, [s])][1..] == [];
    } else if groups[0].0 == channel {
      var pushed := [(channel, groups[0].1 + [s])] + groups[1..];
      assert pushed[1..] == groups[1..];
      if c == channel {
      } else {
        assert UsersIn(groups, c) + [] == UsersIn(groups, c);
      }
      assert forall g :: g in pushed ==> g.0 == channel || g in groups;
    } else {
      var rest := Push(groups[1..], channel, s);
      PushUsers(groups[1..], channel, s, c);
      assert ([groups[0]] + rest)[1..] == rest;
      forall j | 0 <= j < |rest| ensures rest[j].0 != groups[0].0 {
        assert rest[j] in rest;
      }
      assert UsersIn(groups, c) + [] == UsersIn(groups, c);
    }
  }

  lemma InMost(channels: seq<string>, c: string)
    requires channels != [] && NoRepeats(channels)
    ensures c in channels <==> c in channels[..|channels|-1] || c == channels[|channels|-1]
    ensures c == channels[|channels|-1] ==> c !in channels[..|channels|-1]
    ensures NoRepeats(channels[..|channels|-1])
  {
    assert channels == channels[..|channels|-1] + [channels[|channels|-1]];
  }

  lemma {:induction false} PushAllUsers(groups: ByChannel, channels: seq<string>, s: Sandbox, c: string)
    requires DistinctChannels(groups) && NoRepeats(channels)
    ensures DistinctChannels(PushAll(groups, channels, s))
    ensures UsersIn(PushAll(groups, channels, s), c) == UsersIn(groups, c) + (if c in channels then [s] else [])
  {
    if channels == [] {
      assert UsersIn(groups, c) + [] == UsersIn(groups, c);
    } else {
      var most, last := channels[..|channels|-1], channels[|channels|-1];
      var mid := PushAll(groups, most, s);
      PushAllUsers(groups, most, s, c);
      PushUsers(mid, last, s, c);
      InMost(channels, c);
      assert UsersIn(mid, c) + [] == UsersIn(mid, c) && UsersIn(groups, c) + [] == UsersIn(groups, c);
    }
  }

  lemma {:induction false} GroupUsers(sandboxes: seq<Sandbox>, c: string)
    requires NoRepeatedChannels(sandboxes)
    ensures DistinctChannels(Group(sandboxes)) && UsersIn(Group(sandboxes), c) == Users(sandboxes, c)
  {
    if sandboxes != [] {
      var before, s := sandboxes[..|sandboxes|-1], sandboxes[|sandboxes|-1];
      assert forall x :: x in before ==> x in sandboxes;
      GroupUsers(before, c);
      assert s in sandboxes;
      if s.channels.Some? {
        PushAllUsers(Group(before), s.channels.value, s, c);
      } else {
        assert Users(before, c) + [] == Users(before, c);
      }
    }
  }

  lemma {:induction false} UsersMember(sandboxes: seq<Sandbox>, c: string)
    requires DistinctNames(sandboxes)
    ensures forall s :: s in Users(sandboxes, c) <==> s in sandboxes && HasStoredChannel(s, c)
    ensures DistinctNames(Users(sandboxes, c))
  {
    if sandboxes != [] {
      var before, s := sandboxes[..|sandboxes|-1], sandboxes[|sandboxes|-1];
      UsersMember(before, c);
      assert sandboxes == before + [s];
      forall u | u in Users(before, c) ensures u.name != s.name {
        var i :| 0 <= i < |before| && before[i] == u;
        assert sandboxes[i] == u;
      }
    }
  }

  /** The order of the pair does not matter to its reason. */
  lemma PairReasonSymmetric(channel: string, a: Sandbox, b: Sandbox, tokenKeys: TokenKeys)
    ensures PairReason(channel, a, b, tokenKeys) == PairReason(channel, b, a, tokenKeys)
  {
    forall key ensures SameHash(a.hashes, b.hashes, key) <==> SameHash(b.hashes, a.hashes, key)
               ensures NoHash(a.hashes, b.hashes, key) <==> NoHash(b.hashes, a.hashes, key)
    {}
  }

  predicate Joins(o: Overlap, c: string, a: Sandbox, b: Sandbox)
  {
    o.channel == c && ((o.left == a.name && o.right == b.name) || (o.left == b.name && o.right == a.name))
  }

  lemma {:induction false} RowMember(c: string, s: Sandbox, others: seq<Sandbox>, tokenKeys: TokenKeys, o: Overlap)
    ensures o in Row(c, s, others, tokenKeys) <==>
              exists b :: b in others && PairReason(c, s, b, tokenKeys).Some?
                          && o == Overlap(c, s.name, b.name, PairReason(c, s, b, tokenKeys).value)
  {
    if others != [] {
      RowMember(c, s, others[1..], tokenKeys, o);
      assert others == [others[0]] + others[1..];
    }
  }

  /** Within one channel: every overlap reported joins two users for their reason. */
  lemma {:induction false} PairsSound(c: string, users: seq<Sandbox>, tokenKeys: TokenKeys, o: Overlap)
    requires o in Pairs(c, users, tokenKeys)
    ensures exists i, j :: 0 <= i < j < |users| && PairReason(c, users[i], users[j], tokenKeys) == Some(o.reason)
                           && o == Overlap(c, users[i].name, users[j].name, o.reason)
  {
    if o in Row(c, users[0], users[1..], tokenKeys) {
      RowMember(c, users[0], users[1..], tokenKeys, o);
      var b :| b in users[1..] && PairReason(c, users[0], b, tokenKeys).Some?
               && o == Overlap(c, users[0].name, b.name, PairReason(c, users[0], b, tokenKeys).value);
      var j :| 0 <= j < |users[1..]| && users[1..][j] == b;
      assert users[j+1] == b;
    } else {
      PairsSound(c, users[1..], tokenKeys, o);
      var i, j :| 0 <= i < j < |users[1..]| && PairReason(c, users[1..][i], users[1..][j], tokenKeys) == Some(o.reason)
                  && o == Overlap(c, users[1..][i].name, users[1..][j].name, o.reason);
      assert users[i+1] == users[1..][i] && users[j+1] == users[1..][j];
    }
  }

  lemma {:induction false} PairsComplete(c: string, users: seq<Sandbox>, tokenKeys: TokenKeys, i: nat, j: nat)
    requires i < j < |users| && PairReason(c, users[i], users[j], tokenKeys).Some?
    ensures Overlap(c, users[i].name, users[j].name, PairReason(c, users[i], users[j], tokenKeys).value)
            in Pairs(c, users, tokenKeys)
  {
    if i == 0 {
      assert users[1..][j-1] == users[j];
      RowMember(c, users[0], users[1..], tokenKeys,
                Overlap(c, users[0].name, users[j].name, PairReason(c, users[0], users[j], tokenKeys).value));
    } else {
      PairsComplete(c, users[1..], tokenKeys, i - 1, j - 1);
    }
  }

  lemma {:induction false} OverlapsOfMember(groups: ByChannel, tokenKeys: TokenKeys, o: Overlap)
    requires DistinctChannels(groups)
    ensures o in OverlapsOf(groups, tokenKeys) <==> o in Pairs(o.channel, UsersIn(groups, o.channel), tokenKeys)
  {
    if groups != [] {
      OverlapsOfMember(groups[1..], tokenKeys, o);
      if o in Pairs(groups[0].0, groups[0].1, tokenKeys) {
        PairsSound(groups[0].0, groups[0].1, tokenKeys, o);
      }
      if groups[0].0 == o.channel { UsersInAbsent(groups[1..], o.channel); }
    }
  }

  lemma {:induction false} UsersInAbsent(groups: ByChannel, c: string)
    requires forall g :: g in groups ==> g.0 != c
    ensures UsersIn(groups, c) == []
  {
    if groups != [] {
      assert groups[0] in groups;
      UsersInAbsent(groups[1..], c);
    }
  }

  lemma SameNameSame(sandboxes: seq<Sandbox>, u: Sandbox, a: Sandbox)
    requires DistinctNames(sandboxes) && u in sandboxes && a in sandboxes && u.name == a.name
    ensures u == a
  {
    var i :| 0 <= i < |sandboxes| && sandboxes[i] == u;
    var j :| 0 <= j < |sandboxes| && sandboxes[j] == a;
  }

  lemma {:induction false} ReportedIsOverlap(sandboxes: seq<Sandbox>, tokenKeys: TokenKeys, c: string, a: Sandbox,
                                             b: Sandbox, o: Overlap)
    requires DistinctNames(sandboxes) && NoRepeatedChannels(sandboxes)
    requires a in sandboxes && b in sandboxes && a.name != b.name
    requires o in OverlapsOf(Group(sandboxes), tokenKeys) && Joins(o, c, a, b)
    ensures PairReason(c, a, b, tokenKeys) == Some(o.reason)
  {
    var users := Users(sandboxes, c);
    GroupUsers(sandboxes, c);
    UsersMember(sandboxes, c);
    OverlapsOfMember(Group(sandboxes), tokenKeys, o);
    PairsSound(c, users, tokenKeys, o);
    var i, j :| 0 <= i < j < |users| && PairReason(c, users[i], users[j], tokenKeys) == Some(o.reason)
                && o == Overlap(c, users[i].name, users[j].name, o.reason);
    var first, second := if o.left == a.name then a else b, if o.left == a.name then b else a;
    assert users[i] in users && users[j] in users;
    SameNameSame(sandboxes, users[i], first);
    SameNameSame(sandboxes, users[j], second);
    PairReasonSymmetric(c, a, b, tokenKeys);
  }

  lemma OverlapIsReported(sandboxes: seq<Sandbox>, tokenKeys: TokenKeys, c: string, a: Sandbox, b: Sandbox)
    returns (o: Overlap)
    requires DistinctNames(sandboxes) && NoRepeatedChannels(sandboxes)
    requires a in sandboxes && b in sandboxes && a.name != b.name && PairReason(c, a, b, tokenKeys).Some?
    ensures o in OverlapsOf(Group(sandboxes), tokenKeys) && Joins(o, c, a, b)
  {
    var users := Users(sandboxes, c);
    GroupUsers(sandboxes, c);
    UsersMember(sandboxes, c);
    PairReasonSymmetric(c, a, b, tokenKeys);
    var i :| 0 <= i < |users| && users[i] == a;
    var j :| 0 <= j < |users| && users[j] == b;
    var low, high := if i < j then i else j, if i < j then j else i;
    PairsComplete(c, users, tokenKeys, low, high);
    o := Overlap(c, users[low].name, users[high].name, PairReason(c, users[low], users[high], tokenKeys).value);
    OverlapsOfMember(Group(sandboxes), tokenKeys, o);
  }

  // ----- What a reason means -----

  predicate Stores(s: Sandbox, c: string)
  {
    s.channels.Some? && exists i :: 0 <= i < |s.channels.value| && s.channels.value[i] == c
  }

  /** Both have a nonempty hash for the key, the same one. */
  predicate Shared(a: map<string, string>, b: map<string, string>, key: string)
  {
    key in a && key in b && a[key] != "" && a[key] == b[key]
  }

  /** One of them has no hash for the key. */
  predicate Undecided(a: map<string, string>, b: map<string, string>, key: string)
  {
    !(key in a && a[key] != "") || !(key in b && b[key] != "")
  }

  /** A shared key makes a matching token; without one, an undecided key, or no key at all, an unknown one. */
  predicate Means(reason: Option<Reason>, keys: seq<string>, a: map<string, string>, b: map<string, string>)
  {
    var shared := exists k :: k in keys && Shared(a, b, k);
    var undecided := keys == [] || exists k :: k in keys && Undecided(a, b, k);
    && (reason == Some(MatchingToken) <==> shared)
    && (reason == Some(UnknownToken) <==> !shared && undecided)
  }

  lemma ReasonMeans(keys: seq<string>, a: map<string, string>, b: map<string, string>)
    ensures Means(ReasonFor(keys, a, b), keys, a, b)
  {
    assert forall k :: SameHash(a, b, k) == Shared(a, b, k);
    assert forall k :: NoHash(a, b, k) == Undecided(a, b, k);
  }

  /** Two sandboxes are reported for a channel exactly when both store it and share a token of it, or
      may share one, and then with that reason. */
  lemma {:induction false} OverlapsAreExact(sandboxes: seq<Sandbox>, tokenKeys: TokenKeys, c: string, a: Sandbox,
                                            b: Sandbox)
    requires DistinctNames(sandboxes) && NoRepeatedChannels(sandboxes)
    requires a in sandboxes && b in sandboxes && a.name != b.name
    ensures var found := OverlapsOf(Group(sandboxes), tokenKeys);
            && ((exists o :: o in found && Joins(o, c, a, b)) <==> PairReason(c, a, b, tokenKeys).Some?)
            && (forall o :: o in found && Joins(o, c, a, b) ==> PairReason(c, a, b, tokenKeys) == Some(o.reason))
    ensures PairReason(c, a, b, tokenKeys).Some? ==> Stores(a, c) && Stores(b, c)
    ensures Stores(a, c) && Stores(b, c) ==>
              Means(PairReason(c, a, b, tokenKeys), tokenKeys(c), a.hashes, b.hashes)
  {
    if PairReason(c, a, b, tokenKeys).Some? {
      var o := OverlapIsReported(sandboxes, tokenKeys, c, a, b);
    }
    forall o | o in OverlapsOf(Group(sandboxes), tokenKeys) && Joins(o, c, a, b)
      ensures PairReason(c, a, b, tokenKeys) == Some(o.reason)
    {
      ReportedIsOverlap(sandboxes, tokenKeys, c, a, b, o);
    }
    ReasonMeans(tokenKeys(c), a.hashes, b.hashes);
  }

  // ----- At most once -----

  predicate SamePair(o: Overlap, p: Overlap)
  {
    o.channel == p.channel && ((o.left == p.left && o.right == p.right) || (o.left == p.right && o.right == p.left))
  }

  ghost predicate UniquePairs(found: seq<Overlap>)
  {
    (forall o :: o in found ==> o.left != o.right) &&
    forall i, j :: 0 <= i < j < |found| ==> !SamePair(found[i], found[j])
  }

  lemma UniqueConcat(a: seq<Overlap>, b: seq<Overlap>)
    requires UniquePairs(a) && UniquePairs(b) && forall o, p :: o in a && p in b ==> !SamePair(o, p)
    ensures UniquePairs(a + b)
  {
    forall i, j | 0 <= i < j < |a + b| ensures !SamePair((a + b)[i], (a + b)[j]) {
      if i < |a| && j >= |a| { assert a[i] in a && b[j - |a|] in b; }
    }
  }

  lemma {:induction false} RowUnique(c: string, s: Sandbox, others: seq<Sandbox>, tokenKeys: TokenKeys)
    requires DistinctNames(others) && forall b :: b in others ==> b.name != s.name
    ensures UniquePairs(Row(c, s, others, tokenKeys))
    ensures forall o :: o in Row(c, s, others, tokenKeys) ==>
              o.left == s.name && exists b :: b in others && o.right == b.name
  {
    if others != [] {
      var reason := PairReason(c, s, others[0], tokenKeys);
      var head := if reason.Some? then [Overlap(c, s.name, others[0].name, reason.value)] else [];
      RowUnique(c, s, others[1..], tokenKeys);
      forall b | b in others[1..] ensures b.name != others[0].name {
        var i :| 0 <= i < |others[1..]| && others[1..][i] == b;
        assert others[i+1] == b;
      }
      assert others[0] in others;
      UniqueConcat(head, Row(c, s, others[1..], tokenKeys));
    }
  }

  lemma {:induction false} PairsUnique(c: string, users: seq<Sandbox>, tokenKeys: TokenKeys)
    requires DistinctNames(users)
    ensures UniquePairs(Pairs(c, users, tokenKeys))
  {
    if users != [] {
      var row, rest := Row(c, users[0], users[1..], tokenKeys), Pairs(c, users[1..], tokenKeys);
      forall b | b in users[1..] ensures b.name != users[0].name {
        var i :| 0 <= i < |users[1..]| && users[1..][i] == b;
        assert users[i+1] == b;
      }
      RowUnique(c, users[0], users[1..], tokenKeys);
      PairsUnique(c, users[1..], tokenKeys);
      forall o, p | o in row && p in rest ensures !SamePair(o, p) {
        PairsSound(c, users[1..], tokenKeys, p);
        var i, j :| 0 <= i < j < |users[1..]| && p == Overlap(c, users[1..][i].name, users[1..][j].name, p.reason);
        assert users[1..][i] in users[1..] && users[1..][j] in users[1..];
      }
      UniqueConcat(row, rest);
    }
  }

  lemma {:induction false} GroupsUnique(groups: ByChannel, tokenKeys: TokenKeys)
    requires DistinctChannels(groups) && forall g :: g in groups ==> DistinctNames(g.1)
    ensures UniquePairs(OverlapsOf(groups, tokenKeys))
    ensures forall o :: o in OverlapsOf(groups, tokenKeys) ==> exists g :: g in groups && g.0 == o.channel
  {
    if groups != [] {
      var first, rest := Pairs(groups[0].0, groups[0].1, tokenKeys), OverlapsOf(groups[1..], tokenKeys);
      assert groups[0] in groups && groups == [groups[0]] + groups[1..];
      PairsUnique(groups[0].0, groups[0].1, tokenKeys);
      GroupsUnique(groups[1..], tokenKeys);
      forall o | o in first ensures o.channel == groups[0].0 {
        PairsSound(groups[0].0, groups[0].1, tokenKeys, o);
      }
      UniqueConcat(first, rest);
    }
  }

  lemma {:induction false} GroupIn(groups: ByChannel, g: (string, seq<Sandbox>))
    requires DistinctChannels(groups) && g in groups
    ensures UsersIn(groups, g.0) == g.1
  {
    if groups[0] != g {
      var i :| 0 <= i < |groups| && groups[i] == g;
      assert groups[1..][i-1] == g;
      GroupIn(groups[1..], g);
    }
  }

  /** No sandbox overlaps with itself, and each unordered pair is listed at most once per channel. */
  lemma OverlapsListedOnce(sandboxes: seq<Sandbox>, tokenKeys: TokenKeys)
    requires DistinctNames(sandboxes) && NoRepeatedChannels(sandboxes)
    ensures UniquePairs(OverlapsOf(Group(sandboxes), tokenKeys))
  {
    var groups := Group(sandboxes);
    GroupUsers(sandboxes, "");
    forall g | g in groups ensures DistinctNames(g.1) {
      GroupUsers(sandboxes, g.0);
      GroupIn(groups, g);
      UsersMember(sandboxes, g.0);
    }
    GroupsUnique(groups, tokenKeys);
  }

  // ----- Repeated channels -----

  /** One copy of s for each time it lists the channel. */
  function Copies(channels: seq<string>, c: string, s: Sandbox): seq<Sandbox>
  {
    if channels == [] then []
    else Copies(channels[..|channels|-1], c, s) + (if channels[|channels|-1] == c then [s] else [])
  }

  lemma {:induction false} PushAllCopies(groups: ByChannel, channels: seq<string>, s: Sandbox, c: string)
    requires DistinctChannels(groups)
    ensures DistinctChannels(PushAll(groups, channels, s))
    ensures UsersIn(PushAll(groups, channels, s), c) == UsersIn(groups, c) + Copies(channels, c, s)
  {
    if channels == [] {
      assert UsersIn(groups, c) + [] == UsersIn(groups, c);
    } else {
      var most, last := channels[..|channels|-1], channels[|channels|-1];
      PushAllCopies(groups, most, s, c);
      PushUsers(PushAll(groups, most, s), last, s, c);
      Associative(UsersIn(groups, c), Copies(most, c, s), if last == c then [s] else []);
    }
  }

  ghost predicate TwiceIn<T>(s: seq<T>, x: T)
  {
    exists i, j :: 0 <= i < j < |s| && s[i] == x && s[j] == x
  }

  lemma TwiceAt<T>(s: seq<T>, x: T, i: nat, j: nat)
    requires i < j < |s| && s[i] == x && s[j] == x
    ensures TwiceIn(s, x)
  {
  }

  lemma {:induction false} CopiesAre(channels: seq<string>, c: string, s: Sandbox)
    ensures forall u :: u in Copies(channels, c, s) ==> u == s
    ensures c in channels ==> |Copies(channels, c, s)| > 0
    ensures TwiceIn(channels, c) ==> |Copies(channels, c, s)| > 1
  {
    if channels != [] {
      var most := channels[..|channels|-1];
      CopiesAre(most, c, s);
      if i, j :| 0 <= i < j < |channels| && channels[i] == c && channels[j] == c {
        assert most[i] == c && c in most;
        if j < |channels| - 1 { TwiceAt(most, c, i, j); }
      }
    }
  }

  /** A sandbox that lists a channel twice is twice in the channel's group. */
  lemma {:induction false} TwiceInGroup(sandboxes: seq<Sandbox>, s: Sandbox, c: string)
    requires s in sandboxes && s.channels.Some?
    requires TwiceIn(s.channels.value, c)
    ensures TwiceIn(UsersIn(Group(sandboxes), c), s)
  {
    var before, last := sandboxes[..|sandboxes|-1], sandboxes[|sandboxes|-1];
    var earlier := UsersIn(Group(before), c);
    GroupDistinct(before);
    if last.channels.Some? { PushAllCopies(Group(before), last.channels.value, last, c); }
    var users := UsersIn(Group(sandboxes), c);
    if last == s {
      var copies := Copies(s.channels.value, c, s);
      CopiesAre(s.channels.value, c, s);
      assert users == earlier + copies && copies[0] in copies && copies[1] in copies;
      TwiceAt(users, s, |earlier|, |earlier| + 1);
    } else {
      assert s in before;
      TwiceInGroup(before, s, c);
      var i, j :| 0 <= i < j < |earlier| && earlier[i] == s && earlier[j] == s;
      assert earlier <= users;
      TwiceAt(users, s, i, j);
    }
  }

  lemma {:induction false} GroupDistinct(sandboxes: seq<Sandbox>)
    ensures DistinctChannels(Group(sandboxes))
  {
    if sandboxes != [] {
      var last := sandboxes[|sandboxes|-1];
      GroupDistinct(sandboxes[..|sandboxes|-1]);
      if last.channels.Some? { PushAllCopies(Group(sandboxes[..|sandboxes|-1]), last.channels.value, last, ""); }
    }
  }

  /** A sandbox always has a reason to conflict with itself. */
  lemma OwnReason(c: string, s: Sandbox, tokenKeys: TokenKeys)
    requires HasStoredChannel(s, c)
    ensures PairReason(c, s, s, tokenKeys).Some?
  {
    var keys := tokenKeys(c);
    if keys != [] {
      assert keys[0] in keys;
      assert SameHash(s.hashes, s.hashes, keys[0]) || NoHash(s.hashes, s.hashes, keys[0]);
    }
  }

  /** A channel that a sandbox lists twice overlaps with itself, whatever else is registered. */
  lemma RepeatedChannelOverlapsItself(sandboxes: seq<Sandbox>, tokenKeys: TokenKeys, s: Sandbox, c: string)
    requires s in sandboxes && s.channels.Some?
    requires TwiceIn(s.channels.value, c)
    ensures exists o :: o in OverlapsOf(Group(sandboxes), tokenKeys) && o.channel == c && o.left == o.right == s.name
  {
    var users := UsersIn(Group(sandboxes), c);
    GroupDistinct(sandboxes);
    TwiceInGroup(sandboxes, s, c);
    OwnReason(c, s, tokenKeys);
    var i, j :| 0 <= i < j < |users| && users[i] == s && users[j] == s;
    PairsComplete(c, users, tokenKeys, i, j);
    var o := Overlap(c, s.name, s.name, PairReason(c, s, s, tokenKeys).value);
    OverlapsOfMember(Group(sandboxes), tokenKeys, o);
  }

  /** Pairs are listed at most once per channel, and none is a sandbox with itself, exactly when no
      sandbox lists a channel twice. */
  lemma OverlapsListedOnceIff(sandboxes: seq<Sandbox>, tokenKeys: TokenKeys)
    requires DistinctNames(sandboxes)
    ensures UniquePairs(OverlapsOf(Group(sandboxes), tokenKeys)) <==> NoRepeatedChannels(sandboxes)
  {
    if NoRepeatedChannels(sandboxes) {
      OverlapsListedOnce(sandboxes, tokenKeys);
    } else {
      var s :| s in sandboxes && s.channels.Some? && !NoRepeats(s.channels.value);
      var i, j :| 0 <= i < j < |s.channels.value| && s.channels.value[i] == s.channels.value[j];
      TwiceAt(s.channels.value, s.channels.value[i], i, j);
      RepeatedChannelOverlapsItself(sandboxes, tokenKeys, s, s.channels.value[i]);
    }
  }

  // ----- Conflicts of one sandbox's request -----

  datatype Request = Request(channel: string, hashes: map<string, string>)

  datatype Conflict = Conflict(channel: string, sandbox: string, reason: Reason)

  function ConflictsOf(current: Option<string>, r: Request, sandboxes: seq<Sandbox>,
                       tokenKeys: TokenKeys): seq<Conflict>
  {
    if sandboxes == [] then []
    else
      var s := sandboxes[|sandboxes|-1];
      var reason := RequestReason(s, r.channel, r.hashes, tokenKeys);
      ConflictsOf(current, r, sandboxes[..|sandboxes|-1], tokenKeys) +
      (if Some(s.name) != current && s.channels.Some? && reason.Some? then [Conflict(r.channel, s.name, reason.value)]
       else [])
  }

  /** The conflicts of every request; one without a channel is dropped. */
  function ConflictsOfAll(current: Option<string>, requests: seq<Request>, sandboxes: seq<Sandbox>,
                          tokenKeys: TokenKeys): seq<Conflict>
  {
    if requests == [] then []
    else
      var r := requests[|requests|-1];
      ConflictsOfAll(current, requests[..|requests|-1], sandboxes, tokenKeys) +
      (if r.channel == "" then [] else ConflictsOf(current, r, sandboxes, tokenKeys))
  }

  method FindConflicts(current: Option<string>, r: Request, sandboxes: seq<Sandbox>, tokenKeys: TokenKeys)
    returns (found: seq<Conflict>)
    ensures found == ConflictsOf(current, r, sandboxes, tokenKeys)
  {
    found := [];
    for i := 0 to |sandboxes|
      invariant found == ConflictsOf(current, r, sandboxes[..i], tokenKeys)
    {
      var s := sandboxes[i];
      PrefixGrows(sandboxes, i);
      AddNothing(found);
      if Some(s.name) != current && s.channels.Some? {
        var reason := ConflictReasonForRequest(s, r.channel, r.hashes, tokenKeys);
        if reason.Some? { found := found + [Conflict(r.channel, s.name, reason.value)]; }
      }
    }
    assert sandboxes[..|sandboxes|] == sandboxes;
  }

  method FindChannelConflicts(current: Option<string>, requests: seq<Request>, sandboxes: seq<Sandbox>,
                              tokenKeys: TokenKeys)
    returns (found: seq<Conflict>)
    ensures found == ConflictsOfAll(current, requests, sandboxes, tokenKeys)
  {
    found := [];
    for i := 0 to |requests|
      invariant found == ConflictsOfAll(current, requests[..i], sandboxes, tokenKeys)
    {
      PrefixGrows(requests, i);
      AddNothing(found);
      if requests[i].channel != "" {
        var own := FindConflicts(current, requests[i], sandboxes, tokenKeys);
        found := found + own;
      }
    }
    assert requests[..|requests|] == requests;
  }

  lemma {:induction false} ConflictsMember(current: Option<string>, r: Request, sandboxes: seq<Sandbox>,
                                           tokenKeys: TokenKeys, x: Conflict)
    ensures x in ConflictsOf(current, r, sandboxes, tokenKeys) <==>
              exists s :: s in sandboxes && Some(s.name) != current && x.channel == r.channel && x.sandbox == s.name
                          && RequestReason(s, r.channel, r.hashes, tokenKeys) == Some(x.reason)
  {
    if sandboxes != [] {
      var most := sandboxes[..|sandboxes|-1];
      ConflictsMember(current, r, most, tokenKeys, x);
      assert sandboxes == most + [sandboxes[|sandboxes|-1]];
    }
  }

  /** A conflict is reported for a request exactly with a sandbox that has another name, stores the
      channel, and shares a token with the request or may share one. The tokens are those of the
      channel, or those of the request for a channel without any. */
  lemma ConflictsAreExact(current: Option<string>, r: Request, sandboxes: seq<Sandbox>, tokenKeys: TokenKeys,
                          x: Conflict)
    ensures x in ConflictsOf(current, r, sandboxes, tokenKeys) <==>
              exists s :: s in sandboxes && IsConflict(current, r, s, tokenKeys, x)
  {
    ConflictsMember(current, r, sandboxes, tokenKeys, x);
    forall s | s in sandboxes
      ensures IsConflict(current, r, s, tokenKeys, x) <==>
              Some(s.name) != current && x.channel == r.channel && x.sandbox == s.name
              && RequestReason(s, r.channel, r.hashes, tokenKeys) == Some(x.reason)
    {
      RequestMeans(r, s, tokenKeys);
      OneMeaning(RequestReason(s, r.channel, r.hashes, tokenKeys), x.reason, KeysFor(r, tokenKeys), r.hashes, s.hashes);
    }
  }

  lemma RequestMeans(r: Request, s: Sandbox, tokenKeys: TokenKeys)
    ensures Stores(s, r.channel) ==>
              Means(RequestReason(s, r.channel, r.hashes, tokenKeys), KeysFor(r, tokenKeys), r.hashes, s.hashes)
    ensures !Stores(s, r.channel) ==> RequestReason(s, r.channel, r.hashes, tokenKeys) == None
  {
    ReasonMeans(KeysFor(r, tokenKeys), r.hashes, s.hashes);
  }

  lemma OneMeaning(p: Option<Reason>, q: Reason, keys: seq<string>, a: map<string, string>, b: map<string, string>)
    ensures Means(p, keys, a, b) ==> (p == Some(q) <==> Means(Some(q), keys, a, b))
  {
  }

  function KeysFor(r: Request, tokenKeys: TokenKeys): seq<string>
  {
    if |tokenKeys(r.channel)| > 0 then tokenKeys(r.channel) else Sorted(r.hashes.Keys)
  }

  predicate IsConflict(current: Option<string>, r: Request, s: Sandbox, tokenKeys: TokenKeys, x: Conflict)
  {
    && current != Some(s.name) && Stores(s, r.channel)
    && x.channel == r.channel && x.sandbox == s.name
    && Means(Some(x.reason), KeysFor(r, tokenKeys), r.hashes, s.hashes)
  }

  /** For a known channel, asking with a sandbox's own hashes reports the same partners, with
      the same reasons, as the search for all overlaps. */
  lemma ConflictsAgreeWithOverlaps(sandboxes: seq<Sandbox>, tokenKeys: TokenKeys, c: string, a: Sandbox, b: Sandbox,
                                   reason: Reason)
    requires DistinctNames(sandboxes) && NoRepeatedChannels(sandboxes)
    requires a in sandboxes && b in sandboxes && a.name != b.name
    requires HasStoredChannel(a, c) && c != "" && tokenKeys(c) != []
    ensures Conflict(c, b.name, reason) in ConflictsOfAll(Some(a.name), [Request(c, a.hashes)], sandboxes, tokenKeys)
            <==> exists o :: o in OverlapsOf(Group(sandboxes), tokenKeys) && Joins(o, c, a, b) && o.reason == reason
  {
    var request := Request(c, a.hashes);
    var x := Conflict(c, b.name, reason);
    var none: seq<Conflict> := [];
    assert [request][..0] == [];
    assert none + ConflictsOf(Some(a.name), request, sandboxes, tokenKeys) ==
           ConflictsOf(Some(a.name), request, sandboxes, tokenKeys);
    ConflictsMember(Some(a.name), request, sandboxes, tokenKeys, x);
    OverlapsAreExact(sandboxes, tokenKeys, c, a, b);
    assert RequestReason(b, c, a.hashes, tokenKeys) == PairReason(c, a, b, tokenKeys);
    forall s | s in sandboxes && s.name == b.name ensures s == b {
      SameNameSame(sandboxes, s, b);
    }
  }
}

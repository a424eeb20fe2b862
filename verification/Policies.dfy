/** Merging presets into a policy document, removing them, and telling which are active.
    Documents are JavaScript objects, which keep the order in which keys were added.
*/
module Policies {
  import opened Text

  datatype Value =
    | Null
    | Bool(b: bool)
    | Num(n: real)
    | Str(s: string)
    | Arr(items: seq<Value>)
    | Obj(fields: Document)

  /** An object: its properties, and the order of its keys. Keys that are array indices are not in
      it: they come before all others, by their numbers.
  */
  datatype Document = Document(props: map<string, Value>, order: seq<string>)

  type Entries = Document

  const NOTHING: Document := Document(map[], [])

  /** How Number() reads a string or an array; None is NaN. */
  type NumberReader = Value -> Option<real>

  function Number(v: Option<Value>, read: NumberReader): Option<real>
  {
    match v
    case None => None
    case Some(Null) => Some(0.0)
    case Some(Bool(b)) => Some(if b then 1.0 else 0.0)
    case Some(Num(n)) => Some(n)
    case Some(other) => read(other)
  }

  function Get(doc: Document, key: string): Option<Value>
  {
    if key in doc.props then Some(doc.props[key]) else None
  }

  function Keys(doc: Document): set<string>
  {
    doc.props.Keys
  }

  // ----- Objects and their order -----

  function Dropped(order: seq<string>, keys: set<string>): seq<string>
  {
    if order == [] then []
    else (if order[0] in keys then [] else [order[0]]) + Dropped(order[1..], keys)
  }

  function Names(order: seq<string>): set<string>
  {
    set k | k in order
  }

  /** { ...a, ...b }: the keys of a keep their places and new ones follow. */
  function Spread(a: Document, b: Document): Document
  {
    Document(a.props + b.props, a.order + Dropped(b.order, Names(a.order)))
  }

  /** The object after its keys were deleted one by one. */
  function WithoutKeys(doc: Document, keys: set<string>): Document
  {
    Document(doc.props - keys, Dropped(doc.order, keys))
  }

  /** A canonical numeral below 4294967295. */
  ghost predicate IsIndex(key: string)
  {
    exists n: nat :: n < 0xFFFF_FFFF && key == Decimal(n)
  }

  predicate Distinct(order: seq<string>)
  {
    forall i, j :: 0 <= i < j < |order| ==> order[i] != order[j]
  }

  /** Every key but the indices has one place. */
  ghost predicate WellFormed(doc: Document)
  {
    && Distinct(doc.order)
    && (forall k :: k in doc.order <==> k in doc.props && !IsIndex(k))
  }

  lemma {:induction false} DroppedMember(order: seq<string>, keys: set<string>)
    ensures forall k :: k in Dropped(order, keys) <==> k in order && k !in keys
  {
    if order != [] {
      DroppedMember(order[1..], keys);
      assert order == [order[0]] + order[1..];
    }
  }

  lemma {:induction false} DroppedConcat(a: seq<string>, b: seq<string>, keys: set<string>)
    ensures Dropped(a + b, keys) == Dropped(a, keys) + Dropped(b, keys)
  {
    if a == [] {
      AddNothing(b);
      AddNothing(Dropped(b, keys));
    } else {
      assert (a + b)[1..] == a[1..] + b;
      DroppedConcat(a[1..], b, keys);
      Associative(if a[0] in keys then [] else [a[0]], Dropped(a[1..], keys), Dropped(b, keys));
    }
  }

  lemma {:induction false} DroppedTwice(order: seq<string>, a: set<string>, b: set<string>)
    ensures Dropped(Dropped(order, a), b) == Dropped(order, a + b)
  {
    if order != [] {
      DroppedTwice(order[1..], a, b);
      if order[0] in a {
        AddNothing(Dropped(order[1..], a));
        AddNothing(Dropped(order[1..], a + b));
      } else {
        assert ([order[0]] + Dropped(order[1..], a))[1..] == Dropped(order[1..], a);
      }
    }
  }

  lemma {:induction false} AllDropped(order: seq<string>, keys: set<string>)
    requires forall k :: k in order ==> k in keys
    ensures Dropped(order, keys) == []
  {
    if order != [] {
      assert forall k :: k in order[1..] ==> k in order;
      AllDropped(order[1..], keys);
    }
  }

  lemma {:induction false} NoneDropped(order: seq<string>, keys: set<string>)
    requires forall k :: k in order ==> k !in keys
    ensures Dropped(order, keys) == order
  {
    if order != [] {
      assert forall k :: k in order[1..] ==> k in order;
      NoneDropped(order[1..], keys);
    }
  }

  lemma DistinctConcat(a: seq<string>, b: seq<string>)
    requires Distinct(a) && Distinct(b) && Names(a) !! Names(b)
    ensures Distinct(a + b)
  {
    forall i, j | 0 <= i < j < |a + b| ensures (a + b)[i] != (a + b)[j] {
      if i < |a| <= j { assert a[i] in Names(a) && b[j - |a|] in Names(b); }
    }
  }

  lemma {:induction false} DroppedDistinct(order: seq<string>, keys: set<string>)
    requires Distinct(order)
    ensures Distinct(Dropped(order, keys))
  {
    if order != [] {
      DroppedDistinct(order[1..], keys);
      DroppedMember(order[1..], keys);
      if order[0] in keys {
        AddNothing(Dropped(order[1..], keys));
      } else {
        assert forall k :: k in order[1..] ==> k != order[0];
        DistinctConcat([order[0]], Dropped(order[1..], keys));
      }
    }
  }

  lemma SpreadNothing(p: Document)
    ensures Spread(NOTHING, p) == p && Spread(p, NOTHING) == p
  {
    assert map[] + p.props == p.props;
    NoneDropped(p.order, {});
    assert Names([]) == {};
    AddNothing(p.order);
  }

  lemma NamesOfSpread(a: seq<string>, b: seq<string>)
    ensures Names(a + Dropped(b, Names(a))) == Names(a) + Names(b)
  {
    DroppedMember(b, Names(a));
  }

  lemma SpreadOrder(a: seq<string>, b: seq<string>, c: seq<string>)
    ensures var ab := a + Dropped(b, Names(a));
            var bc := b + Dropped(c, Names(b));
            ab + Dropped(c, Names(ab)) == a + Dropped(bc, Names(a))
  {
    NamesOfSpread(a, b);
    DroppedConcat(b, Dropped(c, Names(b)), Names(a));
    DroppedTwice(c, Names(b), Names(a));
    assert Names(b) + Names(a) == Names(a) + Names(b);
    Associative(a, Dropped(b, Names(a)), Dropped(c, Names(a) + Names(b)));
  }

  lemma SpreadAssociative(a: Document, b: Document, c: Document)
    ensures Spread(Spread(a, b), c) == Spread(a, Spread(b, c))
  {
    assert a.props + b.props + c.props == a.props + (b.props + c.props);
    SpreadOrder(a.order, b.order, c.order);
  }

  lemma SpreadTwice(p: Document)
    ensures Spread(p, p) == p
  {
    assert p.props + p.props == p.props;
    AllDropped(p.order, Names(p.order));
    AddNothing(p.order);
  }

  lemma SpreadKeepsForm(a: Document, b: Document)
    requires WellFormed(a) && WellFormed(b)
    ensures WellFormed(Spread(a, b))
  {
    DroppedMember(b.order, Names(a.order));
    DroppedDistinct(b.order, Names(a.order));
    DistinctConcat(a.order, Dropped(b.order, Names(a.order)));
  }

  lemma WithoutKeepsForm(doc: Document, keys: set<string>)
    requires WellFormed(doc)
    ensures WellFormed(WithoutKeys(doc, keys))
  {
    DroppedMember(doc.order, keys);
    DroppedDistinct(doc.order, keys);
  }

  // ----- Merging and removing -----

  /** Number(version) || 1 */
  function VersionOf(doc: Document, read: NumberReader): Value
  {
    match Number(Get(doc, "version"), read)
    case None => Num(1.0)
    case Some(n) => if n == 0.0 then Num(1.0) else Num(n)
  }

  predicate HasEntries(doc: Document)
  {
    "network_policies" in doc.props && doc.props["network_policies"].Obj?
  }

  /** The network policies when they are a plain object, else nothing. */
  function PolicyEntries(doc: Document): Entries
  {
    if HasEntries(doc) then doc.props["network_policies"].fields else NOTHING
  }

  /** The sections that a merge writes anew, and the name that sets an object's prototype when assigned. */
  const NOT_COPIED: set<string> := {"version", "network_policies", "__proto__"}

  /** The sections that a merge copies. */
  function Others(doc: Document): Document
  {
    WithoutKeys(doc, NOT_COPIED)
  }

  /** The version first, then the copied sections, then the network policies. */
  function Assembled(version: Value, others: Document, entries: Entries): Document
  {
    Document(others.props["version" := version]["network_policies" := Obj(entries)],
             ["version"] + others.order + ["network_policies"])
  }

  /** mergePresetIntoPolicy on parsed documents; an empty current policy is None. */
  function Merge(current: Option<Document>, preset: Entries, read: NumberReader): Document
  {
    match current
    case None => Assembled(Num(1.0), NOTHING, preset)
    case Some(doc) =>
      Assembled(VersionOf(doc, read), Others(doc),
                if HasEntries(doc) then Spread(PolicyEntries(doc), preset) else preset)
  }

  /** removePresetFromPolicy on parsed documents. */
  function Remove(doc: Document, keys: set<string>): Document
  {
    if keys == {} || !HasEntries(doc) then doc
    else doc.(props := doc.props["network_policies" := Obj(WithoutKeys(PolicyEntries(doc), keys))])
  }

  // ----- The parts of a document -----

  lemma DistinctNames()
    ensures "version" != "network_policies" && "version" != "__proto__" && "network_policies" != "__proto__"
  {
    assert |"version"| == 7 && |"network_policies"| == 16 && |"__proto__"| == 9;
  }

  predicate OnlyCopied(others: Document)
  {
    Keys(others) !! NOT_COPIED && Names(others.order) !! NOT_COPIED
  }

  function CurrentEntries(current: Option<Document>): Entries
  {
    if current.None? then NOTHING else PolicyEntries(current.value)
  }

  function OthersOf(current: Option<Document>): Document
  {
    if current.None? then NOTHING else Others(current.value)
  }

  function VersionRead(current: Option<Document>, read: NumberReader): Value
  {
    if current.None? then Num(1.0) else VersionOf(current.value, read)
  }

  lemma OthersAreCopied(current: Option<Document>)
    ensures OnlyCopied(OthersOf(current))
  {
    if current.Some? { DroppedMember(current.value.order, NOT_COPIED); }
  }

  lemma AssembledProps(version: Value, others: Document, entries: Entries)
    requires OnlyCopied(others)
    ensures var doc := Assembled(version, others, entries);
            && Get(doc, "version") == Some(version) && Get(doc, "__proto__") == None
            && HasEntries(doc) && PolicyEntries(doc) == entries
            && doc.props - NOT_COPIED == others.props
            && doc.props - {"network_policies"} == others.props["version" := version]
  {
    DistinctNames();
  }

  lemma AssembledOrder(order: seq<string>)
    requires Names(order) !! NOT_COPIED
    ensures Dropped(["version"] + order + ["network_policies"], NOT_COPIED) == order
  {
    DistinctNames();
    DroppedConcat(["version"] + order, ["network_policies"], NOT_COPIED);
    DroppedConcat(["version"], order, NOT_COPIED);
    assert forall k :: k in order ==> k in Names(order);
    NoneDropped(order, NOT_COPIED);
    AllDropped(["version"], NOT_COPIED);
    AllDropped(["network_policies"], NOT_COPIED);
    AddNothing(order);
  }

  /** A document assembled from parts has these parts. */
  lemma AssembledParts(version: Value, others: Document, entries: Entries)
    requires OnlyCopied(others)
    ensures var doc := Assembled(version, others, entries);
            && Get(doc, "version") == Some(version) && Get(doc, "__proto__") == None
            && HasEntries(doc) && PolicyEntries(doc) == entries && Others(doc) == others
  {
    AssembledProps(version, others, entries);
    AssembledOrder(others.order);
  }

  lemma MergeAssembles(current: Option<Document>, p: Entries, read: NumberReader)
    ensures Merge(current, p, read) ==
            Assembled(VersionRead(current, read), OthersOf(current), Spread(CurrentEntries(current), p))
    ensures OnlyCopied(OthersOf(current))
  {
    SpreadNothing(p);
    OthersAreCopied(current);
  }

  lemma MergeParts(current: Option<Document>, p: Entries, read: NumberReader)
    ensures var merged := Merge(current, p, read);
            && Get(merged, "version") == Some(VersionRead(current, read)) && Get(merged, "__proto__") == None
            && HasEntries(merged) && PolicyEntries(merged) == Spread(CurrentEntries(current), p)
            && Others(merged) == OthersOf(current)
            && merged.order == ["version"] + OthersOf(current).order + ["network_policies"]
  {
    MergeAssembles(current, p, read);
    AssembledParts(VersionRead(current, read), OthersOf(current), Spread(CurrentEntries(current), p));
  }

  /** Two merges give the same document, in the same order, exactly when they have the same parts. */
  lemma SameMergeIff(a: Option<Document>, p: Entries, b: Option<Document>, q: Entries, read: NumberReader)
    ensures Merge(a, p, read) == Merge(b, q, read) <==>
            VersionRead(a, read) == VersionRead(b, read) && OthersOf(a) == OthersOf(b)
            && Spread(CurrentEntries(a), p) == Spread(CurrentEntries(b), q)
  {
    MergeAssembles(a, p, read);
    MergeAssembles(b, q, read);
    MergeParts(a, p, read);
    MergeParts(b, q, read);
  }

  // ----- The algebra -----

  /** What a merge does to every section of the document, and where it puts the keys. */
  lemma MergeSections(doc: Document, preset: Entries, read: NumberReader)
    ensures var merged := Merge(Some(doc), preset, read);
            && (forall key :: key !in NOT_COPIED ==> Get(merged, key) == Get(doc, key))
            && Get(merged, "__proto__") == None
            && (forall k :: k in Keys(preset) ==> Get(PolicyEntries(merged), k) == Some(preset.props[k]))
            && (forall k :: k !in Keys(preset) ==> Get(PolicyEntries(merged), k) == Get(PolicyEntries(doc), k))
            && "version" in Keys(merged) && merged.props["version"].Num? && merged.props["version"].n != 0.0
            && merged.order == ["version"] + Dropped(doc.order, NOT_COPIED) + ["network_policies"]
            && PolicyEntries(merged).order ==
                 PolicyEntries(doc).order + Dropped(preset.order, Names(PolicyEntries(doc).order))
  {
    MergeParts(Some(doc), preset, read);
    var merged := Merge(Some(doc), preset, read);
    forall key | key !in NOT_COPIED ensures Get(merged, key) == Get(doc, key) {
      assert Get(Others(merged), key) == Get(Others(doc), key);
    }
  }

  lemma MergedVersion(current: Option<Document>, p: Entries, read: NumberReader)
    ensures VersionOf(Merge(current, p, read), read) == VersionRead(current, read)
  {
    MergeParts(current, p, read);
  }

  lemma MergeTwo(current: Option<Document>, p: Entries, q: Entries, read: NumberReader)
    ensures Merge(Some(Merge(current, p, read)), q, read) == Merge(current, Spread(p, q), read)
  {
    MergedVersion(current, p, read);
    MergeParts(current, p, read);
    SpreadAssociative(CurrentEntries(current), p, q);
    SameMergeIff(Some(Merge(current, p, read)), q, current, Spread(p, q), read);
  }

  lemma MergeIsIdempotent(current: Option<Document>, preset: Entries, read: NumberReader)
    ensures Merge(Some(Merge(current, preset, read)), preset, read) == Merge(current, preset, read)
  {
    MergeTwo(current, preset, preset, read);
    SpreadTwice(preset);
  }

  function MergeAll(current: Option<Document>, presets: seq<Entries>, read: NumberReader): Option<Document>
  {
    if presets == [] then current
    else Some(Merge(MergeAll(current, presets[..|presets|-1], read), presets[|presets|-1], read))
  }

  /** All entries of the presets, a later one winning over an earlier one. */
  function Union(presets: seq<Entries>): Entries
  {
    if presets == [] then NOTHING else Spread(Union(presets[..|presets|-1]), presets[|presets|-1])
  }

  lemma {:induction false} MergeAllIsOneMerge(current: Option<Document>, presets: seq<Entries>, read: NumberReader)
    requires presets != []
    ensures MergeAll(current, presets, read) == Some(Merge(current, Union(presets), read))
  {
    var before := presets[..|presets|-1];
    if before == [] {
      SpreadNothing(presets[0]);
    } else {
      MergeAllIsOneMerge(current, before, read);
      MergeTwo(current, Union(before), presets[|presets|-1], read);
    }
  }

  // ----- The order of presets -----

  /** The same sections and entries, whatever the order of the keys of either. */
  predicate SameContent(a: Document, b: Document)
  {
    && a.props - {"network_policies"} == b.props - {"network_policies"}
    && HasEntries(a) && HasEntries(b)
    && PolicyEntries(a).props == PolicyEntries(b).props
  }

  /** Two merges have the same content exactly when their parts have. */
  lemma SameContentIff(a: Option<Document>, p: Entries, b: Option<Document>, q: Entries, read: NumberReader)
    ensures SameContent(Merge(a, p, read), Merge(b, q, read)) <==>
            VersionRead(a, read) == VersionRead(b, read) && OthersOf(a).props == OthersOf(b).props
            && CurrentEntries(a).props + p.props == CurrentEntries(b).props + q.props
  {
    MergeAssembles(a, p, read);
    MergeAssembles(b, q, read);
    AssembledProps(VersionRead(a, read), OthersOf(a), Spread(CurrentEntries(a), p));
    AssembledProps(VersionRead(b, read), OthersOf(b), Spread(CurrentEntries(b), q));
    VersionAside(OthersOf(a).props, VersionRead(a, read), OthersOf(b).props, VersionRead(b, read));
  }

  lemma VersionAside(a: map<string, Value>, v: Value, b: map<string, Value>, w: Value)
    requires "version" !in a && "version" !in b
    ensures a["version" := v] == b["version" := w] <==> a == b && v == w
  {
    assert a == a["version" := v] - {"version"} && b == b["version" := w] - {"version"};
    assert a["version" := v]["version"] == v && b["version" := w]["version"] == w;
  }

  ghost predicate KeyDisjoint(presets: seq<Entries>)
  {
    forall p, q :: p in presets && q in presets && p != q ==> Keys(p) !! Keys(q)
  }

  lemma {:induction false} UnionOfDisjoint(presets: seq<Entries>, name: string)
    requires KeyDisjoint(presets)
    ensures name in Keys(Union(presets)) <==> exists p :: p in presets && name in Keys(p)
    ensures forall p :: p in presets && name in Keys(p) ==>
                        name in Keys(Union(presets)) && Union(presets).props[name] == p.props[name]
  {
    if presets != [] {
      var before, last := presets[..|presets|-1], presets[|presets|-1];
      SplitLast(presets);
      UnionOfDisjoint(before, name);
      SpreadHas(Union(before), last, name);
    }
  }

  lemma SpreadHas(a: Document, b: Document, name: string)
    ensures name in Keys(Spread(a, b)) <==> name in Keys(a) || name in Keys(b)
    ensures name in Keys(b) ==> Spread(a, b).props[name] == b.props[name]
    ensures name in Keys(a) && name !in Keys(b) ==> Spread(a, b).props[name] == a.props[name]
  {
  }

  lemma UnionsOfDisjoint(a: seq<Entries>, b: seq<Entries>)
    requires KeyDisjoint(a) && forall p :: p in a <==> p in b
    ensures Union(a).props == Union(b).props
  {
    forall name
      ensures name in Keys(Union(a)) <==> name in Keys(Union(b))
      ensures name in Keys(Union(a)) && name in Keys(Union(b)) ==> Union(a).props[name] == Union(b).props[name]
    {
      UnionOfDisjoint(a, name);
      UnionOfDisjoint(b, name);
    }
  }

  /** The keys that a preset adds behind those that are there, in its order; indices have places of their own. */
  function NewKeys(current: Option<Document>, p: Entries): seq<string>
  {
    Dropped(p.order, Names(CurrentEntries(current).order))
  }

  /** Merges of the same entries have the same content, and are the same document exactly when
      they add the new keys in the same order. */
  lemma SameEntriesMerged(current: Option<Document>, p: Entries, q: Entries, read: NumberReader)
    requires p.props == q.props
    ensures SameContent(Merge(current, p, read), Merge(current, q, read))
    ensures Merge(current, p, read) == Merge(current, q, read) <==> NewKeys(current, p) == NewKeys(current, q)
  {
    MergeAssembles(current, p, read);
    MergeAssembles(current, q, read);
    AssembledProps(VersionRead(current, read), OthersOf(current), Spread(CurrentEntries(current), p));
    AssembledProps(VersionRead(current, read), OthersOf(current), Spread(CurrentEntries(current), q));
    SameMergeIff(current, p, current, q, read);
    var here := CurrentEntries(current).order;
    if Spread(CurrentEntries(current), p) == Spread(CurrentEntries(current), q) {
      assert NewKeys(current, p) == (here + NewKeys(current, p))[|here|..];
      assert NewKeys(current, q) == (here + NewKeys(current, q))[|here|..];
    }
  }

  /** Presets with disjoint keys merge to the same content in any order, repeated or not, and to the
      same document exactly when the new keys come in the same order. */
  lemma MergeOrderIndependent(current: Option<Document>, a: seq<Entries>, b: seq<Entries>, read: NumberReader)
    requires a != [] && b != []
    requires KeyDisjoint(a) && forall p :: p in a <==> p in b
    ensures MergeAll(current, a, read).Some? && MergeAll(current, b, read).Some?
    ensures SameContent(MergeAll(current, a, read).value, MergeAll(current, b, read).value)
    ensures MergeAll(current, a, read) == MergeAll(current, b, read) <==>
            NewKeys(current, Union(a)) == NewKeys(current, Union(b))
  {
    UnionsOfDisjoint(a, b);
    MergeAllIsOneMerge(current, a, read);
    MergeAllIsOneMerge(current, b, read);
    SameEntriesMerged(current, Union(a), Union(b), read);
  }

  lemma NewKeysOfTwo(current: Option<Document>, p: Entries, q: Entries)
    requires WellFormed(p) && WellFormed(q) && Keys(p) !! Keys(q)
    ensures NewKeys(current, Spread(p, q)) == NewKeys(current, p) + NewKeys(current, q)
    ensures Names(NewKeys(current, p)) !! Names(NewKeys(current, q))
  {
    var here := Names(CurrentEntries(current).order);
    assert forall k :: k in q.order ==> k !in Names(p.order);
    NoneDropped(q.order, Names(p.order));
    DroppedConcat(p.order, q.order, here);
    DroppedMember(p.order, here);
    DroppedMember(q.order, here);
  }

  lemma DisjointSwap(a: seq<string>, b: seq<string>)
    requires Names(a) !! Names(b)
    ensures a + b == b + a <==> a == [] || b == []
  {
    if a == [] || b == [] {
      AddNothing(a);
      AddNothing(b);
    } else {
      assert (a + b)[0] == a[0] && (b + a)[0] == b[0];
      assert a[0] in Names(a) && b[0] in Names(b);
    }
  }

  /** Two presets with disjoint keys give the same document in both orders exactly when one of them
      adds no key, indices aside. */
  lemma TwoOrdersIff(current: Option<Document>, p: Entries, q: Entries, read: NumberReader)
    requires WellFormed(p) && WellFormed(q) && Keys(p) !! Keys(q)
    ensures SameContent(Merge(current, Spread(p, q), read), Merge(current, Spread(q, p), read))
    ensures Merge(current, Spread(p, q), read) == Merge(current, Spread(q, p), read) <==>
            NewKeys(current, p) == [] || NewKeys(current, q) == []
  {
    assert p.props + q.props == q.props + p.props;
    SameEntriesMerged(current, Spread(p, q), Spread(q, p), read);
    NewKeysOfTwo(current, p, q);
    NewKeysOfTwo(current, q, p);
    DisjointSwap(NewKeys(current, p), NewKeys(current, q));
  }

  // ----- Removing -----

  lemma RemoveParts(doc: Document, keys: set<string>)
    requires HasEntries(doc)
    ensures var removed := Remove(doc, keys);
            && removed.order == doc.order && HasEntries(removed)
            && removed.props - {"network_policies"} == doc.props - {"network_policies"}
            && PolicyEntries(removed) == WithoutKeys(PolicyEntries(doc), keys)
  {
    if keys == {} {
      NoneDropped(PolicyEntries(doc).order, keys);
      assert PolicyEntries(doc).props - keys == PolicyEntries(doc).props;
    }
  }

  lemma SpreadRemoved(a: Document, p: Document)
    requires WellFormed(p)
    ensures WithoutKeys(Spread(a, p), Keys(p)) == WithoutKeys(a, Keys(p))
  {
    assert a.props + p.props - Keys(p) == a.props - Keys(p);
    DroppedConcat(a.order, Dropped(p.order, Names(a.order)), Keys(p));
    DroppedMember(p.order, Names(a.order));
    AllDropped(Dropped(p.order, Names(a.order)), Keys(p));
    AddNothing(Dropped(a.order, Keys(p)));
  }

  /** Removing after merging leaves the original entries without the preset's keys, in their order,
      and touches nothing else. */
  lemma RemoveAfterMerge(current: Option<Document>, preset: Entries, read: NumberReader)
    requires WellFormed(preset)
    ensures var merged := Merge(current, preset, read);
            var removed := Remove(merged, Keys(preset));
            && PolicyEntries(removed) == WithoutKeys(CurrentEntries(current), Keys(preset))
            && (forall key :: key != "network_policies" ==> Get(removed, key) == Get(merged, key))
            && removed.order == merged.order
  {
    MergeParts(current, preset, read);
    RemoveParts(Merge(current, preset, read), Keys(preset));
    SpreadRemoved(CurrentEntries(current), preset);
  }

  lemma NamesAreNoIndices()
    ensures !IsIndex("version") && !IsIndex("network_policies")
  {
    assert "version"[0] == 'v' && "network_policies"[0] == 'n';
    forall n: nat ensures Decimal(n) != "version" && Decimal(n) != "network_policies" {
      assert Decimal(n)[0] in Decimal(n);
    }
  }

  /** Merging keeps the keys in one place each, in the document and in its entries. */
  lemma MergeKeepsForm(current: Option<Document>, p: Entries, read: NumberReader)
    requires current.Some? ==> WellFormed(current.value)
    requires WellFormed(CurrentEntries(current)) && WellFormed(p)
    ensures WellFormed(Merge(current, p, read)) && WellFormed(PolicyEntries(Merge(current, p, read)))
  {
    MergeAssembles(current, p, read);
    MergeParts(current, p, read);
    SpreadKeepsForm(CurrentEntries(current), p);
    if current.Some? { WithoutKeepsForm(current.value, NOT_COPIED); }
    AssembledForm(VersionRead(current, read), OthersOf(current), Spread(CurrentEntries(current), p));
  }

  lemma AssembledForm(version: Value, others: Document, entries: Entries)
    requires OnlyCopied(others) && WellFormed(others)
    ensures WellFormed(Assembled(version, others, entries))
  {
    var order := ["version"] + others.order + ["network_policies"];
    DistinctNames();
    NamesAreNoIndices();
    assert forall k :: k in others.order ==> k in Names(others.order);
    assert forall i :: 0 < i <= |others.order| ==> order[i] == others.order[i-1];
  }

  /** So does removing. */
  lemma RemoveKeepsForm(doc: Document, keys: set<string>)
    requires WellFormed(doc) && WellFormed(PolicyEntries(doc))
    ensures WellFormed(Remove(doc, keys)) && WellFormed(PolicyEntries(Remove(doc, keys)))
  {
    WithoutKeepsForm(PolicyEntries(doc), keys);
    if HasEntries(doc) {
      RemoveParts(doc, keys);
      assert Keys(Remove(doc, keys)) == Keys(doc);
    }
  }

  // ----- What is active -----

  /** All keys of the preset are in the gateway's policy. */
  predicate Active(keys: set<string>, doc: Document)
  {
    keys != {} && keys <= Keys(PolicyEntries(doc))
  }

  /** Every nonempty preset of a merged list is reported afterwards. */
  lemma {:induction false} MergedAreActive(current: Option<Document>, presets: seq<Entries>, p: Entries,
                                           read: NumberReader)
    requires p in presets && p.props != map[]
    ensures Active(Keys(p), MergeAll(current, presets, read).value)
  {
    var before, last := presets[..|presets|-1], presets[|presets|-1];
    var k :| k in p.props;
    assert k in Keys(p);
    MergeParts(MergeAll(current, before, read), last, read);
    if p != last {
      assert p in before;
      MergedAreActive(current, before, p, read);
    }
  }

  /** After a removal a preset is reported exactly if it was before and shares no key with the removed one. */
  lemma ActiveAfterRemove(doc: Document, removed: set<string>, keys: set<string>)
    ensures Active(keys, Remove(doc, removed)) <==> Active(keys, doc) && keys !! removed
  {
    if HasEntries(doc) { RemoveParts(doc, removed); }
    if Active(keys, doc) && !(keys !! removed) {
      var c :| c in keys && c in removed;
      assert c !in Keys(PolicyEntries(Remove(doc, removed)));
    }
  }
}

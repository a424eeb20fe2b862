/** The policy operations on text: what is read of a policy, merged into it and printed again. */
module PolicyMerge {
  import opened Text
  import opened Policies
  import opened PolicyText

  /** The YAML library: reading, where None is a thrown error, and printing, which keeps the order of the keys. */
  datatype Yaml = Yaml(parse: string -> Option<Value>, print_: Document -> string)

  const EMPTY_POLICY := "version: 1\n\nnetwork_policies:\n"
  const DASHES := "---"

  // ----- Reading a policy -----

  /** What follows the first three dashes. */
  function AfterDashes(s: string): Option<string>
  {
    if DASHES <= s then Some(s[3..]) else if s == "" then None else AfterDashes(s[1..])
  }

  predicate HasDashes(s: string)
  {
    AfterDashes(s).Some?
  }

  predicate IsWordChar(c: char)
  {
    '0' <= c <= '9' || 'a' <= c <= 'z' || 'A' <= c <= 'Z' || c == '_'
  }

  predicate StartsIgnoringCase(s: string, word: string)
  {
    word == "" ||
    (s != "" && (s[0] == word[0] || ('A' <= s[0] <= 'Z' && s[0] as int + 32 == word[0] as int)) &&
     StartsIgnoringCase(s[1..], word[1..]))
  }

  /** The word, and then no further word character. */
  predicate StartsWithWord(s: string, word: string)
  {
    StartsIgnoringCase(s, word) && (|s| <= |word| || !IsWordChar(s[|word|]))
  }

  predicate IsErrorText(s: string)
  {
    StartsWithWord(s, "error") || StartsWithWord(s, "failed") || StartsWithWord(s, "invalid") ||
    StartsWithWord(s, "warning") || StartsWithWord(s, "status")
  }

  predicate IsKeyStart(c: char)
  {
    'a' <= c <= 'z' || c == '_'
  }

  predicate KeyThenColon(s: string)
  {
    SpacesThenColon(s) || (s != "" && (IsKeyStart(s[0]) || '0' <= s[0] <= '9') && KeyThenColon(s[1..]))
  }

  /** A lower-case key and a colon at the start of the text or after a line terminator. */
  predicate HasKeyLine(s: string, atLineStart: bool)
  {
    s != "" && ((atLineStart && IsKeyStart(s[0]) && KeyThenColon(s[1..])) || HasKeyLine(s[1..], IsTerminator(s[0])))
  }

  /** The tests that a trimmed candidate has to pass. */
  predicate Usable(y: Yaml, candidate: string)
  {
    candidate != "" && !IsErrorText(candidate) && HasKeyLine(candidate, true) &&
    y.parse(candidate).Some? && y.parse(candidate).value.Obj?
  }

  function Candidate(raw: string): string
  {
    var after := AfterDashes(raw);
    Trim(if after.Some? then after.value else raw)
  }

  /** parseCurrentPolicy; the empty text stands for no policy. */
  function ParseCurrent(y: Yaml, raw: string): string
  {
    if Usable(y, Candidate(raw)) then Candidate(raw) else ""
  }

  /** The document that an operation takes a text for. */
  function DocOf(y: Yaml, raw: string): Option<Document>
  {
    var text := ParseCurrent(y, raw);
    if text == "" then None else Some(y.parse(text).value.fields)
  }

  lemma {:induction false} TrimEndShorter(s: string)
    ensures |TrimEnd(s)| <= |s|
    ensures s != "" ==> |TrimEnd(s[1..])| <= |TrimEnd(s)|
  {
    if s != "" {
      TrimEndShorter(s[..|s|-1]);
      if |s| > 1 && IsJsSpace(s[|s|-1]) {
        assert s[1..][..|s|-2] == s[..|s|-1][1..];
      }
    }
  }

  lemma {:induction false} TrimStartShorter(s: string)
    ensures |TrimEnd(TrimStart(s))| <= |TrimEnd(s)|
  {
    if s != "" && IsJsSpace(s[0]) {
      TrimStartShorter(s[1..]);
      TrimEndShorter(s);
    }
  }

  lemma {:induction false} TrimEndKeeps(a: string, b: string)
    requires a != "" && !IsJsSpace(a[|a|-1])
    ensures TrimEnd(a + b) == a + TrimEnd(b)
  {
    if b != "" && IsJsSpace(b[|b|-1]) {
      assert (a + b)[..|a + b|-1] == a + b[..|b|-1];
      TrimEndKeeps(a, b[..|b|-1]);
    }
  }

  lemma {:induction false} CutIsShorter(s: string)
    requires HasDashes(s)
    ensures |Trim(AfterDashes(s).value)| + 3 <= |Trim(s)|
  {
    if DASHES <= s {
      assert s == DASHES + s[3..];
      TrimEndKeeps(DASHES, s[3..]);
      TrimStartShorter(s[3..]);
    } else {
      CutIsShorter(s[1..]);
      if !IsJsSpace(s[0]) {
        TrimStartShorter(s[1..]);
        TrimEndShorter(s);
      }
    }
  }

  /** A text is read in full if and only if it has no three dashes and passes the tests. */
  lemma ReadInFullIff(y: Yaml, raw: string)
    ensures ParseCurrent(y, raw) == Trim(raw) <==> Trim(raw) == "" || (!HasDashes(raw) && Usable(y, Trim(raw)))
  {
    if HasDashes(raw) { CutIsShorter(raw); }
  }

  lemma {:induction false} FirstDashes(header: string, body: string)
    requires !HasDashes(header + "--")
    ensures AfterDashes(header + DASHES + body) == Some(body)
  {
    var s := header + DASHES + body;
    if header == "" {
      assert s[3..] == body;
    } else {
      assert s[1..] == header[1..] + DASHES + body;
      assert (header + "--")[1..] == header[1..] + "--";
      assert DASHES <= s ==> DASHES <= header + "--";
      FirstDashes(header[1..], body);
    }
  }

  /** Behind a header that ends in the first three dashes the whole text is read, dashes or not. */
  lemma HeaderIsDropped(y: Yaml, header: string, body: string)
    requires !HasDashes(header + "--") && Usable(y, Trim(body))
    ensures ParseCurrent(y, header + DASHES + body) == Trim(body)
  {
    FirstDashes(header, body);
  }

  // ----- Which texts are no policy -----

  /** The letters of a word, each in either case. */
  predicate SameLetters(a: string, word: string)
  {
    |a| == |word| &&
    forall i :: 0 <= i < |word| ==> a[i] == word[i] || ('A' <= a[i] <= 'Z' && a[i] as int + 32 == word[i] as int)
  }

  /** The word at the start, and no further word character behind it. */
  predicate BeginsWith(s: string, word: string)
  {
    && |s| >= |word| && SameLetters(s[..|word|], word)
    && (|s| > |word| ==>
          var c := s[|word|]; !('a' <= c <= 'z') && !('A' <= c <= 'Z') && !('0' <= c <= '9') && c != '_')
  }

  lemma {:induction false} StartsIff(s: string, word: string)
    ensures StartsIgnoringCase(s, word) <==> |s| >= |word| && SameLetters(s[..|word|], word)
  {
    if word != "" && s != "" {
      StartsIff(s[1..], word[1..]);
      if |s| >= |word| {
        assert forall i :: 0 < i < |word| ==> s[..|word|][i] == s[1..][..|word|-1][i-1] && word[i] == word[1..][i-1];
      }
    }
  }

  /** A key with its colon, at position i. */
  ghost predicate KeyFrom(s: string, i: int)
  {
    exists m, k :: IsKey(s, i, m, k) && m > i
  }

  /** A lower-case key at the start of a line, at position i. */
  ghost predicate KeyAt(s: string, atLineStart: bool, i: int)
  {
    && 0 <= i < |s| && (if i == 0 then atLineStart else IsTerminator(s[i-1]))
    && ('a' <= s[i] <= 'z' || s[i] == '_') && KeyFrom(s, i)
  }

  /** Lower-case letters, digits and underscores up to m, then white space up to k, then a colon. */
  predicate IsKey(s: string, i: int, m: int, k: int)
  {
    && 0 <= i <= m <= k < |s| && s[k] == ':'
    && (forall j :: i <= j < m ==> 'a' <= s[j] <= 'z' || s[j] == '_' || '0' <= s[j] <= '9')
    && (forall j :: m <= j < k ==> IsJsSpace(s[j]))
  }

  lemma {:induction false} SpacesThenColonIff(s: string)
    ensures SpacesThenColon(s) <==> exists k :: IsKey(s, 0, 0, k)
  {
    if s != "" {
      SpacesThenColonIff(s[1..]);
      if s[0] == ':' { assert IsKey(s, 0, 0, 0); }
      if k :| IsKey(s[1..], 0, 0, k) && IsJsSpace(s[0]) {
        assert forall j :: 0 < j < k + 1 ==> s[j] == s[1..][j-1];
        assert IsKey(s, 0, 0, k + 1);
      }
      if k :| IsKey(s, 0, 0, k) && k > 0 {
        assert forall j :: 0 <= j < k - 1 ==> s[1..][j] == s[j+1];
        assert IsKey(s[1..], 0, 0, k - 1);
      }
    }
  }

  lemma {:induction false} KeyThenColonIff(s: string)
    ensures KeyThenColon(s) <==> exists m, k :: IsKey(s, 0, m, k)
  {
    SpacesThenColonIff(s);
    if s != "" {
      KeyThenColonIff(s[1..]);
      if m, k :| IsKey(s[1..], 0, m, k) && (IsKeyStart(s[0]) || '0' <= s[0] <= '9') {
        assert forall j :: 0 < j <= k + 1 ==> s[j] == s[1..][j-1];
        assert IsKey(s, 0, m + 1, k + 1);
      }
      if m, k :| IsKey(s, 0, m, k) && m > 0 {
        assert forall j :: 0 <= j <= k - 1 ==> s[1..][j] == s[j+1];
        assert IsKey(s[1..], 0, m - 1, k - 1);
      }
    }
  }

  lemma KeyMoves(s: string, n: nat, i: int, m: int, k: int)
    requires n <= |s|
    ensures IsKey(s[n..], i, m, k) ==> IsKey(s, i + n, m + n, k + n)
    ensures i >= n && IsKey(s, i, m, k) ==> IsKey(s[n..], i - n, m - n, k - n)
  {
    assert forall j :: n <= j < |s| ==> s[j] == s[n..][j-n];
    assert forall j :: 0 <= j < |s[n..]| ==> s[n..][j] == s[j+n];
  }

  lemma KeyHere(s: string)
    ensures KeyAt(s, true, 0) <==> s != "" && IsKeyStart(s[0]) && KeyThenColon(s[1..])
  {
    if s != "" {
      KeyThenColonIff(s[1..]);
      if m, k :| IsKey(s[1..], 0, m, k) && IsKeyStart(s[0]) {
        KeyMoves(s, 1, 0, m, k);
        assert IsKey(s, 0, m + 1, k + 1);
      }
      if m, k :| IsKey(s, 0, m, k) && m > 0 {
        assert IsKey(s, 1, m, k);
        KeyMoves(s, 1, 1, m, k);
      }
    }
  }

  lemma KeyFromMoves(s: string, i: int)
    requires s != "" && i > 0
    ensures KeyFrom(s, i) <==> KeyFrom(s[1..], i - 1)
  {
    var before := i - 1;
    if m, k :| IsKey(s[1..], before, m, k) && m > before {
      KeyMoves(s, 1, before, m, k);
      assert IsKey(s, i, m + 1, k + 1);
    }
    if m, k :| IsKey(s, i, m, k) && m > i {
      KeyMoves(s, 1, i, m, k);
      assert IsKey(s[1..], i - 1, m - 1, k - 1);
    }
  }

  lemma KeyLater(s: string, start: bool, i: int)
    requires s != "" && 0 < i < |s|
    ensures KeyAt(s, start, i) <==> KeyAt(s[1..], IsTerminator(s[0]), i - 1)
  {
    KeyFromMoves(s, i);
    assert s[1..][i-1] == s[i] && (i > 1 ==> s[1..][i-2] == s[i-1]);
  }

  lemma {:induction false} HasKeyLineIff(s: string, start: bool)
    ensures HasKeyLine(s, start) <==> exists i :: KeyAt(s, start, i)
  {
    if s != "" {
      HasKeyLineIff(s[1..], IsTerminator(s[0]));
      KeyHere(s);
      if i :| KeyAt(s[1..], IsTerminator(s[0]), i) {
        KeyLater(s, start, i + 1);
      }
      if i :| KeyAt(s, start, i) {
        if i > 0 { KeyLater(s, start, i); } else { assert KeyAt(s, true, 0); }
      }
      if start && KeyAt(s, true, 0) { assert KeyAt(s, start, 0); }
    }
  }

  const FAILURES: set<string> := {"error", "failed", "invalid", "warning", "status"}

  lemma ErrorTextIff(s: string)
    ensures IsErrorText(s) <==> exists word :: word in FAILURES && BeginsWith(s, word)
  {
    forall word | word in FAILURES ensures StartsWithWord(s, word) <==> BeginsWith(s, word) {
      StartsIff(s, word);
    }
    assert "error" in FAILURES && "failed" in FAILURES && "invalid" in FAILURES;
    assert "warning" in FAILURES && "status" in FAILURES;
  }

  /** Exactly these texts are no policy: an empty one, one that begins with a word of failure, one
      without a key line, and one that does not parse to an object. */
  lemma NoPolicyIff(y: Yaml, raw: string)
    ensures ParseCurrent(y, raw) in {"", Candidate(raw)}
    ensures var text := Candidate(raw);
            ParseCurrent(y, raw) == "" <==>
              || text == ""
              || (exists word :: word in FAILURES && BeginsWith(text, word))
              || !(exists i :: KeyAt(text, true, i))
              || y.parse(text).None? || !y.parse(text).value.Obj?
  {
    HasKeyLineIff(Candidate(raw), true);
    ErrorTextIff(Candidate(raw));
  }

  // ----- Merging and removing -----

  /** What the entries are under a network_policies header. */
  function EntriesValue(y: Yaml, entries: string): Value
  {
    var parsed := y.parse("network_policies:\n" + entries);
    if parsed.Some? && parsed.value.Obj? && HEADER in Keys(parsed.value.fields) then
      parsed.value.fields.props[HEADER]
    else Null
  }

  function PresetOf(y: Yaml, entries: string): Option<Entries>
  {
    var value := EntriesValue(y, entries);
    if value.Obj? then Some(value.fields) else None
  }

  function OrEmptyPolicy(policy: string): string
  {
    if policy == "" then EMPTY_POLICY else policy
  }

  /** mergePresetIntoPolicy; an empty text stands for missing entries. */
  function MergeText(y: Yaml, read: NumberReader, current: string, entries: string): string
  {
    var policy := ParseCurrent(y, current);
    if entries == "" then OrEmptyPolicy(policy)
    else if PresetOf(y, entries).None? then TextMerged(policy, entries)
    else y.print_(Merge(DocOf(y, current), PresetOf(y, entries).value, read))
  }

  /** Without entries nothing is merged; without a policy either, the result is the empty one. */
  lemma NothingToMerge(y: Yaml, read: NumberReader, current: string)
    ensures MergeText(y, read, current, "") ==
            if DocOf(y, current).Some? then ParseCurrent(y, current) else "version: 1" + SECTION
  {
    assert EMPTY_POLICY == "version: 1" + SECTION;
  }

  function Indices(n: nat): set<string>
  {
    if n == 0 then {} else Indices(n - 1) + {Decimal(n - 1)}
  }

  ghost predicate IsIndexBelow(k: string, n: nat)
  {
    exists i: nat :: i < n && k == Decimal(i)
  }

  /** The keys of an array or a string with n elements. */
  lemma {:induction false} IndicesAre(n: nat, k: string)
    ensures k in Indices(n) <==> IsIndexBelow(k, n)
  {
    if n > 0 {
      IndicesAre(n - 1, k);
      if IsIndexBelow(k, n) {
        var i: nat :| i < n && k == Decimal(i);
        if i < n - 1 { assert IsIndexBelow(k, n - 1); }
      }
    }
  }

  /** Object.keys */
  function ObjectKeys(v: Value): set<string>
  {
    match v
    case Obj(fields) => Keys(fields)
    case Arr(items) => Indices(|items|)
    case Str(s) => Indices(|s|)
    case _ => {}
  }

  /** removePresetFromPolicy */
  function RemoveText(y: Yaml, current: string, entries: string): string
  {
    var policy, doc := ParseCurrent(y, current), DocOf(y, current);
    if entries == "" || doc.None? then OrEmptyPolicy(policy)
    else if ObjectKeys(EntriesValue(y, entries)) == {} || !HasEntries(doc.value) then policy
    else y.print_(Remove(doc.value, ObjectKeys(EntriesValue(y, entries))))
  }

  /** A removal that has nothing to remove returns the policy that was read, or the empty one. */
  lemma NothingToRemove(y: Yaml, current: string, entries: string)
    requires entries == "" || DocOf(y, current).None? || !HasEntries(DocOf(y, current).value)
             || ObjectKeys(EntriesValue(y, entries)) == {}
    ensures RemoveText(y, current, entries) ==
            if DocOf(y, current).Some? then ParseCurrent(y, current) else "version: 1" + SECTION
  {
    assert EMPTY_POLICY == "version: 1" + SECTION;
  }

  /** The library reads back what it prints for this document. */
  predicate PrintsBack(y: Yaml, doc: Document)
  {
    y.parse(y.print_(doc)) == Some(Obj(doc))
  }

  /** The printed document starts with its version, has no three dashes, and loses nothing by trimming. */
  predicate Printable(y: Yaml, doc: Document)
  {
    && "version:" <= y.print_(doc)
    && !HasDashes(y.print_(doc))
    && y.parse(Trim(y.print_(doc))) == Some(Obj(doc))
  }

  lemma FirstOfWord(s: string, word: string)
    requires s != "" && word != "" && s[0] != word[0] && !('A' <= s[0] <= 'Z')
    ensures !StartsWithWord(s, word)
  {
  }

  lemma NoErrorWord(s: string)
    requires s != "" && 'a' <= s[0] <= 'z' && s[0] != 'e' && s[0] != 'f' && s[0] != 'i' && s[0] != 'w' && s[0] != 's'
    ensures !IsErrorText(s)
  {
    FirstOfWord(s, "error");
    FirstOfWord(s, "failed");
    FirstOfWord(s, "invalid");
    FirstOfWord(s, "warning");
    FirstOfWord(s, "status");
  }

  lemma VersionKey(s: string)
    requires "version:" <= s
    ensures HasKeyLine(s, true)
  {
    assert s[0] == 'v';
    assert forall c :: c in "ersion" ==> IsKeyStart(c);
    assert "ersion:" <= s[1..];
    ColonAfterKey("ersion", s[1..]);
  }

  lemma VersionLine(s: string)
    requires "version:" <= s
    ensures "version:" <= Trim(s) && !IsErrorText(Trim(s)) && HasKeyLine(Trim(s), true)
  {
    var v := "version:";
    assert s == v + s[8..];
    assert s[0] == 'v';
    assert TrimStart(s) == s;
    TrimEndKeeps(v, s[8..]);
    assert Trim(s)[0] == 'v';
    NoErrorWord(Trim(s));
    VersionKey(Trim(s));
  }

  lemma {:induction false} ColonAfterKey(key: string, s: string)
    requires key + ":" <= s && forall c :: c in key ==> IsKeyStart(c)
    ensures KeyThenColon(s)
  {
    if key != "" {
      assert key[0] in key && s[0] == (key + ":")[0];
      assert (key + ":")[1..] == key[1..] + ":";
      ColonAfterKey(key[1..], s[1..]);
    }
  }

  /** What is printed for a printable document is read as that document. */
  lemma PrintedReadsBack(y: Yaml, doc: Document)
    requires Printable(y, doc)
    ensures DocOf(y, y.print_(doc)) == Some(doc)
  {
    VersionLine(y.print_(doc));
  }

  ghost predicate IsPreset(y: Yaml, entries: string, p: Entries)
  {
    entries != "" && PresetOf(y, entries) == Some(p)
  }

  /** A merge prints the sections that were read, with the preset's entries winning and a usable
      version; only a section named __proto__ is lost. The version comes first, then the other
      sections and then the entries, where those that were there keep their places. */
  lemma MergedSections(y: Yaml, read: NumberReader, current: string, entries: string, p: Entries, doc: Document)
    requires IsPreset(y, entries, p) && DocOf(y, current) == Some(doc)
    ensures var merged := Merge(Some(doc), p, read);
            && MergeText(y, read, current, entries) == y.print_(merged)
            && (Printable(y, merged) ==> DocOf(y, MergeText(y, read, current, entries)) == Some(merged))
            && (forall key :: key !in NOT_COPIED ==> Get(merged, key) == Get(doc, key))
            && Get(merged, "__proto__") == None
            && (forall k :: k in Keys(p) ==> Get(PolicyEntries(merged), k) == Some(p.props[k]))
            && (forall k :: k !in Keys(p) ==> Get(PolicyEntries(merged), k) == Get(PolicyEntries(doc), k))
            && "version" in Keys(merged) && merged.props["version"].Num? && merged.props["version"].n != 0.0
            && merged.order == ["version"] + Dropped(doc.order, NOT_COPIED) + [HEADER]
            && PolicyEntries(merged).order ==
                 PolicyEntries(doc).order + Dropped(p.order, Names(PolicyEntries(doc).order))
  {
    MergeSections(doc, p, read);
    if Printable(y, Merge(Some(doc), p, read)) { PrintedReadsBack(y, Merge(Some(doc), p, read)); }
  }

  lemma MergedText(y: Yaml, read: NumberReader, text: string, entries: string, p: Entries)
    requires IsPreset(y, entries, p)
    ensures MergeText(y, read, text, entries) == y.print_(Merge(DocOf(y, text), p, read))
  {
  }

  /** Merging one preset after another prints one merge of both, if what is printed between is printable. */
  lemma MergeTextTwo(y: Yaml, read: NumberReader, current: string, e: string, f: string, p: Entries, q: Entries)
    requires IsPreset(y, e, p) && IsPreset(y, f, q) && Printable(y, Merge(DocOf(y, current), p, read))
    ensures MergeText(y, read, MergeText(y, read, current, e), f) ==
            y.print_(Merge(DocOf(y, current), Spread(p, q), read))
  {
    PrintedReadsBack(y, Merge(DocOf(y, current), p, read));
    MergeTwo(DocOf(y, current), p, q, read);
  }

  /** The entries that were there, off the preset's keys, and the places of all keys. */
  predicate Fills(a: Entries, p: Entries, all: Entries)
  {
    a.props - Keys(p) == all.props - Keys(p) && all.order == a.order + Dropped(p.order, Names(a.order))
  }

  /** What is read back has the sections, the version and the entries beside the preset's of the merged document. */
  predicate Agrees(back: Option<Document>, merged: Document, p: Entries, read: NumberReader)
  {
    && OthersOf(back) == Others(merged)
    && Get(merged, "version") == Some(VersionRead(back, read))
    && Fills(CurrentEntries(back), p, PolicyEntries(merged))
  }

  lemma Patched(a: map<string, Value>, c: map<string, Value>, p: map<string, Value>)
    ensures (c + p) - p.Keys == c - p.Keys
    ensures a + p == c + p <==> a - p.Keys == c - p.Keys
  {
    if a + p == c + p { assert a - p.Keys == (a + p) - p.Keys; }
    if a - p.Keys == c - p.Keys {
      forall k | k !in p ensures k in a <==> k in c {
        assert k in a <==> k in a - p.Keys;
        assert k in c <==> k in c - p.Keys;
      }
      forall k | k !in p && k in a ensures a[k] == c[k] {
        assert a[k] == (a - p.Keys)[k] == (c - p.Keys)[k];
      }
      assert a + p == c + p;
    }
  }

  lemma MergeReproduces(back: Option<Document>, current: Option<Document>, p: Entries, read: NumberReader)
    ensures var merged := Merge(current, p, read);
            Merge(back, p, read) == merged <==> Agrees(back, merged, p, read)
  {
    SameMergeIff(back, p, current, p, read);
    MergeParts(current, p, read);
    Patched(CurrentEntries(back).props, CurrentEntries(current).props, p.props);
  }

  /** Merging the same preset again changes nothing if and only if what is read of the result agrees with it. */
  lemma MergeTextAgainIff(y: Yaml, read: NumberReader, current: string, entries: string, p: Entries)
    requires IsPreset(y, entries, p)
    requires PrintsBack(y, Merge(DocOf(y, current), p, read))
    requires PrintsBack(y, Merge(DocOf(y, MergeText(y, read, current, entries)), p, read))
    ensures var once := MergeText(y, read, current, entries);
            MergeText(y, read, once, entries) == once <==>
            Agrees(DocOf(y, once), Merge(DocOf(y, current), p, read), p, read)
  {
    MergeReproduces(DocOf(y, MergeText(y, read, current, entries)), DocOf(y, current), p, read);
  }

  /** Merging one preset after another prints one merge of both if and only if what is read in
      between agrees with it on everything that the second preset does not bring. */
  lemma MergeTextTwoIff(y: Yaml, read: NumberReader, current: string, e: string, f: string, p: Entries, q: Entries)
    requires IsPreset(y, e, p) && IsPreset(y, f, q)
    requires PrintsBack(y, Merge(DocOf(y, current), Spread(p, q), read))
    requires PrintsBack(y, Merge(DocOf(y, MergeText(y, read, current, e)), q, read))
    ensures var once := MergeText(y, read, current, e);
            var both := Merge(DocOf(y, current), Spread(p, q), read);
            MergeText(y, read, once, f) == y.print_(both) <==> Agrees(DocOf(y, once), both, q, read)
  {
    var once := MergeText(y, read, current, e);
    MergedText(y, read, once, f, q);
    MergeTwo(DocOf(y, current), p, q, read);
    MergeReproduces(DocOf(y, once), Some(Merge(DocOf(y, current), p, read)), q, read);
  }

  /** In particular nothing changes when the merged document is printable. */
  lemma MergeTextAgain(y: Yaml, read: NumberReader, current: string, entries: string, p: Entries)
    requires IsPreset(y, entries, p) && Printable(y, Merge(DocOf(y, current), p, read))
    ensures var once := MergeText(y, read, current, entries);
            MergeText(y, read, once, entries) == once
  {
    PrintedReadsBack(y, Merge(DocOf(y, current), p, read));
    MergeIsIdempotent(DocOf(y, current), p, read);
  }

  // ----- Merging by preset names -----

  function MergeAllText(y: Yaml, read: NumberReader, current: string, all: seq<string>): string
  {
    if all == [] then current
    else MergeText(y, read, MergeAllText(y, read, current, all[..|all|-1]), all[|all|-1])
  }

  /** The first occurrence of every name, in order. */
  function Dedup(names: seq<string>): (r: seq<string>)
    ensures forall n :: n in r <==> n in names
    ensures forall i, j :: 0 <= i < j < |r| ==> r[i] != r[j]
  {
    if names == [] then []
    else
      var before := Dedup(names[..|names|-1]);
      if names[|names|-1] in before then before else before + [names[|names|-1]]
  }

  /** The entries text of each named preset; empty for one that is missing or has none. */
  type Library = string -> string

  function Known(names: seq<string>, load: Library): seq<string>
  {
    if names == [] then []
    else Known(names[..|names|-1], load) + (if load(names[|names|-1]) != "" then [names[|names|-1]] else [])
  }

  function Missing(names: seq<string>, load: Library): seq<string>
  {
    if names == [] then []
    else Missing(names[..|names|-1], load) + (if load(names[|names|-1]) != "" then [] else [names[|names|-1]])
  }

  function EntriesOf(names: seq<string>, load: Library): seq<string>
  {
    if names == [] then []
    else
      var last := load(names[|names|-1]);
      EntriesOf(names[..|names|-1], load) + (if last != "" then [last] else [])
  }

  lemma NextName(names: seq<string>, i: nat, load: Library)
    requires i < |names|
    ensures load(names[i]) == "" ==>
              && EntriesOf(names[..i+1], load) == EntriesOf(names[..i], load)
              && Known(names[..i+1], load) == Known(names[..i], load)
              && Missing(names[..i+1], load) == Missing(names[..i], load) + [names[i]]
    ensures load(names[i]) != "" ==>
              && EntriesOf(names[..i+1], load) == EntriesOf(names[..i], load) + [load(names[i])]
              && Known(names[..i+1], load) == Known(names[..i], load) + [names[i]]
              && Missing(names[..i+1], load) == Missing(names[..i], load)
  {
    assert names[..i+1][..i] == names[..i];
  }

  lemma MergeAllMore(y: Yaml, read: NumberReader, current: string, all: seq<string>, entries: string)
    ensures MergeAllText(y, read, current, all + [entries]) ==
            MergeText(y, read, MergeAllText(y, read, current, all), entries)
  {
    assert (all + [entries])[..|all|] == all;
  }

  method MergeNames(y: Yaml, read: NumberReader, current: string, names: seq<string>, load: Library)
    returns (policy: string, applied: seq<string>, missing: seq<string>)
    ensures policy == MergeAllText(y, read, current, EntriesOf(names, load))
    ensures applied == Known(names, load) && missing == Missing(names, load)
  {
    policy, applied, missing := current, [], [];
    for i := 0 to |names|
      invariant policy == MergeAllText(y, read, current, EntriesOf(names[..i], load))
      invariant applied == Known(names[..i], load) && missing == Missing(names[..i], load)
    {
      NextName(names, i, load);
      var entries := load(names[i]);
      if entries == "" {
        missing := missing + [names[i]];
      } else {
        MergeAllMore(y, read, current, EntriesOf(names[..i], load), entries);
        policy := MergeText(y, read, policy, entries);
        applied := applied + [names[i]];
      }
    }
    assert names[..|names|] == names;
  }

  method MergePresetNames(y: Yaml, read: NumberReader, current: string, presetNames: seq<string>, load: Library)
    returns (policy: string, applied: seq<string>, missing: seq<string>)
    ensures policy == MergeAllText(y, read, current, EntriesOf(Dedup(presetNames), load))
    ensures applied == Known(Dedup(presetNames), load) && missing == Missing(Dedup(presetNames), load)
  {
    policy, applied, missing := MergeNames(y, read, current, Dedup(presetNames), load);
  }

  ghost predicate ArePresets(y: Yaml, all: seq<string>, presets: seq<Entries>)
  {
    |all| == |presets| && forall i :: 0 <= i < |all| ==> IsPreset(y, all[i], presets[i])
  }

  /** Every document that is printed and read again on the way is printable. */
  ghost predicate ChainPrintable(y: Yaml, read: NumberReader, current: Option<Document>, presets: seq<Entries>)
  {
    forall i :: 0 < i < |presets| ==> Printable(y, Merge(current, Union(presets[..i]), read))
  }

  lemma ChainMore(y: Yaml, read: NumberReader, before: Option<Document>, text: string, entries: string, p: Entries,
                  sofar: Entries)
    requires IsPreset(y, entries, p) && Printable(y, Merge(before, sofar, read))
    requires text == y.print_(Merge(before, sofar, read))
    ensures MergeText(y, read, text, entries) == y.print_(Merge(before, Spread(sofar, p), read))
  {
    PrintedReadsBack(y, Merge(before, sofar, read));
    MergedText(y, read, text, entries, p);
    MergeTwo(before, sofar, p, read);
  }

  lemma ChainPrefix(y: Yaml, read: NumberReader, before: Option<Document>, presets: seq<Entries>)
    requires |presets| > 1 && ChainPrintable(y, read, before, presets)
    ensures ChainPrintable(y, read, before, presets[..|presets|-1])
    ensures Printable(y, Merge(before, Union(presets[..|presets|-1]), read))
  {
    var n := |presets| - 1;
    forall i | 0 < i < n ensures Printable(y, Merge(before, Union(presets[..n][..i]), read)) {
      assert presets[..n][..i] == presets[..i];
    }
  }

  lemma ArePresetsPrefix(y: Yaml, all: seq<string>, presets: seq<Entries>)
    requires all != [] && ArePresets(y, all, presets)
    ensures ArePresets(y, all[..|all|-1], presets[..|presets|-1])
    ensures IsPreset(y, all[|all|-1], presets[|presets|-1])
  {
  }

  lemma FirstUnion(presets: seq<Entries>)
    requires |presets| == 1
    ensures Union(presets) == presets[0]
  {
    assert presets[..0] == [];
    SpreadNothing(presets[0]);
  }

  /** A printable chain of merges prints one merge of all entries, the later ones winning. */
  lemma {:induction false} MergeAllTextIsOneMerge(y: Yaml, read: NumberReader, current: string, all: seq<string>,
                                                  presets: seq<Entries>)
    requires all != [] && ArePresets(y, all, presets) && ChainPrintable(y, read, DocOf(y, current), presets)
    ensures MergeAllText(y, read, current, all) == y.print_(Merge(DocOf(y, current), Union(presets), read))
  {
    var n := |all| - 1;
    ArePresetsPrefix(y, all, presets);
    if n == 0 {
      MergedText(y, read, current, all[0], presets[0]);
      FirstUnion(presets);
    } else {
      ChainPrefix(y, read, DocOf(y, current), presets);
      MergeAllTextIsOneMerge(y, read, current, all[..n], presets[..n]);
      ChainMore(y, read, DocOf(y, current), MergeAllText(y, read, current, all[..n]), all[n], presets[n],
                Union(presets[..n]));
    }
  }

  // ----- The order of presets -----

  /** Different printable documents have different texts. */
  lemma SameDocumentSameText(y: Yaml, a: Document, b: Document)
    requires Printable(y, a) && Printable(y, b)
    ensures y.print_(a) == y.print_(b) <==> a == b
  {
  }

  /** Along printable chains, presets with disjoint keys give texts that read as the same content in
      any order, repeated or not. The texts are the same if and only if the keys that are new come
      in the same order. */
  lemma MergeTextOrder(y: Yaml, read: NumberReader, current: string, a: seq<string>, b: seq<string>,
                       ps: seq<Entries>, qs: seq<Entries>)
    requires a != [] && b != [] && ArePresets(y, a, ps) && ArePresets(y, b, qs)
    requires ChainPrintable(y, read, DocOf(y, current), ps) && ChainPrintable(y, read, DocOf(y, current), qs)
    requires Printable(y, Merge(DocOf(y, current), Union(ps), read))
    requires Printable(y, Merge(DocOf(y, current), Union(qs), read))
    requires KeyDisjoint(ps) && forall p :: p in ps <==> p in qs
    ensures var s, t := DocOf(y, MergeAllText(y, read, current, a)), DocOf(y, MergeAllText(y, read, current, b));
            s.Some? && t.Some? && SameContent(s.value, t.value)
    ensures MergeAllText(y, read, current, a) == MergeAllText(y, read, current, b) <==>
            NewKeys(DocOf(y, current), Union(ps)) == NewKeys(DocOf(y, current), Union(qs))
  {
    var first, second := Merge(DocOf(y, current), Union(ps), read), Merge(DocOf(y, current), Union(qs), read);
    MergeAllTextIsOneMerge(y, read, current, a, ps);
    MergeAllTextIsOneMerge(y, read, current, b, qs);
    UnionsOfDisjoint(ps, qs);
    SameEntriesMerged(DocOf(y, current), Union(ps), Union(qs), read);
    PrintedReadsBack(y, first);
    PrintedReadsBack(y, second);
    SameDocumentSameText(y, first, second);
  }

  /** Two presets with disjoint keys: the content read is the same in both orders, and the texts are
      if and only if one of the two adds no key, indices aside. */
  lemma TwoPresetsOrderIff(y: Yaml, read: NumberReader, current: string, e: string, p: Entries, f: string, q: Entries)
    requires IsPreset(y, e, p) && IsPreset(y, f, q) && WellFormed(p) && WellFormed(q) && Keys(p) !! Keys(q)
    requires Printable(y, Merge(DocOf(y, current), p, read)) && Printable(y, Merge(DocOf(y, current), q, read))
    requires Printable(y, Merge(DocOf(y, current), Spread(p, q), read))
    requires Printable(y, Merge(DocOf(y, current), Spread(q, p), read))
    ensures var s := DocOf(y, MergeAllText(y, read, current, [e, f]));
            var t := DocOf(y, MergeAllText(y, read, current, [f, e]));
            s.Some? && t.Some? && SameContent(s.value, t.value)
    ensures MergeAllText(y, read, current, [e, f]) == MergeAllText(y, read, current, [f, e]) <==>
            NewKeys(DocOf(y, current), p) == [] || NewKeys(DocOf(y, current), q) == []
  {
    MergeAllTwo(y, read, current, e, f);
    MergeAllTwo(y, read, current, f, e);
    MergeTextTwo(y, read, current, e, f, p, q);
    MergeTextTwo(y, read, current, f, e, q, p);
    TwoOrdersIff(DocOf(y, current), p, q, read);
    PrintedReadsBack(y, Merge(DocOf(y, current), Spread(p, q), read));
    PrintedReadsBack(y, Merge(DocOf(y, current), Spread(q, p), read));
    SameDocumentSameText(y, Merge(DocOf(y, current), Spread(p, q), read), Merge(DocOf(y, current), Spread(q, p), read));
  }

  /** The object with one key and an empty object under it. */
  function One(key: string): Entries
  {
    Document(map[key := Obj(NOTHING)], [key])
  }

  lemma LetterIsNoIndex(key: string)
    requires key != "" && !('0' <= key[0] <= '9')
    ensures WellFormed(One(key))
  {
    forall n: nat ensures Decimal(n) != key {
      assert Decimal(n)[0] in Decimal(n);
    }
  }

  /** Without a current policy the presets c and d are printed in the order in which they are merged. */
  lemma NewPresetsOrder(y: Yaml, read: NumberReader, current: string, e: string, f: string)
    requires DocOf(y, current).None? && IsPreset(y, e, One("c")) && IsPreset(y, f, One("d"))
    requires Printable(y, Merge(None, One("c"), read)) && Printable(y, Merge(None, One("d"), read))
    requires Printable(y, Merge(None, Spread(One("c"), One("d")), read))
    requires Printable(y, Merge(None, Spread(One("d"), One("c")), read))
    ensures MergeAllText(y, read, current, [e, f]) != MergeAllText(y, read, current, [f, e])
  {
    LetterIsNoIndex("c");
    LetterIsNoIndex("d");
    TwoPresetsOrderIff(y, read, current, e, One("c"), f, One("d"));
    NoneDropped(["c"], {});
    NoneDropped(["d"], {});
    assert Names([]) == {};
  }

  /** Two policies merge, each with its own preset, to the same sections, version and entries in the same order. */
  predicate Alike(a: Option<Document>, p: Entries, b: Option<Document>, q: Entries, read: NumberReader)
  {
    && OthersOf(a) == OthersOf(b)
    && VersionRead(a, read) == VersionRead(b, read)
    && Spread(CurrentEntries(a), p) == Spread(CurrentEntries(b), q)
  }

  /** The same, in any order. */
  predicate AlikeContent(a: Option<Document>, p: Entries, b: Option<Document>, q: Entries, read: NumberReader)
  {
    && OthersOf(a).props == OthersOf(b).props
    && VersionRead(a, read) == VersionRead(b, read)
    && CurrentEntries(a).props + p.props == CurrentEntries(b).props + q.props
  }

  /** Two merges print the same text if and only if what they read merges alike, and texts of the same
      content if and only if that holds but for the order. */
  lemma SameTextIff(y: Yaml, read: NumberReader, s: string, e: string, p: Entries, t: string, f: string, q: Entries)
    requires IsPreset(y, e, p) && IsPreset(y, f, q)
    requires PrintsBack(y, Merge(DocOf(y, s), p, read)) && PrintsBack(y, Merge(DocOf(y, t), q, read))
    ensures MergeText(y, read, s, e) == MergeText(y, read, t, f) <==> Alike(DocOf(y, s), p, DocOf(y, t), q, read)
    ensures SameTextContent(y, MergeText(y, read, s, e), MergeText(y, read, t, f)) <==>
            AlikeContent(DocOf(y, s), p, DocOf(y, t), q, read)
  {
    MergedText(y, read, s, e, p);
    MergedText(y, read, t, f, q);
    SameMergeIff(DocOf(y, s), p, DocOf(y, t), q, read);
    SameContentIff(DocOf(y, s), p, DocOf(y, t), q, read);
  }

  /** Both texts parse to objects with the same content. */
  predicate SameTextContent(y: Yaml, s: string, t: string)
  {
    && y.parse(s).Some? && y.parse(s).value.Obj? && y.parse(t).Some? && y.parse(t).value.Obj?
    && SameContent(y.parse(s).value.fields, y.parse(t).value.fields)
  }

  /** Whatever was lost in between, two presets give the same text in both orders, or texts of the
      same content, if and only if what is read in between merges so. */
  lemma MergeTextOrderIff(y: Yaml, read: NumberReader, current: string, e: string, p: Entries, f: string, q: Entries)
    requires IsPreset(y, e, p) && IsPreset(y, f, q)
    requires PrintsBack(y, Merge(DocOf(y, MergeText(y, read, current, e)), q, read))
    requires PrintsBack(y, Merge(DocOf(y, MergeText(y, read, current, f)), p, read))
    ensures var first, second := MergeAllText(y, read, current, [e, f]), MergeAllText(y, read, current, [f, e]);
            var a, b := DocOf(y, MergeText(y, read, current, e)), DocOf(y, MergeText(y, read, current, f));
            && (first == second <==> Alike(a, q, b, p, read))
            && (SameTextContent(y, first, second) <==> AlikeContent(a, q, b, p, read))
  {
    MergeAllTwo(y, read, current, e, f);
    MergeAllTwo(y, read, current, f, e);
    SameTextIff(y, read, MergeText(y, read, current, e), f, q, MergeText(y, read, current, f), e, p);
  }

  lemma MergeAllTwo(y: Yaml, read: NumberReader, current: string, e: string, f: string)
    ensures MergeAllText(y, read, current, [e, f]) == MergeText(y, read, MergeText(y, read, current, e), f)
  {
    assert [e, f] == [e] + [f] && [e] == [] + [e];
    MergeAllMore(y, read, current, [e], f);
    MergeAllMore(y, read, current, [], e);
  }

  /** A list of presets prints one merge of all entries if and only if what the last merge reads
      agrees with it on everything that the last preset does not bring. */
  lemma MergeAllTextIff(y: Yaml, read: NumberReader, current: string, all: seq<string>, presets: seq<Entries>)
    requires all != [] && ArePresets(y, all, presets)
    requires PrintsBack(y, Merge(DocOf(y, current), Union(presets), read))
    requires PrintsBack(y, Merge(DocOf(y, MergeAllText(y, read, current, all[..|all|-1])), presets[|all|-1], read))
    ensures var both := Merge(DocOf(y, current), Union(presets), read);
            MergeAllText(y, read, current, all) == y.print_(both) <==>
            Agrees(DocOf(y, MergeAllText(y, read, current, all[..|all|-1])), both, presets[|all|-1], read)
  {
    var before, last := MergeAllText(y, read, current, all[..|all|-1]), presets[|all|-1];
    ArePresetsPrefix(y, all, presets);
    MergedText(y, read, before, all[|all|-1], last);
    UnionLast(DocOf(y, current), presets, read);
    if |presets| == 1 {
      FirstUnion(presets);
      MergeReproduces(DocOf(y, before), DocOf(y, current), last, read);
    } else {
      var all := Merge(DocOf(y, current), Union(presets[..|presets|-1]), read);
      MergeReproduces(DocOf(y, before), Some(all), last, read);
    }
  }

  lemma UnionLast(current: Option<Document>, presets: seq<Entries>, read: NumberReader)
    requires presets != []
    ensures Merge(Some(Merge(current, Union(presets[..|presets|-1]), read)), presets[|presets|-1], read) ==
            Merge(current, Union(presets), read)
  {
    MergeTwo(current, Union(presets[..|presets|-1]), presets[|presets|-1], read);
  }

  // ----- Removing -----

  lemma PresetKeys(y: Yaml, entries: string, p: Entries)
    requires IsPreset(y, entries, p)
    ensures ObjectKeys(EntriesValue(y, entries)) == Keys(p) && (p.props != map[] ==> Keys(p) != {})
  {
    if p.props != map[] {
      var k :| k in p.props;
      assert k in Keys(p);
    }
  }

  lemma RemovedText(y: Yaml, text: string, entries: string, p: Entries, doc: Document)
    requires IsPreset(y, entries, p) && p.props != map[]
    requires DocOf(y, text) == Some(doc) && HasEntries(doc)
    ensures RemoveText(y, text, entries) == y.print_(Remove(doc, Keys(p)))
  {
    PresetKeys(y, entries, p);
  }

  /** Removing a nonempty preset from the merged text prints the original entries without its keys,
      and keeps every other section and all places. */
  lemma RemoveTextAfterMerge(y: Yaml, read: NumberReader, current: string, entries: string, p: Entries)
    requires IsPreset(y, entries, p) && p.props != map[] && WellFormed(p)
    requires Printable(y, Merge(DocOf(y, current), p, read))
    ensures var merged := Merge(DocOf(y, current), p, read);
            var removed := Remove(merged, Keys(p));
            && RemoveText(y, MergeText(y, read, current, entries), entries) == y.print_(removed)
            && PolicyEntries(removed) == WithoutKeys(CurrentEntries(DocOf(y, current)), Keys(p))
            && (forall key :: key != HEADER ==> Get(removed, key) == Get(merged, key))
            && removed.order == merged.order
  {
    var before := DocOf(y, current);
    var merged := Merge(before, p, read);
    var text := MergeText(y, read, current, entries);
    assert text == y.print_(merged);
    PrintedReadsBack(y, merged);
    MergeParts(before, p, read);
    RemovedText(y, text, entries, p, merged);
    RemoveAfterMerge(before, p, read);
  }

  /** What is read back has the network section, and is the merged document but for the preset's entries. */
  predicate RemovesAlike(back: Option<Document>, merged: Document, p: Entries)
  {
    && back.Some? && HasEntries(back.value)
    && back.value.props - {HEADER} == merged.props - {HEADER} && back.value.order == merged.order
    && WithoutKeys(PolicyEntries(back.value), Keys(p)) == WithoutKeys(PolicyEntries(merged), Keys(p))
  }

  lemma RemoveReproduces(back: Document, merged: Document, keys: set<string>)
    requires keys != {} && HasEntries(back) && HasEntries(merged)
    ensures Remove(back, keys) == Remove(merged, keys) <==>
            back.props - {HEADER} == merged.props - {HEADER} && back.order == merged.order
            && WithoutKeys(PolicyEntries(back), keys) == WithoutKeys(PolicyEntries(merged), keys)
  {
    var a, b := Remove(back, keys), Remove(merged, keys);
    RemoveParts(back, keys);
    RemoveParts(merged, keys);
    assert a.props == (a.props - {HEADER})[HEADER := a.props[HEADER]];
    assert b.props == (b.props - {HEADER})[HEADER := b.props[HEADER]];
  }

  lemma {:induction false} TrimmedEnd(s: string)
    ensures TrimEnd(s) == "" || !IsJsSpace(TrimEnd(s)[|TrimEnd(s)|-1])
  {
    if s != "" { TrimmedEnd(s[..|s|-1]); }
  }

  /** What is read has no blank at its end. */
  lemma ReadIsTrimmed(y: Yaml, raw: string)
    ensures var text := ParseCurrent(y, raw); text == "" || !IsJsSpace(text[|text|-1])
  {
    var after := AfterDashes(raw);
    TrimmedEnd(TrimStart(if after.Some? then after.value else raw));
  }

  /** Printed texts end in a line feed, and this one is not the empty policy. */
  predicate PrintsLines(y: Yaml, doc: Document)
  {
    var text := y.print_(doc);
    text != "" && text[|text|-1] == '\n' && text != EMPTY_POLICY
  }

  lemma RemovedIff(y: Yaml, text: string, entries: string, p: Entries, merged: Document)
    requires IsPreset(y, entries, p) && p.props != map[] && HasEntries(merged)
    requires PrintsBack(y, Remove(merged, Keys(p))) && PrintsLines(y, Remove(merged, Keys(p)))
    requires DocOf(y, text).Some? ==> PrintsBack(y, Remove(DocOf(y, text).value, Keys(p)))
    ensures RemoveText(y, text, entries) == y.print_(Remove(merged, Keys(p))) <==>
            RemovesAlike(DocOf(y, text), merged, p)
  {
    var back := DocOf(y, text);
    PresetKeys(y, entries, p);
    ReadIsTrimmed(y, text);
    if back.Some? && HasEntries(back.value) {
      RemovedText(y, text, entries, p, back.value);
      RemoveReproduces(back.value, merged, Keys(p));
    }
  }

  /** Removing a nonempty preset from the merged text prints the merged document without its
      entries if and only if what is read of that text is the document but for those entries. */
  lemma RemoveTextIff(y: Yaml, read: NumberReader, current: string, entries: string, p: Entries)
    requires IsPreset(y, entries, p) && p.props != map[]
    requires var removed := Remove(Merge(DocOf(y, current), p, read), Keys(p));
             PrintsBack(y, removed) && PrintsLines(y, removed)
    requires var back := DocOf(y, MergeText(y, read, current, entries));
             back.Some? ==> PrintsBack(y, Remove(back.value, Keys(p)))
    ensures var once, merged := MergeText(y, read, current, entries), Merge(DocOf(y, current), p, read);
            RemoveText(y, once, entries) == y.print_(Remove(merged, Keys(p))) <==>
            RemovesAlike(DocOf(y, once), merged, p)
  {
    MergeParts(DocOf(y, current), p, read);
    RemovedIff(y, MergeText(y, read, current, entries), entries, p, Merge(DocOf(y, current), p, read));
  }

  // ----- The presets that a gateway has -----

  /** The keys of an object or array of entries. */
  function ListedKeys(y: Yaml, entries: string): set<string>
  {
    var value := EntriesValue(y, entries);
    if value.Str? then {} else ObjectKeys(value)
  }

  predicate Reported(y: Yaml, entries: string, doc: Document)
  {
    entries != "" && Active(ListedKeys(y, entries), doc)
  }

  function ReportedNames(y: Yaml, listed: seq<string>, load: Library, doc: Document): seq<string>
  {
    if listed == [] then []
    else
      var last := listed[|listed|-1];
      ReportedNames(y, listed[..|listed|-1], load, doc) + (if Reported(y, load(last), doc) then [last] else [])
  }

  method MatchingPresets(y: Yaml, doc: Document, listed: seq<string>, load: Library) returns (matched: seq<string>)
    requires HasEntries(doc)
    ensures matched == ReportedNames(y, listed, load, doc)
  {
    var gatewayNames := Keys(PolicyEntries(doc));
    matched := [];
    for i := 0 to |listed|
      invariant matched == ReportedNames(y, listed[..i], load, doc)
    {
      assert listed[..i+1][..i] == listed[..i];
      var entries := load(listed[i]);
      if entries == "" { continue; }
      var presetKeys := ListedKeys(y, entries);
      if presetKeys != {} && presetKeys <= gatewayNames {
        matched := matched + [listed[i]];
      }
    }
    assert listed[..|listed|] == listed;
  }

  /** None for a gateway that cannot be asked or answers nothing usable. */
  method GetGatewayPresets(y: Yaml, rawPolicy: Option<string>, listed: seq<string>, load: Library)
    returns (r: Option<seq<string>>)
    ensures r.None? <==> rawPolicy.None? || DocOf(y, rawPolicy.value).None?
    ensures r.Some? ==> r.value == ReportedNames(y, listed, load, DocOf(y, rawPolicy.value).value)
  {
    if rawPolicy.None? { return None; }
    var policy := ParseCurrent(y, rawPolicy.value);
    if policy == "" { return None; }
    var doc := y.parse(policy).value.fields;
    if !HasEntries(doc) {
      NoneReported(y, listed, load, doc);
      return Some([]);
    }
    var matched := MatchingPresets(y, doc, listed, load);
    return Some(matched);
  }

  lemma {:induction false} NoneReported(y: Yaml, listed: seq<string>, load: Library, doc: Document)
    requires PolicyEntries(doc) == NOTHING
    ensures ReportedNames(y, listed, load, doc) == []
  {
    if listed != [] { NoneReported(y, listed[..|listed|-1], load, doc); }
  }

  lemma {:induction false} ReportedExactly(y: Yaml, listed: seq<string>, load: Library, doc: Document)
    ensures forall n :: n in ReportedNames(y, listed, load, doc) <==> n in listed && Reported(y, load(n), doc)
  {
    if listed != [] {
      ReportedExactly(y, listed[..|listed|-1], load, doc);
      assert listed == listed[..|listed|-1] + [listed[|listed|-1]];
    }
  }

  lemma AnswerIs(y: Yaml, header: string, text: string, doc: Document)
    requires !HasDashes(header + "--") && "version:" <= text && y.parse(Trim(text)) == Some(Obj(doc))
    ensures DocOf(y, header + DASHES + text) == Some(doc)
  {
    VersionLine(text);
    HeaderIsDropped(y, header, text);
  }

  lemma ActiveIsReported(y: Yaml, entries: string, p: Entries, doc: Document)
    requires IsPreset(y, entries, p) && Active(Keys(p), doc)
    ensures Reported(y, entries, doc)
  {
    assert ListedKeys(y, entries) == Keys(p);
  }

  /** A gateway that answers with a header and the merged text reports every nonempty merged
      preset, even when the text itself has three dashes. */
  lemma MergedAreReported(y: Yaml, read: NumberReader, current: string, all: seq<string>, presets: seq<Entries>,
                          header: string, i: nat)
    requires all != [] && ArePresets(y, all, presets) && ChainPrintable(y, read, DocOf(y, current), presets)
    requires !HasDashes(header + "--") && i < |all| && presets[i].props != map[]
    requires "version:" <= MergeAllText(y, read, current, all)
    requires var merged := Merge(DocOf(y, current), Union(presets), read);
             y.parse(Trim(y.print_(merged))) == Some(Obj(merged))
    ensures var answer := DocOf(y, header + DASHES + MergeAllText(y, read, current, all));
            answer.Some? && Reported(y, all[i], answer.value)
  {
    var before := DocOf(y, current);
    MergeAllTextIsOneMerge(y, read, current, all, presets);
    AnswerIs(y, header, MergeAllText(y, read, current, all), Merge(before, Union(presets), read));
    MergeAllIsOneMerge(before, presets, read);
    MergedAreActive(before, presets, presets[i], read);
    ActiveIsReported(y, all[i], presets[i], Merge(before, Union(presets), read));
  }

  lemma ReportedKeys(y: Yaml, entries: string, p: Entries, doc: Document)
    requires IsPreset(y, entries, p)
    ensures Reported(y, entries, doc) <==> p.props != map[] && Keys(p) <= Keys(PolicyEntries(doc))
  {
    PresetKeys(y, entries, p);
    assert ListedKeys(y, entries) == Keys(p);
  }

  /** Whatever was lost on the way, a gateway that answers with a header and the merged text reports
      a preset if and only if the last merge read or brought all its keys; so always the last one. */
  lemma MergedReportedIff(y: Yaml, read: NumberReader, current: string, all: seq<string>, presets: seq<Entries>,
                          header: string, i: nat)
    requires all != [] && ArePresets(y, all, presets) && i < |all| && !HasDashes(header + "--")
    requires "version:" <= MergeAllText(y, read, current, all)
    requires var merged := Merge(DocOf(y, MergeAllText(y, read, current, all[..|all|-1])), presets[|all|-1], read);
             y.parse(Trim(y.print_(merged))) == Some(Obj(merged))
    ensures var answer := DocOf(y, header + DASHES + MergeAllText(y, read, current, all));
            var known := CurrentEntries(DocOf(y, MergeAllText(y, read, current, all[..|all|-1])));
            answer.Some? &&
            (Reported(y, all[i], answer.value) <==>
               presets[i].props != map[] && Keys(presets[i]) <= Keys(known) + Keys(presets[|all|-1]))
  {
    var before, last := MergeAllText(y, read, current, all[..|all|-1]), presets[|all|-1];
    ArePresetsPrefix(y, all, presets);
    MergedText(y, read, before, all[|all|-1], last);
    AnswerIs(y, header, MergeAllText(y, read, current, all), Merge(DocOf(y, before), last, read));
    MergeParts(DocOf(y, before), last, read);
    assert IsPreset(y, all[i], presets[i]);
    ReportedKeys(y, all[i], presets[i], Merge(DocOf(y, before), last, read));
  }

  /** Behind a header, what a removal prints and what it changes of the answer: a preset is still
      reported if and only if it was and shares no key with the removed one. */
  lemma RemovedIsNotReported(y: Yaml, header: string, text: string, doc: Document, entries: string, p: Entries)
    requires !HasDashes(header + "--") && "version:" <= text && y.parse(Trim(text)) == Some(Obj(doc))
    requires IsPreset(y, entries, p) && p.props != map[] && HasEntries(doc)
    requires var removed := Remove(doc, Keys(p));
             "version:" <= y.print_(removed) && y.parse(Trim(y.print_(removed))) == Some(Obj(removed))
    ensures var after := RemoveText(y, header + DASHES + text, entries);
            && after == y.print_(Remove(doc, Keys(p)))
            && DocOf(y, header + DASHES + after) == Some(Remove(doc, Keys(p)))
    ensures forall other :: Reported(y, other, Remove(doc, Keys(p))) <==>
                            Reported(y, other, doc) && ListedKeys(y, other) !! Keys(p)
    ensures !Reported(y, entries, Remove(doc, Keys(p)))
  {
    AnswerIs(y, header, text, doc);
    RemovedText(y, header + DASHES + text, entries, p, doc);
    AnswerIs(y, header, y.print_(Remove(doc, Keys(p))), Remove(doc, Keys(p)));
    forall other
      ensures Reported(y, other, Remove(doc, Keys(p))) <==> Reported(y, other, doc) && ListedKeys(y, other) !! Keys(p)
    {
      ActiveAfterRemove(doc, Keys(p), ListedKeys(y, other));
    }
    ReportedKeys(y, entries, p, Remove(doc, Keys(p)));
    NotRemaining(doc, p);
  }

  lemma NotRemaining(doc: Document, p: Entries)
    requires p.props != map[] && HasEntries(doc)
    ensures !(Keys(p) <= Keys(PolicyEntries(Remove(doc, Keys(p)))))
  {
    var k :| k in p.props;
    assert k in Keys(p) && k !in Keys(PolicyEntries(Remove(doc, Keys(p))));
  }

  // ----- Where three dashes matter -----

  lemma {:induction false} NoDashesBefore(a: string)
    requires '-' !in a
    ensures !HasDashes(a + "--")
  {
    var s := a + "--";
    if a == "" {
      assert s[1..] == "-" && s[1..][1..] == "";
      assert AfterDashes("-") == AfterDashes("");
    } else {
      assert s[0] == a[0] && s[1..] == a[1..] + "--";
      NoDashesBefore(a[1..]);
    }
  }

  /** A text that starts with a one-letter key. */
  lemma ShortKey(y: Yaml, s: string)
    requires |s| > 1 && IsKeyStart(s[0]) && s[1] == ':' && !IsJsSpace(s[|s|-1])
    requires s[0] != 'e' && s[0] != 'f' && s[0] != 'i' && s[0] != 'w' && s[0] != 's' && s[0] != '_'
    requires y.parse(s).Some? && y.parse(s).value.Obj?
    ensures Trim(s) == s && Usable(y, s)
  {
    NoErrorWord(s);
    assert SpacesThenColon(s[1..]);
  }

  /** A key with three dashes costs every section up to it, and the version. */
  lemma DashesCutSections(y: Yaml, read: NumberReader, entries: string, p: Entries, rest: Document)
    requires IsPreset(y, entries, p)
    requires y.parse("y: 1\nfilesystem_policy: a") == Some(Obj(rest))
    requires Get(rest, "x---y") == None && Get(rest, "version") == None
    ensures var text := "version: 2\nx" + DASHES + "y: 1\nfilesystem_policy: a";
            var merged := Merge(Some(rest), p, read);
            && MergeText(y, read, text, entries) == y.print_(merged)
            && Get(merged, "x---y") == None && Get(merged, "version") == Some(Num(1.0))
  {
    var before, after := "version: 2\nx", "y: 1\nfilesystem_policy: a";
    ReadBehindDashes(y, before, after, rest);
    MergedText(y, read, before + DASHES + after, entries, p);
  }

  lemma ReadBehindDashes(y: Yaml, before: string, after: string, rest: Document)
    requires '-' !in before
    requires |after| > 1 && IsKeyStart(after[0]) && after[1] == ':' && !IsJsSpace(after[|after|-1])
    requires after[0] != 'e' && after[0] != 'f' && after[0] != 'i' && after[0] != 'w' && after[0] != 's' &&
        after[0] != '_'
    requires y.parse(after) == Some(Obj(rest))
    ensures DocOf(y, before + DASHES + after) == Some(rest)
  {
    NoDashesBefore(before);
    ShortKey(y, after);
    HeaderIsDropped(y, before, after);
  }

  /** A preset whose printed entries have three dashes: merging it again loses the sections that
      are not read back behind them. */
  lemma SecondMergeLoses(y: Yaml, read: NumberReader, current: string, entries: string, p: Entries,
                         before: string, after: string, key: string)
    requires IsPreset(y, entries, p) && DocOf(y, current).Some? && key in Keys(Others(DocOf(y, current).value))
    requires y.print_(Merge(DocOf(y, current), p, read)) == before + DASHES + after && !HasDashes(before + "--")
    requires Usable(y, Trim(after)) && key !in Keys(y.parse(Trim(after)).value.fields)
    requires PrintsBack(y, Merge(DocOf(y, current), p, read))
    requires PrintsBack(y, Merge(Some(y.parse(Trim(after)).value.fields), p, read))
    ensures var once := MergeText(y, read, current, entries);
            var twice := MergeText(y, read, once, entries);
            twice != once && y.parse(twice).Some? && y.parse(twice).value.Obj? &&
            key !in Keys(y.parse(twice).value.fields)
  {
    var once := MergeText(y, read, current, entries);
    MergedText(y, read, current, entries, p);
    HeaderIsDropped(y, before, after);
    var back := y.parse(Trim(after)).value.fields;
    assert DocOf(y, once) == Some(back);
    MergedText(y, read, once, entries, p);
    MergeTextAgainIff(y, read, current, entries, p);
    MergeParts(DocOf(y, current), p, read);
    MergeParts(Some(back), p, read);
    assert key in Keys(Others(Merge(DocOf(y, current), p, read))) && key !in Keys(Others(back));
    assert key !in Keys(Others(Merge(Some(back), p, read)));
  }

  lemma FlowLine()
    ensures Trim("b: {}\n") == "b: {}"
  {
    assert "b: {}\n" == "b: {}" + "\n";
    TrimEndKeeps("b: {}", "\n");
    assert TrimEnd("\n") == "";
    assert TrimStart("b: {}\n") == "b: {}\n";
  }

  /** For instance a preset with the key a---b, merged into a policy with one other section. */
  lemma DashedPresetMergedTwice(y: Yaml, read: NumberReader, current: string, entries: string, before: string)
    requires IsPreset(y, entries, One("a---b"))
    requires DocOf(y, current) == Some(Document(map["process" := Str("a")], ["process"]))
    requires var p := One("a---b");
             var once := Merge(Some(Document(map["process" := Str("a")], ["process"])), p, read);
             && y.print_(once) == before + DASHES + "b: {}\n" && '-' !in before
             && y.parse("b: {}") == Some(Obj(One("b")))
             && PrintsBack(y, once) && PrintsBack(y, Merge(Some(One("b")), p, read))
    ensures var once := MergeText(y, read, current, entries);
            var twice := MergeText(y, read, once, entries);
            twice != once && y.parse(twice).Some? && y.parse(twice).value.Obj? &&
            "process" !in Keys(y.parse(twice).value.fields)
  {
    NoDashesBefore(before);
    FlowLine();
    ShortKey(y, "b: {}");
    SecondMergeLoses(y, read, current, entries, One("a---b"), before, "b: {}\n", "process");
  }

  /** A printed policy that three dashes cut just before one last empty entry b. */
  predicate CutBeforeB(y: Yaml, doc: Document, before: string)
  {
    && y.print_(doc) == before + DASHES + "b: {}\n" && '-' !in before
    && y.parse("b: {}") == Some(Obj(One("b")))
  }

  lemma ReadCutBeforeB(y: Yaml, doc: Document, before: string)
    requires CutBeforeB(y, doc, before)
    ensures ParseCurrent(y, y.print_(doc)) == "b: {}" && DocOf(y, y.print_(doc)) == Some(One("b"))
  {
    NoDashesBefore(before);
    FlowLine();
    ShortKey(y, "b: {}");
    HeaderIsDropped(y, before, "b: {}\n");
  }

  /** Removing that preset again leaves only what is behind the dashes. */
  lemma DashedPresetRemoved(y: Yaml, read: NumberReader, current: string, entries: string, before: string)
    requires IsPreset(y, entries, One("a---b"))
    requires CutBeforeB(y, Merge(DocOf(y, current), One("a---b"), read), before)
    ensures RemoveText(y, MergeText(y, read, current, entries), entries) == "b: {}"
  {
    var p := One("a---b");
    MergedText(y, read, current, entries, p);
    ReadCutBeforeB(y, Merge(DocOf(y, current), p, read), before);
    BIsNoSection();
  }

  lemma BIsNoSection()
    ensures !HasEntries(One("b")) && Others(One("b")) == One("b")
  {
    assert |HEADER| != |"b"| && |"version"| != |"b"| && |"__proto__"| != |"b"|;
    NoneDropped(["b"], NOT_COPIED);
  }

  /** Merged before another preset it loses its own entries, merged after it it does not, and so
      the two orders print texts of different content. */
  lemma DashedPresetOrder(y: Yaml, read: NumberReader, current: string, e: string, f: string, q: Entries,
                          before: string)
    requires DocOf(y, current).None?
    requires IsPreset(y, e, One("a---b")) && IsPreset(y, f, q)
    requires CutBeforeB(y, Merge(None, One("a---b"), read), before) && Printable(y, Merge(None, q, read))
    requires PrintsBack(y, Merge(Some(One("b")), q, read))
    requires PrintsBack(y, Merge(Some(Merge(None, q, read)), One("a---b"), read))
    ensures !SameTextContent(y, MergeAllText(y, read, current, [e, f]), MergeAllText(y, read, current, [f, e]))
  {
    var p := One("a---b");
    MergedText(y, read, current, e, p);
    MergedText(y, read, current, f, q);
    ReadCutBeforeB(y, Merge(None, p, read), before);
    PrintedReadsBack(y, Merge(None, q, read));
    MergeTextOrderIff(y, read, current, e, p, f, q);
    BIsNoSection();
    MergeParts(None, q, read);
    assert "b" in Keys(OthersOf(Some(One("b")))) && "b" !in Keys(OthersOf(Some(Merge(None, q, read))));
  }

  /** And a gateway that is given the first order does not report it. */
  lemma DashedPresetNotReported(y: Yaml, read: NumberReader, current: string, e: string, f: string, q: Entries,
                                before: string, header: string)
    requires DocOf(y, current).None? && "a---b" !in Keys(q)
    requires IsPreset(y, e, One("a---b")) && IsPreset(y, f, q)
    requires CutBeforeB(y, Merge(None, One("a---b"), read), before) && !HasDashes(header + "--")
    requires var merged := Merge(Some(One("b")), q, read);
             "version:" <= y.print_(merged) && y.parse(Trim(y.print_(merged))) == Some(Obj(merged))
    ensures var answer := DocOf(y, header + DASHES + MergeAllText(y, read, current, [e, f]));
            answer.Some? && !Reported(y, e, answer.value)
  {
    var p := One("a---b");
    var merged := Merge(Some(One("b")), q, read);
    MergedText(y, read, current, e, p);
    ReadCutBeforeB(y, Merge(None, p, read), before);
    MergeAllTwo(y, read, current, e, f);
    MergedText(y, read, y.print_(Merge(None, p, read)), f, q);
    AnswerIs(y, header, y.print_(merged), merged);
    BIsNoSection();
    MergeParts(Some(One("b")), q, read);
    ReportedKeys(y, e, p, merged);
    assert "a---b" in Keys(p) && "a---b" !in Keys(PolicyEntries(merged));
  }
}

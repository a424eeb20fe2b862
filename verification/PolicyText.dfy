/** The text fallback that splices preset entries into a policy that cannot be merged as a document. */
module PolicyText {
  import opened Text

  const HEADER := "network_policies"

  /** Where ^ matches after in a multi-line pattern, and what . never matches. */
  predicate IsTerminator(c: char)
  {
    c == '\n' || c == '\r' || c as int == 0x2028 || c as int == 0x2029
  }

  /** \s*: */
  predicate SpacesThenColon(s: string)
  {
    s != "" && (s[0] == ':' || (IsJsSpace(s[0]) && SpacesThenColon(s[1..])))
  }

  /** network_policies\s*: at the start of s */
  predicate StartsSection(s: string)
  {
    HEADER <= s && SpacesThenColon(s[|HEADER|..])
  }

  /** The same pattern at the start of the text or after any line terminator. */
  predicate HasSection(text: string, atLineStart: bool)
  {
    text != "" && ((atLineStart && StartsSection(text)) || HasSection(text[1..], IsTerminator(text[0])))
  }

  /** A colon before the next line terminator. */
  predicate ColonAhead(s: string)
  {
    s != "" && (s[0] == ':' || (!IsTerminator(s[0]) && ColonAhead(s[1..])))
  }

  /** ^\S.*: on one line */
  predicate IsTopLevel(line: string)
  {
    line != "" && !IsJsSpace(line[0]) && ColonAhead(line[1..])
  }

  function WithVersion(text: string): string
  {
    if "version:" <= TrimStart(text) then text else "version: 1\n\n" + text
  }

  // ----- The patterns, written out -----

  /** Only white space up to k, and then the colon. */
  predicate ColonAfterSpace(s: string, k: int)
  {
    0 <= k < |s| && s[k] == ':' && forall j :: 0 <= j < k ==> IsJsSpace(s[j])
  }

  lemma {:induction false} SpacesIff(s: string)
    ensures SpacesThenColon(s) <==> exists k :: ColonAfterSpace(s, k)
  {
    if s != "" {
      SpacesIff(s[1..]);
      if s[0] == ':' { assert ColonAfterSpace(s, 0); }
      if k :| ColonAfterSpace(s[1..], k) && IsJsSpace(s[0]) {
        assert forall j :: 0 < j < k + 1 ==> s[j] == s[1..][j-1];
        assert ColonAfterSpace(s, k + 1);
      }
      if k :| ColonAfterSpace(s, k) && k > 0 {
        assert forall j :: 0 <= j < k - 1 ==> s[1..][j] == s[j+1];
        assert ColonAfterSpace(s[1..], k - 1);
      }
    }
  }

  /** The section's name, perhaps white space, and a colon. */
  lemma StartsSectionIff(line: string)
    ensures StartsSection(line) <==>
            "network_policies" <= line && exists k :: ColonAfterSpace(line[16..], k)
  {
    if HEADER <= line {
      assert |HEADER| == 16;
      SpacesIff(line[16..]);
    }
  }

  /** A colon with no line terminator before it. */
  predicate ColonOnLine(s: string, k: int)
  {
    0 <= k < |s| && s[k] == ':' && forall j :: 0 <= j < k ==> s[j] !in {'\n', '\r', '\U{2028}', '\U{2029}'}
  }

  lemma TerminatorIs(c: char)
    ensures IsTerminator(c) <==> c in {'\n', '\r', '\U{2028}', '\U{2029}'}
  {
  }

  lemma {:induction false} ColonAheadIff(s: string)
    ensures ColonAhead(s) <==> exists k :: ColonOnLine(s, k)
  {
    if s != "" {
      TerminatorIs(s[0]);
      ColonAheadIff(s[1..]);
      if s[0] == ':' { assert ColonOnLine(s, 0); }
      if k :| ColonOnLine(s[1..], k) && !IsTerminator(s[0]) {
        assert forall j :: 0 < j < k + 1 ==> s[j] == s[1..][j-1];
        assert ColonOnLine(s, k + 1);
      }
      if k :| ColonOnLine(s, k) && k > 0 {
        assert forall j :: 0 <= j < k - 1 ==> s[1..][j] == s[j+1];
        assert ColonOnLine(s[1..], k - 1);
      }
    }
  }

  /** A line that does not start with white space and has a colon after its first character. */
  lemma TopLevelIff(line: string)
    ensures IsTopLevel(line) <==> line != "" && !IsJsSpace(line[0]) && exists k :: ColonOnLine(line[1..], k)
  {
    if line != "" { ColonAheadIff(line[1..]); }
  }

  /** A section header at the start of a line, at position i. */
  ghost predicate SectionAt(text: string, atLineStart: bool, i: int)
  {
    && 0 <= i < |text| && StartsSection(text[i..])
    && if i == 0 then atLineStart else text[i-1] in {'\n', '\r', '\U{2028}', '\U{2029}'}
  }

  lemma SectionLater(text: string, start: bool, i: int)
    requires text != "" && 0 < i < |text|
    ensures SectionAt(text, start, i) <==> SectionAt(text[1..], IsTerminator(text[0]), i - 1)
  {
    TerminatorIs(text[0]);
    assert text[1..][i-1..] == text[i..] && (i > 1 ==> text[1..][i-2] == text[i-1]);
  }

  lemma {:induction false} HasSectionIff(text: string, start: bool)
    ensures HasSection(text, start) <==> exists i :: SectionAt(text, start, i)
  {
    if text != "" {
      HasSectionIff(text[1..], IsTerminator(text[0]));
      assert text[0..] == text;
      if start && StartsSection(text) { assert SectionAt(text, start, 0); }
      if i :| SectionAt(text[1..], IsTerminator(text[0]), i) {
        SectionLater(text, start, i + 1);
      }
      if i :| SectionAt(text, start, i) {
        if i > 0 { SectionLater(text, start, i); }
      }
    }
  }

  /** The text begins with a version key, white space aside. */
  predicate VersionFirst(text: string, k: int)
  {
    0 <= k <= |text| && AllSpace(text[..k]) && "version:" <= text[k..]
  }

  lemma {:induction false} TrimStartSkips(s: string, k: nat)
    requires k < |s| && AllSpace(s[..k]) && !IsJsSpace(s[k])
    ensures TrimStart(s) == s[k..]
  {
    if k == 0 {
      assert s[0..] == s;
    } else {
      assert s[0] == s[..k][0] && s[1..][..k-1] == s[..k][1..];
      assert forall j :: 0 <= j < k - 1 ==> s[..k][1..][j] == s[..k][j+1];
      TrimStartSkips(s[1..], k - 1);
      assert s[1..][k-1..] == s[k..];
    }
  }

  /** A version line is put in front exactly of a text that does not begin with one. */
  lemma WithVersionIs(text: string)
    ensures WithVersion(text) ==
            if exists k :: VersionFirst(text, k) then text else "version: 1" + "\n" + "\n" + text
    ensures exists k :: VersionFirst(WithVersion(text), k)
  {
    var k := TrimStartIs(text);
    if "version:" <= TrimStart(text) {
      assert VersionFirst(text, k);
    } else {
      if j :| VersionFirst(text, j) {
        assert text[j] == text[j..][0] == 'v';
        TrimStartSkips(text, j);
        assert false;
      }
      assert WithVersion(text)[0..] == WithVersion(text) && AllSpace(WithVersion(text)[..0]);
      assert VersionFirst(WithVersion(text), 0);
    }
  }

  /** Line k is where the entries of the section that line first opens must go: the next
      top-level line, or the end. */
  ghost predicate SectionEnd(lines: seq<string>, first: nat, k: nat)
  {
    && first < k <= |lines| && StartsSection(lines[first])
    && (forall i :: 0 <= i < first ==> !StartsSection(lines[i]))
    && (forall i :: first < i < k ==> StartsSection(lines[i]) || !IsTopLevel(lines[i]))
    && (k < |lines| ==> !StartsSection(lines[k]) && IsTopLevel(lines[k]))
  }

  method Splice(lines: seq<string>, entries: string) returns (result: seq<string>, ghost first: nat, ghost k: nat)
    ensures (forall i :: 0 <= i < |lines| ==> !StartsSection(lines[i])) ==> result == lines
    ensures (exists i :: 0 <= i < |lines| && StartsSection(lines[i])) ==>
              SectionEnd(lines, first, k) && result == lines[..k] + [entries] + lines[k..]
  {
    result, first, k := [], 0, 0;
    var inNp, inserted := false, false;
    for i := 0 to |lines|
      invariant inserted ==> SectionEnd(lines, first, k) && k < i && result == lines[..k] + [entries] + lines[k..i]
      invariant !inserted ==> result == lines[..i]
      invariant !inserted && !inNp ==> forall j :: 0 <= j < i ==> !StartsSection(lines[j])
      invariant !inserted && inNp ==>
                  first < i && StartsSection(lines[first]) && (forall j :: 0 <= j < first ==> !StartsSection(lines[j]))
                  && forall j :: first < j < i ==> StartsSection(lines[j]) || !IsTopLevel(lines[j])
    {
      var line := lines[i];
      if StartsSection(line) {
        if !inserted && !inNp { first := i; }
        inNp := true;
        result := result + [line];
        continue;
      }
      if inNp && IsTopLevel(line) && !inserted {
        result := result + [entries];
        inserted := true;
        inNp := false;
        k := i;
      }
      result := result + [line];
    }
    if inNp && !inserted {
      result := result + [entries];
      k := |lines|;
    }
  }

  ghost predicate OpensSection(lines: seq<string>)
  {
    exists i :: 0 <= i < |lines| && StartsSection(lines[i])
  }

  /** The first line that opens the section, or the number of lines. */
  function SectionStart(lines: seq<string>): (first: nat)
    ensures first <= |lines|
    ensures first < |lines| ==> StartsSection(lines[first])
    ensures forall i :: 0 <= i < first ==> !StartsSection(lines[i])
  {
    if lines == [] || StartsSection(lines[0]) then 0 else 1 + SectionStart(lines[1..])
  }

  /** The first line from the given one on that is top-level and does not open the section. */
  function SectionStop(lines: seq<string>, from: nat): (k: nat)
    requires from <= |lines|
    ensures from <= k <= |lines|
    ensures forall i :: from <= i < k ==> StartsSection(lines[i]) || !IsTopLevel(lines[i])
    ensures k < |lines| ==> !StartsSection(lines[k]) && IsTopLevel(lines[k])
    decreases |lines| - from
  {
    if from == |lines| || (!StartsSection(lines[from]) && IsTopLevel(lines[from])) then from
    else SectionStop(lines, from + 1)
  }

  /** The merged text before a missing version line is added. */
  function BodyOf(current: string, entries: string): string
  {
    var lines := Split(current, '\n');
    var first := SectionStart(lines);
    if first < |lines| then
      var k := SectionStop(lines, first + 1);
      Join(lines[..k] + [entries] + lines[k..], '\n')
    else if HasSection(current, true) then current
    else TrimEnd(current) + "\n\nnetwork_policies:\n" + entries
  }

  function TextMerged(current: string, entries: string): string
  {
    if current == "" then "version: 1\n\nnetwork_policies:\n" + entries else WithVersion(BodyOf(current, entries))
  }

  lemma SectionEndIsUnique(lines: seq<string>, first: nat, k: nat)
    requires SectionEnd(lines, first, k)
    ensures first == SectionStart(lines) && k == SectionStop(lines, first + 1)
  {
  }

  lemma SplicedBody(current: string, entries: string, result: seq<string>, first: nat, k: nat)
    requires var lines := Split(current, '\n');
             if OpensSection(lines) then SectionEnd(lines, first, k) && result == lines[..k] + [entries] + lines[k..]
             else result == lines
    requires HasSection(current, true)
    ensures Join(result, '\n') == BodyOf(current, entries)
  {
    var lines := Split(current, '\n');
    if OpensSection(lines) {
      SectionEndIsUnique(lines, first, k);
    } else {
      assert SectionStart(lines) == |lines|;
      JoinSplit(current, '\n');
    }
  }

  lemma NoSectionBody(current: string, entries: string)
    requires !HasSection(current, true)
    ensures BodyOf(current, entries) == TrimEnd(current) + "\n\nnetwork_policies:\n" + entries
  {
    var first := SectionStart(Split(current, '\n'));
    if first < |Split(current, '\n')| { SectionLineIsSeen(current, true, first); }
  }

  method TextBasedMerge(current: string, entries: string) returns (merged: string)
    ensures merged == TextMerged(current, entries)
  {
    if current == "" {
      merged := "version: 1\n\nnetwork_policies:\n" + entries;
      return;
    }
    if HasSection(current, true) {
      var lines := Split(current, '\n');
      var result;
      ghost var first, k;
      result, first, k := Splice(lines, entries);
      merged := Join(result, '\n');
      SplicedBody(current, entries, result, first, k);
    } else {
      merged := TrimEnd(current) + "\n\nnetwork_policies:\n" + entries;
      NoSectionBody(current, entries);
    }
    if !("version:" <= TrimStart(merged)) {
      merged := "version: 1\n\n" + merged;
    }
  }

  lemma {:induction false} ColonPrefix(a: string, b: string)
    requires SpacesThenColon(a)
    ensures SpacesThenColon(a + b)
  {
    if a[0] != ':' {
      assert (a + b)[1..] == a[1..] + b;
      ColonPrefix(a[1..], b);
    }
  }

  lemma SectionPrefix(a: string, b: string)
    requires StartsSection(a)
    ensures StartsSection(a + b)
  {
    assert (a + b)[|HEADER|..] == a[|HEADER|..] + b;
    ColonPrefix(a[|HEADER|..], b);
  }

  lemma {:induction false} FirstPieceIsPrefix(s: string)
    ensures Split(s, '\n')[0] <= s
  {
    if s != "" && s[0] != '\n' { FirstPieceIsPrefix(s[1..]); }
  }

  /** A line that opens the section is seen by the test on the whole text. */
  lemma {:induction false} SectionLineIsSeen(text: string, atLineStart: bool, i: nat)
    requires i < |Split(text, '\n')| && StartsSection(Split(text, '\n')[i]) && (i == 0 ==> atLineStart)
    ensures HasSection(text, atLineStart)
  {
    var lines := Split(text, '\n');
    if i == 0 {
      FirstPieceIsPrefix(text);
      SectionPrefix(lines[0], text[|lines[0]|..]);
      assert lines[0] + text[|lines[0]|..] == text;
    } else {
      var rest := Split(text[1..], '\n');
      if text[0] == '\n' {
        assert lines == [""] + rest;
        SectionLineIsSeen(text[1..], true, i - 1);
      } else {
        assert lines == [[text[0]] + rest[0]] + rest[1..];
        SectionLineIsSeen(text[1..], IsTerminator(text[0]), i);
      }
    }
  }

  /** The original lines with the entries put in once, between two of them or at an end. */
  ghost predicate Spliced(lines: seq<string>, entries: string, body: string)
  {
    exists k: nat :: k <= |lines| && body == Join(lines[..k] + [entries] + lines[k..], '\n')
  }

  function TotalLength(parts: seq<string>): nat
  {
    if parts == [] then 0 else TotalLength(parts[..|parts|-1]) + |parts[|parts|-1]|
  }

  lemma {:induction false} TotalLengthConcat(a: seq<string>, b: seq<string>)
    ensures TotalLength(a + b) == TotalLength(a) + TotalLength(b)
  {
    if b == [] {
      assert a + b == a;
    } else {
      assert (a + b)[..|a + b|-1] == a + b[..|b|-1];
      TotalLengthConcat(a, b[..|b|-1]);
    }
  }

  lemma {:induction false} JoinLength(parts: seq<string>, sep: char)
    requires parts != []
    ensures |Join(parts, sep)| == TotalLength(parts) + |parts| - 1
  {
    assert parts == [parts[0]] + parts[1..];
    TotalLengthConcat([parts[0]], parts[1..]);
    assert TotalLength([parts[0]]) == |parts[0]| by { assert [parts[0]][..0] == []; }
    if |parts| > 1 { JoinLength(parts[1..], sep); }
  }

  lemma SpliceLength(lines: seq<string>, k: nat, entries: string)
    requires lines != [] && k <= |lines|
    ensures |Join(lines[..k] + [entries] + lines[k..], '\n')| == |Join(lines, '\n')| + |entries| + 1
  {
    assert lines == lines[..k] + lines[k..];
    TotalLengthConcat(lines[..k], lines[k..]);
    TotalLengthConcat(lines[..k] + [entries], lines[k..]);
    TotalLengthConcat(lines[..k], [entries]);
    JoinLength(lines, '\n');
    JoinLength(lines[..k] + [entries] + lines[k..], '\n');
  }

  /** When the whole text passes the section test, the entries are spliced into the original
      lines exactly once if and only if some line opens the section; otherwise they are lost. */
  lemma SplicedIff(current: string, entries: string)
    requires current != "" && HasSection(current, true)
    ensures Spliced(Split(current, '\n'), entries, BodyOf(current, entries)) <==> OpensSection(Split(current, '\n'))
    ensures !OpensSection(Split(current, '\n')) ==> TextMerged(current, entries) == WithVersion(current)
  {
    var lines := Split(current, '\n');
    if OpensSection(lines) {
      var k := SectionStop(lines, SectionStart(lines) + 1);
      assert BodyOf(current, entries) == Join(lines[..k] + [entries] + lines[k..], '\n');
    } else if Spliced(lines, entries, BodyOf(current, entries)) {
      var k: nat :| k <= |lines| && current == Join(lines[..k] + [entries] + lines[k..], '\n');
      SpliceLength(lines, k, entries);
      JoinSplit(current, '\n');
    }
  }

  lemma {:induction false} SectionAfterReturn(before: string, after: string, atLineStart: bool)
    ensures HasSection(before + "\r" + HEADER + ":" + after, atLineStart)
  {
    var text := before + "\r" + HEADER + ":" + after;
    if before == "" {
      var rest := HEADER + ":" + after;
      assert text[1..] == rest;
      assert rest[|HEADER|..] == ":" + after;
      assert StartsSection(rest);
    } else {
      assert text[1..] == before[1..] + "\r" + HEADER + ":" + after;
      SectionAfterReturn(before[1..], after, IsTerminator(before[0]));
    }
  }

  /** A section that a bare carriage return precedes passes the test and loses the entries. */
  lemma EntriesLostAfterReturn(before: string, after: string, current: string, entries: string)
    requires current == before + "\r" + HEADER + ":" + after && '\n' !in current
    requires !StartsSection(current)
    ensures HasSection(current, true) && TextMerged(current, entries) == WithVersion(current)
  {
    SectionAfterReturn(before, after, true);
    SplitAtom(current, '\n');
  }

  const SECTION := "\n\nnetwork_policies:\n"

  /** What a policy without the section becomes: without the white space at its end, with the section
      and the entries. */
  lemma SectionAdded(current: string, entries: string) returns (body: string)
    requires current != "" && !exists i :: SectionAt(current, true, i)
    ensures body <= current && AllSpace(current[|body|..]) && (body == "" || !IsJsSpace(body[|body|-1]))
    ensures TextMerged(current, entries) == WithVersion(body + SECTION + entries)
  {
    HasSectionIff(current, true);
    NoSectionBody(current, entries);
    TrimEndIs(current);
    body := TrimEnd(current);
  }

  lemma NoPolicyMerged(entries: string)
    ensures TextMerged("", entries) == "version: 1" + SECTION + entries
  {
    assert "version: 1\n\nnetwork_policies:\n" == "version: 1" + SECTION;
  }
}

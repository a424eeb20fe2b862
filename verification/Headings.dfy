/** Repairing the heading levels of a markdown page so that nesting never skips a level. */
module Headings {
  import opened Text

  /** What \s matches in a Python string pattern. */
  predicate IsSpace(c: char)
  {
    var n := c as int;
    9 <= n <= 13 || 28 <= n <= 32 || n == 0x85 || n == 0xA0 || n == 0x1680 || 0x2000 <= n <= 0x200A ||
    n == 0x2028 || n == 0x2029 || n == 0x202F || n == 0x205F || n == 0x3000
  }

  /** How many # a line starts with. */
  function Hashes(line: string): (n: nat)
    ensures n <= |line|
    ensures forall i :: 0 <= i < n ==> line[i] == '#'
    ensures n < |line| ==> line[n] != '#'
  {
    if line == "" || line[0] != '#' then 0 else 1 + Hashes(line[1..])
  }

  /** The level of a heading line (one to six # and a space); 0 for every other line. */
  function Level(line: string): (n: nat)
    ensures n <= 6 && n <= |line|
  {
    var n := Hashes(line);
    if 1 <= n <= 6 && n < |line| && IsSpace(line[n]) then n else 0
  }

  /** Python's white space, character by character. */
  const SPACES: set<int> := {
    0x09, 0x0A, 0x0B, 0x0C, 0x0D, 0x1C, 0x1D, 0x1E, 0x1F, 0x20, 0x85, 0xA0, 0x1680, 0x2000, 0x2001, 0x2002, 0x2003,
    0x2004, 0x2005, 0x2006, 0x2007, 0x2008, 0x2009, 0x200A, 0x2028, 0x2029, 0x202F, 0x205F, 0x3000}

  lemma SpaceIs(c: char)
    ensures IsSpace(c) <==> c as int in SPACES
  {
  }

  /** A heading of level n: exactly n and no more than six # at the start, and white space behind them. */
  lemma LevelIff(line: string, n: nat)
    requires n > 0
    ensures Level(line) == n <==>
              n <= 6 && n < |line| && (forall i :: 0 <= i < n ==> line[i] == '#') && line[n] as int in SPACES
  {
    if n < |line| {
      SpaceIs(line[n]);
      if forall i :: 0 <= i < n ==> line[i] == '#' { HashesAtLeast(line, n); }
    }
  }

  lemma {:induction false} HashesAtLeast(line: string, n: nat)
    requires n < |line| && forall i :: 0 <= i < n ==> line[i] == '#'
    ensures Hashes(line) >= n
    ensures line[n] != '#' ==> Hashes(line) == n
  {
    if n > 0 { HashesAtLeast(line[1..], n - 1); }
  }

  function Repeat(c: char, n: nat): (s: string)
    ensures |s| == n && forall i :: 0 <= i < n ==> s[i] == c
  {
    if n == 0 then "" else Repeat(c, n - 1) + [c]
  }

  function Relevel(line: string, level: nat): string
  {
    Repeat('#', level) + line[Level(line)..]
  }

  function Min(a: int, b: int): int
  {
    if a <= b then a else b
  }

  /** The levels of the headings, in order. */
  function HeadingLevels(lines: seq<string>): (r: seq<nat>)
    ensures |r| <= |lines|
  {
    if lines == [] then []
    else HeadingLevels(lines[..|lines|-1]) + (if Level(lines[|lines|-1]) == 0 then [] else [Level(lines[|lines|-1])])
  }

  function Last(levels: seq<nat>): nat
  {
    if levels == [] then 0 else levels[|levels|-1]
  }

  /** No heading may exceed the repaired one before it by more than one. */
  function Repaired(levels: seq<nat>): (r: seq<nat>)
    ensures |r| == |levels|
  {
    if levels == [] then []
    else
      var r := Repaired(levels[..|levels|-1]);
      r + [Min(levels[|levels|-1], Last(r) + 1)]
  }

  function RepairedLine(lines: seq<string>, i: nat): string
    requires i < |lines|
  {
    if Level(lines[i]) == 0 then lines[i] else Relevel(lines[i], Last(Repaired(HeadingLevels(lines[..i+1]))))
  }

  function RepairLines(lines: seq<string>): seq<string>
  {
    seq(|lines|, i requires 0 <= i < |lines| => RepairedLine(lines, i))
  }

  function NormalizedText(text: string): string
  {
    Join(RepairLines(Split(text, '\n')), '\n')
  }

  // ----- The three passes -----

  /** (line index, level) of every heading. */
  function HeadingsOf(lines: seq<string>): (r: seq<(nat, nat)>)
    ensures |r| == |HeadingLevels(lines)|
    ensures forall j :: 0 <= j < |r| ==> r[j].1 == HeadingLevels(lines)[j]
    ensures forall j :: 0 <= j < |r| ==> r[j].0 < |lines|
    ensures forall j, k :: 0 <= j < k < |r| ==> r[j].0 < r[k].0
  {
    if lines == [] then []
    else
      var i := |lines| - 1;
      HeadingsOf(lines[..i]) + (if Level(lines[i]) == 0 then [] else [(i, Level(lines[i]))])
  }

  method CollectHeadings(lines: seq<string>) returns (found: seq<(nat, nat)>)
    ensures found == HeadingsOf(lines)
  {
    found := [];
    for i := 0 to |lines|
      invariant found == HeadingsOf(lines[..i])
    {
      assert lines[..i+1][..i] == lines[..i];
      var level := Level(lines[i]);
      if level > 0 { found := found + [(i, level)]; }
    }
    assert lines[..|lines|] == lines;
  }

  /** Every heading is listed, at the place that the headings before it give it. */
  lemma {:induction false} HeadingListed(lines: seq<string>, i: nat)
    requires i < |lines| && Level(lines[i]) > 0
    ensures |HeadingLevels(lines[..i])| < |HeadingsOf(lines)|
    ensures HeadingsOf(lines)[|HeadingLevels(lines[..i])|].0 == i
  {
    if i < |lines| - 1 {
      HeadingListed(lines[..|lines|-1], i);
      assert lines[..|lines|-1][..i] == lines[..i];
    }
  }

  lemma {:induction false} ListedIsHeading(lines: seq<string>, j: nat)
    requires j < |HeadingsOf(lines)|
    ensures Level(lines[HeadingsOf(lines)[j].0]) > 0
  {
    if j < |HeadingsOf(lines[..|lines|-1])| { ListedIsHeading(lines[..|lines|-1], j); }
  }

  method ComputeLevels(found: seq<(nat, nat)>, ghost levels: seq<nat>) returns (remap: seq<(nat, nat)>)
    requires |found| == |levels| && forall j :: 0 <= j < |found| ==> found[j].1 == levels[j]
    ensures |remap| == |found|
    ensures forall j :: 0 <= j < |found| ==> remap[j] == (found[j].0, Repaired(levels)[j])
  {
    remap := [];
    var maxAllowed := 0;
    for k := 0 to |found|
      invariant |remap| == k && maxAllowed == Last(Repaired(levels[..k]))
      invariant forall j :: 0 <= j < k ==> remap[j] == (found[j].0, Repaired(levels[..k])[j])
    {
      assert levels[..k+1][..k] == levels[..k];
      var newLevel := Min(found[k].1, maxAllowed + 1);
      remap := remap + [(found[k].0, newLevel)];
      maxAllowed := newLevel;
    }
    assert levels[..|levels|] == levels;
  }

  method RewriteHeadings(original: seq<string>, remap: seq<(nat, nat)>) returns (lines: seq<string>)
    requires forall j :: 0 <= j < |remap| ==> remap[j].0 < |original|
    requires forall j, k :: 0 <= j < k < |remap| ==> remap[j].0 < remap[k].0
    ensures |lines| == |original|
    ensures forall j :: 0 <= j < |remap| ==> lines[remap[j].0] == Relevel(original[remap[j].0], remap[j].1)
    ensures forall i :: 0 <= i < |lines| && (forall j :: 0 <= j < |remap| ==> remap[j].0 != i) ==>
        lines[i] == original[i]
  {
    lines := original;
    for k := 0 to |remap|
      invariant |lines| == |original|
      invariant forall j :: k <= j < |remap| ==> lines[remap[j].0] == original[remap[j].0]
      invariant forall j :: 0 <= j < k ==> lines[remap[j].0] == Relevel(original[remap[j].0], remap[j].1)
      invariant forall i :: 0 <= i < |lines| && (forall j :: 0 <= j < |remap| ==> remap[j].0 != i) ==>
          lines[i] == original[i]
    {
      var idx := remap[k].0;
      lines := lines[idx := Relevel(lines[idx], remap[k].1)];
    }
  }

  method NormalizeHeadingLevels(text: string) returns (out: string)
    ensures out == NormalizedText(text)
  {
    var original := Split(text, '\n');
    var found := CollectHeadings(original);
    if found == [] {
      forall i | 0 <= i < |original| ensures Level(original[i]) == 0 {
        if Level(original[i]) > 0 { HeadingListed(original, i); }
      }
      assert RepairLines(original) == original;
      JoinSplit(text, '\n');
      return text;
    }
    var remap := ComputeLevels(found, HeadingLevels(original));
    var lines := RewriteHeadings(original, remap);
    RewrittenIsRepaired(original, remap, lines);
    out := Join(lines, '\n');
  }

  lemma RewrittenIsRepaired(original: seq<string>, remap: seq<(nat, nat)>, lines: seq<string>)
    requires |remap| == |HeadingsOf(original)| && |lines| == |original|
    requires forall j :: 0 <= j < |remap| ==>
        remap[j] == (HeadingsOf(original)[j].0, Repaired(HeadingLevels(original))[j])
    requires forall j :: 0 <= j < |remap| ==> lines[remap[j].0] == Relevel(original[remap[j].0], remap[j].1)
    requires forall i :: 0 <= i < |lines| && (forall j :: 0 <= j < |remap| ==> remap[j].0 != i) ==>
        lines[i] == original[i]
    ensures lines == RepairLines(original)
  {
    forall i | 0 <= i < |lines| ensures lines[i] == RepairedLine(original, i) {
      if Level(original[i]) > 0 {
        var j := ListedAt(original, i);
        var place, level := HeadingsOf(original)[j], Repaired(HeadingLevels(original))[j];
        assert remap[j] == (place.0, level);
      } else {
        NeverListed(original, i);
        assert RepairedLine(original, i) == original[i];
      }
    }
  }

  lemma NeverListed(lines: seq<string>, i: nat)
    requires i < |lines| && Level(lines[i]) == 0
    ensures forall j :: 0 <= j < |HeadingsOf(lines)| ==> HeadingsOf(lines)[j].0 != i
  {
    forall j | 0 <= j < |HeadingsOf(lines)| ensures HeadingsOf(lines)[j].0 != i { ListedIsHeading(lines, j); }
  }

  /** Where a heading is listed, and the level it gets. */
  lemma ListedAt(lines: seq<string>, i: nat) returns (j: nat)
    requires i < |lines| && Level(lines[i]) > 0
    ensures j < |HeadingsOf(lines)| && HeadingsOf(lines)[j].0 == i
    ensures RepairedLine(lines, i) == Relevel(lines[i], Repaired(HeadingLevels(lines))[j])
  {
    HeadingListed(lines, i);
    LevelInContext(lines, i);
    j := |HeadingLevels(lines[..i])|;
  }

  lemma {:induction false} HeadingLevelsPrefix(lines: seq<string>, i: nat)
    requires i <= |lines|
    ensures HeadingLevels(lines[..i]) <= HeadingLevels(lines)
  {
    if i < |lines| {
      HeadingLevelsPrefix(lines[..|lines|-1], i);
      assert lines[..|lines|-1][..i] == lines[..i];
    } else {
      assert lines[..i] == lines;
    }
  }

  lemma {:induction false} RepairedPrefix(levels: seq<nat>, k: nat)
    requires k <= |levels|
    ensures Repaired(levels[..k]) == Repaired(levels)[..k]
  {
    if k < |levels| {
      RepairedPrefix(levels[..|levels|-1], k);
      assert levels[..|levels|-1][..k] == levels[..k];
    } else {
      assert levels[..k] == levels;
    }
  }

  /** The level a heading gets depends only on what comes before it. */
  lemma {:induction false} LevelInContext(lines: seq<string>, i: nat)
    requires i < |lines| && Level(lines[i]) > 0
    ensures |HeadingLevels(lines[..i])| < |HeadingLevels(lines)|
    ensures Last(Repaired(HeadingLevels(lines[..i+1]))) == Repaired(HeadingLevels(lines))[|HeadingLevels(lines[..i])|]
  {
    var k := |HeadingLevels(lines[..i])|;
    assert lines[..i+1][..i] == lines[..i];
    HeadingLevelsPrefix(lines, i + 1);
    assert HeadingLevels(lines[..i+1]) == HeadingLevels(lines)[..k+1];
    RepairedPrefix(HeadingLevels(lines), k + 1);
  }

  // ----- What the repair achieves -----

  /** Starts at level 1 or less and never rises by more than one. */
  ghost predicate Gentle(levels: seq<int>)
  {
    (|levels| > 0 ==> levels[0] <= 1) && forall i :: 0 < i < |levels| ==> levels[i] <= levels[i-1] + 1
  }

  ghost predicate AtMost(a: seq<int>, b: seq<int>)
  {
    |a| == |b| && forall i :: 0 <= i < |a| ==> a[i] <= b[i]
  }

  /** The repaired levels are gentle, never above the original ones, and the greatest such. */
  lemma {:induction false} RepairedIsGreatest(levels: seq<nat>, other: seq<int>)
    ensures Gentle(Repaired(levels)) && AtMost(Repaired(levels), levels)
    ensures Gentle(other) && AtMost(other, levels) ==> AtMost(other, Repaired(levels))
  {
    if levels != [] {
      var n := |levels| - 1;
      if |other| == |levels| {
        RepairedIsGreatest(levels[..n], other[..n]);
      } else {
        RepairedIsGreatest(levels[..n], other);
      }
    }
  }

  lemma {:induction false} RepairedFixed(levels: seq<nat>)
    requires Gentle(levels)
    ensures Repaired(levels) == levels
  {
    RepairedIsGreatest(levels, levels);
  }

  lemma {:induction false} HashesOf(n: nat, rest: string)
    requires rest != "" && rest[0] != '#'
    ensures Hashes(Repeat('#', n) + rest) == n
  {
    var line := Repeat('#', n) + rest;
    assert line[n] == rest[0] && forall i :: 0 <= i < n ==> line[i] == '#';
  }

  /** A releveled heading is a heading of the new level with the same text. */
  lemma RelevelIsHeading(line: string, level: nat)
    requires Level(line) > 0 && 1 <= level <= 6
    ensures Level(Relevel(line, level)) == level
    ensures Relevel(line, level)[level..] == line[Level(line)..]
  {
    HashesOf(level, line[Level(line)..]);
  }

  lemma {:induction false} RepairedRange(levels: seq<nat>)
    requires forall j :: 0 <= j < |levels| ==> 1 <= levels[j] <= 6
    ensures forall j :: 0 <= j < |levels| ==> 1 <= Repaired(levels)[j] <= 6
  {
    if levels != [] { RepairedRange(levels[..|levels|-1]); }
  }

  lemma {:induction false} HeadingLevelsRange(lines: seq<string>)
    ensures forall j :: 0 <= j < |HeadingLevels(lines)| ==> 1 <= HeadingLevels(lines)[j] <= 6
  {
    if lines != [] { HeadingLevelsRange(lines[..|lines|-1]); }
  }

  /** Line by line: other lines are unchanged, headings keep their text and get the repaired level. */
  lemma {:induction false} RepairedLineIs(lines: seq<string>, i: nat)
    requires i < |lines|
    ensures Level(lines[i]) == 0 ==> RepairLines(lines)[i] == lines[i]
    ensures Level(lines[i]) > 0 ==>
              var k := |HeadingLevels(lines[..i])|;
              && k < |HeadingLevels(lines)|
              && Level(RepairLines(lines)[i]) == Repaired(HeadingLevels(lines))[k]
              && RepairLines(lines)[i][Level(RepairLines(lines)[i])..] == lines[i][Level(lines[i])..]
  {
    if Level(lines[i]) > 0 {
      var k := |HeadingLevels(lines[..i])|;
      LevelInContext(lines, i);
      RepairedLevelRange(lines, k);
      RelevelIsHeading(lines[i], Repaired(HeadingLevels(lines))[k]);
    }
  }

  lemma RepairedLevelRange(lines: seq<string>, k: nat)
    requires k < |HeadingLevels(lines)|
    ensures 1 <= Repaired(HeadingLevels(lines))[k] <= 6
  {
    HeadingLevelsRange(lines);
    RepairedRange(HeadingLevels(lines));
  }

  lemma {:induction false} RepairFront(lines: seq<string>)
    requires lines != []
    ensures RepairLines(lines)[..|lines|-1] == RepairLines(lines[..|lines|-1])
  {
    var front := lines[..|lines|-1];
    forall i | 0 <= i < |front| ensures RepairLines(lines)[i] == RepairLines(front)[i] {
      assert front[..i+1] == lines[..i+1];
    }
  }

  /** The headings of the repaired page have the repaired levels. */
  lemma {:induction false} RepairedHeadingLevels(lines: seq<string>)
    ensures HeadingLevels(RepairLines(lines)) == Repaired(HeadingLevels(lines))
  {
    if lines != [] {
      var n := |lines| - 1;
      RepairFront(lines);
      RepairedHeadingLevels(lines[..n]);
      RepairedLineIs(lines, n);
      var before, all := HeadingLevels(lines[..n]), HeadingLevels(lines);
      assert all[..|before|] == before;
      RepairedPrefix(all, |before|);
    }
  }

  /** A page whose headings are gentle is left as it is. */
  lemma {:induction false} GentlePageUnchanged(lines: seq<string>)
    requires Gentle(HeadingLevels(lines))
    ensures RepairLines(lines) == lines
  {
    RepairedFixed(HeadingLevels(lines));
    forall i | 0 <= i < |lines| ensures RepairLines(lines)[i] == lines[i] {
      RepairedLineIs(lines, i);
      if Level(lines[i]) > 0 { SameLevelSameLine(lines, i); }
    }
  }

  lemma RelevelSame(line: string)
    ensures Relevel(line, Level(line)) == line
  {
    var n := Level(line);
    assert n <= Hashes(line);
    assert Repeat('#', n) == line[..n];
  }

  lemma {:induction false} SameLevelSameLine(lines: seq<string>, i: nat)
    requires i < |lines| && Level(lines[i]) > 0
    requires Repaired(HeadingLevels(lines)) == HeadingLevels(lines)
    ensures RepairedLine(lines, i) == lines[i]
  {
    LevelInContext(lines, i);
    assert lines[..i+1][..i] == lines[..i];
    HeadingLevelsPrefix(lines, i + 1);
    RelevelSame(lines[i]);
  }

  lemma NoNewlines(lines: seq<string>)
    requires forall l :: l in lines ==> '\n' !in l
    ensures forall l :: l in RepairLines(lines) ==> '\n' !in l
  {
    forall i | 0 <= i < |lines| ensures '\n' !in RepairedLine(lines, i) {
      assert lines[i] in lines;
      forall c | c in RepairedLine(lines, i) ensures c == '#' || c in lines[i] {}
    }
  }

  /** At the level of the text: the repaired page splits into the repaired lines, its heading
      levels are the greatest gentle ones under the original, and repairing again changes nothing. */
  lemma NormalizedTextIsBest(text: string)
    ensures var lines := Split(text, '\n');
            var after := Split(NormalizedText(text), '\n');
            && after == RepairLines(lines)
            && HeadingLevels(after) == Repaired(HeadingLevels(lines))
            && Gentle(HeadingLevels(after)) && AtMost(HeadingLevels(after), HeadingLevels(lines))
            && (forall other: seq<int> :: Gentle(other) && AtMost(other, HeadingLevels(lines)) ==>
                AtMost(other, HeadingLevels(after)))
    ensures NormalizedText(NormalizedText(text)) == NormalizedText(text)
  {
    var lines := Split(text, '\n');
    NoNewlines(lines);
    SplitJoin(RepairLines(lines), '\n');
    RepairedHeadingLevels(lines);
    forall other: seq<int>
      ensures Gentle(other) && AtMost(other, HeadingLevels(lines)) ==> AtMost(other, Repaired(HeadingLevels(lines)))
    {
      RepairedIsGreatest(HeadingLevels(lines), other);
    }
    RepairedIsGreatest(HeadingLevels(lines), []);
    GentlePageUnchanged(RepairLines(lines));
  }
}

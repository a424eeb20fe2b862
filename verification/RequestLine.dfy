/** The first line of a request: its target is percent-decoded and rewritten before it is forwarded. */
module RequestLine {
  import opened Text
  import opened Utf8
  import opened Utf8Repair
  import opened Placeholders
  import opened HeaderLines
  import opened DecodeProxy

  // ----- Python's unquote() -----

  predicate IsHex(c: char)
  {
    '0' <= c <= '9' || 'a' <= c <= 'f' || 'A' <= c <= 'F'
  }

  function HexValue(c: char): (n: nat)
    requires IsHex(c)
    ensures n < 16
  {
    if c <= '9' then c as int - '0' as int
    else if c <= 'F' then c as int - 'A' as int + 10
    else c as int - 'a' as int + 10
  }

  /** A percent sign and two hexadecimal digits. */
  predicate IsEscape(t: string)
  {
    |t| >= 3 && t[0] == '%' && IsHex(t[1]) && IsHex(t[2])
  }

  function Escaped(t: string): byte
    requires IsEscape(t)
  {
    HexValue(t[1]) * 16 + HexValue(t[2])
  }

  predicate AllAscii(t: string)
  {
    forall i :: 0 <= i < |t| ==> t[i] as int < 0x80
  }

  function UnquoteBytes(t: string): seq<byte>
    requires AllAscii(t)
  {
    if t == "" then []
    else if IsEscape(t) then [Escaped(t)] + UnquoteBytes(t[3..])
    else [t[0] as int] + UnquoteBytes(t[1..])
  }

  function AsciiRun(t: string): (n: nat)
    ensures n <= |t| && AllAscii(t[..n]) && (n < |t| ==> t[n] as int >= 0x80)
    ensures t != "" && t[0] as int < 0x80 ==> n > 0
  {
    if t == "" || t[0] as int >= 0x80 then 0
    else
      var n := 1 + AsciiRun(t[1..]);
      assert forall i :: 0 < i < n ==> t[..n][i] == t[1..][..n-1][i-1];
      n
  }

  /** Each run of ASCII characters is decoded by itself; other characters stay. */
  function Unquote(t: string): string
    decreases |t|
  {
    if t == "" then ""
    else if t[0] as int >= 0x80 then [t[0]] + Unquote(t[1..])
    else
      var n := AsciiRun(t);
      Repaired(UnquoteBytes(t[..n])) + Unquote(t[n..])
  }

  /** Some escape in t stands for this byte. */
  predicate HasEscape(t: string, a: byte)
  {
    t != "" && ((IsEscape(t) && Escaped(t) == a) || HasEscape(t[1..], a))
  }

  // ----- Which characters a decoded target has -----

  lemma EscapeStep(t: string, a: byte)
    requires IsEscape(t)
    ensures HasEscape(t, a) <==> Escaped(t) == a || HasEscape(t[3..], a)
  {
    assert t[1..][1..] == t[2..] && t[2..][1..] == t[3..];
    assert HasEscape(t[1..], a) == HasEscape(t[2..], a);
  }

  lemma InTail(t: string, n: nat, c: char)
    requires n <= |t| && forall i :: 0 <= i < n ==> t[i] != c
    ensures c in t <==> c in t[n..]
  {
    if c in t {
      var i :| 0 <= i < |t| && t[i] == c;
      assert t[n..][i-n] == c;
    }
  }

  lemma {:induction false} UnquotedByte(t: string, c: char)
    requires AllAscii(t) && c as int < 0x80 && !IsHex(c) && c != '%'
    ensures (c as int) in UnquoteBytes(t) <==> c in t || HasEscape(t, c as int)
  {
    if t != "" {
      if IsEscape(t) {
        UnquotedByte(t[3..], c);
        EscapeStep(t, c as int);
        InTail(t, 3, c);
      } else {
        UnquotedByte(t[1..], c);
        assert t == [t[0]] + t[1..];
      }
    }
  }

  lemma {:induction false} EscapeConcat(p: string, s: string, a: byte)
    requires s == "" || !IsHex(s[0])
    ensures HasEscape(p + s, a) <==> HasEscape(p, a) || HasEscape(s, a)
  {
    if p == "" {
      AddNothing(s);
    } else {
      assert (p + s)[1..] == p[1..] + s;
      EscapeConcat(p[1..], s, a);
      assert IsEscape(p + s) == IsEscape(p);
    }
  }

  lemma RunHas(run: string, rest: string, c: char)
    requires AllAscii(run) && (rest == "" || rest[0] as int >= 0x80)
    requires c as int < 0x80 && !IsHex(c) && c != '%'
    ensures c in Repaired(UnquoteBytes(run)) || c in rest || HasEscape(rest, c as int) <==>
            c in run + rest || HasEscape(run + rest, c as int)
  {
    UnquotedByte(run, c);
    RepairedAscii(UnquoteBytes(run), c);
    EscapeConcat(run, rest, c as int);
  }

  /** A decoded target has a character that has to be escaped exactly if it had it, escaped or not. */
  lemma {:induction false} UnquotedHas(t: string, c: char)
    requires c as int < 0x80 && !IsHex(c) && c != '%'
    ensures c in Unquote(t) <==> c in t || HasEscape(t, c as int)
    decreases |t|
  {
    if t != "" {
      if t[0] as int >= 0x80 {
        UnquotedHas(t[1..], c);
        assert t == [t[0]] + t[1..];
      } else {
        var n := AsciiRun(t);
        UnquotedHas(t[n..], c);
        RunHas(t[..n], t[n..], c);
        assert t == t[..n] + t[n..];
      }
    }
  }

  /** Rewriting placeholders neither adds nor removes a space or a control character. */
  lemma {:induction false} RewriteKeepsBlanks(d: Dialect, words: Words, afterWord: bool, s: string, c: char)
    requires AgreesOnAscii(words) && c <= ' '
    ensures c in Rewrite(d, words, afterWord, s) <==> c in s
    decreases |s|
  {
    if s != "" {
      var n := MatchLength(d, words, afterWord, s);
      if n > 0 {
        RewriteKeepsBlanks(d, words, true, s[n..], c);
        MatchHasNoBlank(d, words, s[..n], c);
        assert s[..n][LEAD..] == s[LEAD..n];
        MatchedHas(s[..n], s[n..], CANONICAL + s[LEAD..n], Rewrite(d, words, true, s[n..]), c);
        assert s == s[..n] + s[n..];
      } else {
        RewriteKeepsBlanks(d, words, words(s[0]), s[1..], c);
        RewriteStep(d, words, afterWord, s);
        SplitFirst(s);
        MatchedHas([], s[1..], [], Rewrite(d, words, words(s[0]), s[1..]), c);
      }
    }
  }

  lemma MatchHasNoBlank(d: Dialect, words: Words, t: string, c: char)
    requires AgreesOnAscii(words) && IsPlaceholder(d, t) && c <= ' '
    ensures c !in t && c !in CANONICAL + t[LEAD..]
  {
    PlaceholderIsAscii(d, t);
    CanonicalChars(d, words, t);
  }

  lemma MatchedHas(t: string, rest: string, p: string, rewritten: string, c: char)
    requires c !in t && c !in p && (c in rewritten <==> c in rest)
    ensures c in p + rewritten <==> c in t + rest
  {
  }

  // ----- The line -----

  function StripEnding(s: string): (r: string)
    ensures r <= s && (r != "" ==> r[|r|-1] !in {'\r', '\n'})
  {
    if s != "" && s[|s|-1] in {'\r', '\n'} then StripEnding(s[..|s|-1]) else s
  }

  function LineText(line: seq<byte>): string
  {
    StripEnding(Repaired(line))
  }

  function FirstSpace(s: string): (n: nat)
    ensures n <= |s| && ' ' !in s[..n] && (n < |s| ==> s[n] == ' ')
  {
    if s == "" || s[0] == ' ' then 0
    else
      var n := 1 + FirstSpace(s[1..]);
      assert s[..n] == [s[0]] + s[1..][..n-1];
      n
  }

  /** split(" ", 2) */
  function Parts(s: string): (r: seq<string>)
    ensures 1 <= |r| <= 3
  {
    var i := FirstSpace(s);
    if i == |s| then [s]
    else
      var rest := s[i+1..];
      var j := FirstSpace(rest);
      if j == |rest| then [s[..i], rest] else [s[..i], rest[..j], rest[j+1..]]
  }

  function Target(words: Words, t: string): string
  {
    RewriteString(SlackOnly, words, Unquote(t))
  }

  function RewriteParts(words: Words, parts: seq<string>): seq<string>
  {
    if |parts| == 3 then parts[1 := Target(words, parts[1])] else parts
  }

  function RewriteRequestLine(words: Words, line: seq<byte>): seq<byte>
  {
    Encode(Join(RewriteParts(words, Parts(LineText(line))), ' ')) + Ending(line)
  }

  /** What reading a line returns: up to its line feed, or to the end of the input. */
  predicate IsRead(line: seq<byte>)
  {
    line != [] && (IsLine<byte>(line, LF) || LF !in line)
  }

  lemma LineTextNoFeed(line: seq<byte>)
    requires IsRead(line)
    ensures '\n' !in LineText(line)
  {
    if LF in line {
      var init := line[..|line|-1];
      SplitLast(line);
      TimesConcat<byte>(init, [LF], LF);
      TimesNone<byte>(init, LF);
      RepairedAppend(init, LF);
      RepairedAscii(init, '\n');
      StripAppend(Repaired(init), '\n');
    } else {
      RepairedAscii(line, '\n');
    }
  }

  lemma StripAppend(s: string, c: char)
    requires c in {'\r', '\n'}
    ensures StripEnding(s + [c]) == StripEnding(s)
  {
    assert (s + [c])[..|s|] == s;
  }

  /** What is written as a line is read as its text. */
  lemma LineTextWritten(s: string, ending: seq<byte>)
    requires StripEnding(s) == s && ending in {CRLF, [LF]}
    ensures LineText(Encode(s) + ending) == s
  {
    var b := Encode(s);
    DecodeEncode(s);
    RepairedWhole(b);
    if ending == CRLF {
      assert b + CRLF == (b + [13]) + [LF];
      RepairedAppend(b + [13], LF);
      RepairedAppend(b, 13);
      StripAppend(s + ['\r'], '\n');
      StripAppend(s, '\r');
    } else {
      RepairedAppend(b, LF);
      StripAppend(s, '\n');
    }
  }

  // ----- The three parts -----

  function Three(a: string, b: string, c: string): string
  {
    a + [' '] + (b + [' '] + c)
  }

  lemma JoinThree(parts: seq<string>)
    requires |parts| == 3
    ensures Join(parts, ' ') == Three(parts[0], parts[1], parts[2])
  {
    assert parts[1..][1..] == parts[2..] && Join(parts[2..], ' ') == parts[2];
    assert Join(parts[1..], ' ') == parts[1] + [' '] + parts[2];
  }

  lemma JoinTwo(a: string, b: string)
    ensures Join([a, b], ' ') == a + [' '] + b
  {
    assert [a, b][1..] == [b];
  }

  lemma SpaceAt(s: string, i: nat)
    requires i < |s| && s[i] == ' '
    ensures s == s[..i] + [' '] + s[i+1..]
  {
  }

  /** The parts make up the line, and none but the last has a space. */
  lemma PartsJoin(s: string)
    ensures Join(Parts(s), ' ') == s
    ensures |Parts(s)| == 3 ==> ' ' !in Parts(s)[0] && ' ' !in Parts(s)[1]
  {
    var i := FirstSpace(s);
    if i < |s| {
      var rest := s[i+1..];
      var j := FirstSpace(rest);
      SpaceAt(s, i);
      if j == |rest| {
        JoinTwo(s[..i], rest);
      } else {
        SpaceAt(rest, j);
        JoinThree(Parts(s));
      }
    }
  }

  lemma {:induction false} FirstSpaceAt(a: string, rest: string)
    requires ' ' !in a
    ensures FirstSpace(a + [' '] + rest) == |a|
  {
    if a == "" {
      AddNothing([' ']);
    } else {
      assert (a + [' '] + rest)[1..] == a[1..] + [' '] + rest;
      FirstSpaceAt(a[1..], rest);
    }
  }

  lemma PartsOfThree(a: string, b: string, c: string)
    requires ' ' !in a && ' ' !in b
    ensures Parts(Three(a, b, c)) == [a, b, c]
  {
    var rest := b + [' '] + c;
    FirstSpaceAt(a, rest);
    FirstSpaceAt(b, c);
    assert Three(a, b, c)[|a|+1..] == rest && Three(a, b, c)[..|a|] == a;
    assert rest[|b|+1..] == c && rest[..|b|] == b;
  }

  lemma ThreeHas(a: string, b: string, c: string, x: char)
    requires x != ' '
    ensures x in Three(a, b, c) <==> x in a || x in b || x in c
  {
  }

  // ----- What upstream reads -----

  /** The target of a request line, if it has one, escapes this byte. */
  predicate TargetEscapes(line: seq<byte>, a: byte)
  {
    var parts := Parts(LineText(line));
    |parts| == 3 && HasEscape(parts[1], a)
  }

  function RewrittenText(words: Words, line: seq<byte>): string
  {
    Join(RewriteParts(words, Parts(LineText(line))), ' ')
  }

  lemma TargetHas(words: Words, t: string, c: char)
    requires AgreesOnAscii(words) && c <= ' '
    ensures c in Target(words, t) <==> c in t || HasEscape(t, c as int)
  {
    UnquotedHas(t, c);
    RewriteKeepsBlanks(SlackOnly, words, false, Unquote(t), c);
  }

  lemma TextHasFeed(words: Words, line: seq<byte>)
    requires AgreesOnAscii(words) && IsRead(line)
    ensures '\n' in RewrittenText(words, line) <==> TargetEscapes(line, LF)
  {
    var parts := Parts(LineText(line));
    LineTextNoFeed(line);
    PartsJoin(LineText(line));
    if |parts| == 3 {
      JoinThree(parts);
      JoinThree(RewriteParts(words, parts));
      ThreeHas(parts[0], parts[1], parts[2], '\n');
      ThreeHas(parts[0], Target(words, parts[1]), parts[2], '\n');
      TargetHas(words, parts[1], '\n');
    }
  }

  lemma WrittenIsLine(s: string, ending: seq<byte>)
    requires ending in {CRLF, [LF]}
    ensures IsLine<byte>(Encode(s) + ending, LF) <==> '\n' !in s
  {
    TimesConcat<byte>(Encode(s), ending, LF);
    TimesEncoded(s, '\n');
    TimesNone(s, '\n');
    EndingHasOneFeed(ending);
  }

  lemma EndingHasOneFeed(ending: seq<byte>)
    requires ending in {CRLF, [LF]}
    ensures Times<byte>(ending, LF) == 1 && ending[|ending|-1] == LF
  {
    assert [LF][1..] == [] && CRLF[1..] == [LF];
  }

  /** The forwarded request line is one line exactly when its target escapes no line feed. */
  lemma RequestLineIsLineIff(words: Words, line: seq<byte>)
    requires AgreesOnAscii(words) && IsRead(line)
    ensures IsLine<byte>(RewriteRequestLine(words, line), LF) <==> !TargetEscapes(line, LF)
  {
    TextHasFeed(words, line);
    WrittenIsLine(RewrittenText(words, line), Ending(line));
  }

  lemma WholeRead(b: seq<byte>, more: seq<byte>)
    requires b != [] && b[|b|-1] == LF
    ensures LineSize(b + more) == |b| <==> IsLine<byte>(b, LF)
    ensures IsLine<byte>((b + more)[..LineSize(b + more)], LF)
  {
    LineSizeIsLine(b + more);
    assert (b + more)[|b|-1] == LF;
    if LineSize(b + more) == |b| { assert (b + more)[..|b|] == b; }
    if IsLine<byte>(b, LF) { ReadsOneLine(b, more); }
  }

  /** The second part does not decide how the line ends. */
  lemma EndStays(a: string, b: string, other: string, c: string)
    requires StripEnding(Three(a, b, c)) == Three(a, b, c)
    ensures StripEnding(Three(a, other, c)) == Three(a, other, c)
  {
    var s, t := Three(a, b, c), Three(a, other, c);
    assert s[|s|-1] == if c == "" then ' ' else c[|c|-1];
    assert t[|t|-1] == if c == "" then ' ' else c[|c|-1];
  }

  lemma RewrittenIsStripped(words: Words, line: seq<byte>)
    ensures StripEnding(RewrittenText(words, line)) == RewrittenText(words, line)
  {
    var text := LineText(line);
    var parts := Parts(text);
    PartsJoin(text);
    StripTwice(Repaired(line));
    if |parts| == 3 {
      JoinThree(parts);
      JoinThree(RewriteParts(words, parts));
      EndStays(parts[0], parts[1], Target(words, parts[1]), parts[2]);
    }
  }

  lemma StripTwice(s: string)
    ensures StripEnding(StripEnding(s)) == StripEnding(s)
  {
  }

  lemma EndingStays(s: string, ending: seq<byte>)
    requires StripEnding(s) == s && ending in {CRLF, [LF]}
    ensures EndsInCrlf(Encode(s) + ending) <==> ending == CRLF
  {
    if s != "" { LastByteOf(s, '\r'); }
  }

  /** The forwarded request line ends as the one that came in. */
  lemma RequestKeepsEnding(words: Words, line: seq<byte>)
    ensures EndsInCrlf(RewriteRequestLine(words, line)) <==> EndsInCrlf(line)
  {
    EndingIs(line);
    RewrittenIsStripped(words, line);
    EndingStays(RewrittenText(words, line), Ending(line));
  }

  lemma WrittenParts(words: Words, line: seq<byte>)
    requires AgreesOnAscii(words)
    ensures var parts := Parts(LineText(line));
            Parts(RewrittenText(words, line)) == RewriteParts(words, parts) <==> !TargetEscapes(line, 32)
  {
    var text := LineText(line);
    var parts := Parts(text);
    PartsJoin(text);
    PartsJoin(RewrittenText(words, line));
    if |parts| == 3 {
      JoinThree(RewriteParts(words, parts));
      TargetHas(words, parts[1], ' ');
      if !TargetEscapes(line, 32) { PartsOfThree(parts[0], Target(words, parts[1]), parts[2]); }
    }
  }

  lemma PartHasFeed(s: string)
    requires |Parts(s)| == 3 && '\n' in Parts(s)[1]
    ensures '\n' in s
  {
    PartsJoin(s);
    JoinThree(Parts(s));
    ThreeHas(Parts(s)[0], Parts(s)[1], Parts(s)[2], '\n');
  }

  lemma RequestEnds(words: Words, line: seq<byte>)
    ensures var r := RewriteRequestLine(words, line); r != [] && r[|r|-1] == LF
  {
  }

  /** Upstream reads the forwarded request line as its parts, the target decoded and rewritten,
      exactly when that target escapes neither a line feed nor a space. */
  lemma RequestReadsBackIff(words: Words, line: seq<byte>, more: seq<byte>)
    requires AgreesOnAscii(words) && IsRead(line)
    ensures var sent := RewriteRequestLine(words, line) + more;
            Parts(LineText(sent[..LineSize(sent)])) == RewriteParts(words, Parts(LineText(line))) <==>
            !TargetEscapes(line, LF) && !TargetEscapes(line, 32)
  {
    var r := RewriteRequestLine(words, line);
    var first := (r + more)[..LineSize(r + more)];
    RequestEnds(words, line);
    WholeRead(r, more);
    RequestLineIsLineIff(words, line);
    if TargetEscapes(line, LF) {
      FeedNotRead(words, line, first);
    } else {
      assert first == r;
      RewrittenIsStripped(words, line);
      LineTextWritten(RewrittenText(words, line), Ending(line));
      WrittenParts(words, line);
    }
  }

  lemma FeedNotRead(words: Words, line: seq<byte>, first: seq<byte>)
    requires AgreesOnAscii(words) && TargetEscapes(line, LF) && IsRead(first)
    ensures Parts(LineText(first)) != RewriteParts(words, Parts(LineText(line)))
  {
    LineTextNoFeed(first);
    TargetHas(words, Parts(LineText(line))[1], '\n');
    if |Parts(LineText(first))| == 3 && '\n' in Parts(LineText(first))[1] { PartHasFeed(LineText(first)); }
  }

  lemma OneEscape(words: Words, t: string)
    requires |t| == 3 && IsEscape(t) && Escaped(t) < 0x80
    ensures Target(words, t) == [Escaped(t) as char]
  {
    var c := Escaped(t) as char;
    assert t[..3] == t && t[3..] == "" && AsciiRun(t) == 3;
    assert UnquoteBytes(t) == [Escaped(t)] + [];
    assert UnquoteBytes(t) == [] + [Escaped(t)];
    RepairedOne(Escaped(t));
    assert Unquote(t) == [c] + "";
    AddNothing([c]);
    assert Rewrite(SlackOnly, words, false, [c]) == [c] + Rewrite(SlackOnly, words, words(c), []);
  }

  lemma CrlfIsEnding(b: seq<byte>)
    ensures Ending(b + CRLF) == CRLF
  {
    assert (b + CRLF)[|b|..] == CRLF;
  }

  lemma RewriteThree(words: Words, a: string, b: string, c: string)
    ensures RewriteParts(words, [a, b, c]) == [a, Target(words, b), c]
  {
  }

  lemma ThreeForwarded(words: Words, a: string, b: string, c: string)
    requires ' ' !in a && ' ' !in b && StripEnding(Three(a, b, c)) == Three(a, b, c)
    ensures RewriteRequestLine(words, Encode(Three(a, b, c)) + CRLF) == Encode(Three(a, Target(words, b), c)) + CRLF
  {
    LineTextWritten(Three(a, b, c), CRLF);
    PartsOfThree(a, b, c);
    CrlfIsEnding(Encode(Three(a, b, c)));
    RewriteThree(words, a, b, c);
    JoinThree([a, Target(words, b), c]);
  }

  /** A request line whose target is one escape. */
  lemma EscapeForwarded(words: Words, a: string, t: string, c: string)
    requires ' ' !in a && ' ' !in t && StripEnding(Three(a, t, c)) == Three(a, t, c)
    requires |t| == 3 && IsEscape(t) && Escaped(t) < 0x80
    ensures RewriteRequestLine(words, Encode(Three(a, t, c)) + CRLF) == Encode(Three(a, [Escaped(t) as char], c)) + CRLF
  {
    ThreeForwarded(words, a, t, c);
    OneEscape(words, t);
  }

  lemma FeedAndSpace(t: string)
    requires t in {"%0A", "%20"}
    ensures |t| == 3 && IsEscape(t) && ' ' !in t && Escaped(t) == if t == "%0A" then LF else 32
  {
  }

  /** A request line with the target %0A is forwarded as two lines, one with %20 with its parts moved. */
  lemma EscapesSplitTheLine(words: Words, a: string, t: string, c: string)
    requires t in {"%0A", "%20"}
    requires ' ' !in a && c != "" && StripEnding(c) == c
    ensures RewriteRequestLine(words, Encode(Three(a, t, c)) + CRLF) ==
            Encode(Three(a, [if t == "%0A" then '\n' else ' '], c)) + CRLF
  {
    FeedAndSpace(t);
    StrippedThree(a, t, c);
    EscapeForwarded(words, a, t, c);
  }

  lemma StrippedThree(a: string, b: string, c: string)
    requires c != "" && StripEnding(c) == c
    ensures StripEnding(Three(a, b, c)) == Three(a, b, c)
  {
    var s := Three(a, b, c);
    assert s[|s|-1] == c[|c|-1];
  }

  // ----- Whole requests -----

  /** What a connection starts with: the request line, the header block and the body. */
  method ServeClient(words: Words, input: seq<byte>) returns (sent: Option<seq<byte>>, left: seq<byte>)
    ensures input == [] ==> sent == None
    ensures input != [] ==>
              var n := LineSize(input);
              match Forward(words, input[n..])
              case None => sent == None
              case Some(f) => sent == Some(RewriteRequestLine(words, input[..n]) + Wire(f)) && left == f.rest
  {
    if input == [] { return None, []; }
    var n := LineSize(input);
    var decoded := RewriteRequestLine(words, input[..n]);
    sent, left := HandleClient(words, input[n..]);
    if sent.Some? { sent := Some(decoded + sent.value); }
  }

  lemma WireThenMore(request: seq<byte>, f: Forwarded, more: seq<byte>)
    ensures request + Wire(f) + more == request + (Concat(f.lines) + (f.end + (f.body + more)))
  {
    Associative(request, Wire(f), more);
    Associative(Concat(f.lines), f.end + f.body, more);
    Associative(f.end, f.body, more);
  }

  /** Upstream reads the forwarded request line as one line, and after it the forwarded block and body,
      exactly when the target escapes no line feed and the input did not end inside a header line. */
  lemma MessageReadsBackIff(words: Words, input: seq<byte>, more: seq<byte>)
    requires AgreesOnAscii(words) && input != [] && Forward(words, input[LineSize(input)..]).Some?
    ensures var line, rest := input[..LineSize(input)], input[LineSize(input)..];
            var f := Forward(words, rest).value;
            var request := RewriteRequestLine(words, line);
            var sent := request + Wire(f) + more;
            var n := LineSize(sent);
            (sent[..n] == request && HeaderBlock(sent[n..]) == Block(f.lines, f.end, f.body + more)) <==>
            (!TargetEscapes(line, LF) && WholeLines(HeaderBlock(rest).lines))
  {
    var line, rest := input[..LineSize(input)], input[LineSize(input)..];
    var f := Forward(words, rest).value;
    var request := RewriteRequestLine(words, line);
    var after := Concat(f.lines) + (f.end + (f.body + more));
    LineSizeIsLine(input);
    if LF !in input { assert line == input; }
    RequestEnds(words, line);
    WholeRead(request, after);
    RequestLineIsLineIff(words, line);
    UpstreamReadsBackIff(words, rest, more);
    WireThenMore(request, f, more);
    if LineSize(request + after) == |request| { assert (request + after)[|request|..] == after; }
  }
}

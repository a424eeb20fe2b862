/** A header block read line by line, and placeholders rewritten inside its lines.
    A line ends with its line feed; a blank one ends the block.
*/
module HeaderLines {
  import opened Text
  import opened Utf8
  import opened Placeholders

  const LF: byte := 10
  const CRLF: seq<byte> := [13, 10]

  // ----- Reading lines -----

  /** The size of the line that the input starts with: through its line feed, or all of the input. */
  function LineSize(input: seq<byte>): (n: nat)
    ensures n <= |input|
    ensures input != [] ==> n > 0
  {
    if input == [] then 0
    else if input[0] == LF then 1
    else 1 + LineSize(input[1..])
  }

  /** What ends a header block: an empty line, or the end of the input. */
  predicate IsBlank(line: seq<byte>)
  {
    line == CRLF || line == [LF] || line == []
  }

  datatype Block = Block(lines: seq<seq<byte>>, end: seq<byte>, rest: seq<byte>)

  /** The lines up to the first blank one. */
  function HeaderBlock(input: seq<byte>): Block
  {
    var n := LineSize(input);
    var line := input[..n];
    if IsBlank(line) then Block([], if line == [] then CRLF else line, input[n..])
    else
      var more := HeaderBlock(input[n..]);
      Block([line] + more.lines, more.end, more.rest)
  }

  // ----- Counting -----

  function Times<T(==)>(s: seq<T>, x: T): nat
  {
    if s == [] then 0 else (if s[0] == x then 1 else 0) + Times(s[1..], x)
  }

  lemma {:induction false} TimesConcat<T>(a: seq<T>, b: seq<T>, x: T)
    ensures Times(a + b, x) == Times(a, x) + Times(b, x)
  {
    if a == [] {
      assert a + b == b;
    } else {
      assert (a + b)[1..] == a[1..] + b;
      TimesConcat(a[1..], b, x);
    }
  }

  lemma {:induction false} TimesNone<T>(s: seq<T>, x: T)
    ensures Times(s, x) == 0 <==> x !in s
  {
    if s != [] {
      TimesNone(s[1..], x);
      assert s == [s[0]] + s[1..];
    }
  }

  function Ascii(c: char): byte
    requires c as int < 0x80
  {
    c as int
  }

  /** An ASCII character is in a string as often as its byte is in the encoding. */
  lemma {:induction false} TimesEncoded(s: string, c: char)
    requires c as int < 0x80
    ensures Times<byte>(Encode(s), Ascii(c)) == Times(s, c)
  {
    if s != "" {
      TimesEncoded(s[1..], c);
      TimesConcat<byte>(EncodeChar(s[0]), Encode(s[1..]), Ascii(c));
      TimesInChar(s[0], c);
    }
  }

  lemma TimesInChar(d: char, c: char)
    requires c as int < 0x80
    ensures Times<byte>(EncodeChar(d), Ascii(c)) == if d == c then 1 else 0
  {
    TimesNone<byte>(EncodeChar(d), Ascii(c));
    if d == c { assert EncodeChar(d)[1..] == []; }
  }

  // ----- Lines -----

  /** One line with its line feed. */
  predicate IsLine<T(==)>(s: seq<T>, feed: T)
  {
    s != [] && s[|s|-1] == feed && Times(s, feed) == 1
  }

  predicate IsHeaderLine(line: seq<byte>)
  {
    IsLine<byte>(line, LF) && !IsBlank(line)
  }

  lemma {:induction false} ReadsOneLine(line: seq<byte>, rest: seq<byte>)
    requires IsLine<byte>(line, LF)
    ensures LineSize(line + rest) == |line|
  {
    if |line| > 1 {
      TimesNone<byte>(line[1..], LF);
      assert line[1..][|line| - 2] == LF;
      assert (line + rest)[1..] == line[1..] + rest;
      ReadsOneLine(line[1..], rest);
    }
  }

  lemma {:induction false} LineSizeIsLine(input: seq<byte>)
    ensures LF !in input ==> LineSize(input) == |input|
    ensures LF in input ==> IsLine<byte>(input[..LineSize(input)], LF)
  {
    if input != [] && input[0] != LF {
      LineSizeIsLine(input[1..]);
      assert input == [input[0]] + input[1..];
      if LF in input {
        var line := input[..LineSize(input)];
        assert line[1..] == input[1..][..LineSize(input[1..])];
        assert line[|line|-1] == line[1..][|line|-2];
      }
    }
  }

  /** Every line has its line feed. */
  predicate WholeLines(lines: seq<seq<byte>>)
  {
    forall l :: l in lines ==> IsHeaderLine(l)
  }

  /** The last line has no line feed, and only that one. */
  predicate Unfinished(lines: seq<seq<byte>>)
  {
    && lines != [] && lines[|lines|-1] != [] && LF !in lines[|lines|-1]
    && WholeLines(lines[..|lines|-1])
  }

  /** A block's lines are whole, or the input ends in the middle of the last one. */
  lemma {:induction false} BlockShape(input: seq<byte>)
    ensures var block := HeaderBlock(input);
            && block.end in {CRLF, [LF]}
            && (WholeLines(block.lines) ||
                (Unfinished(block.lines) && input == Concat(block.lines) && block.end == CRLF && block.rest == []))
    decreases |input|
  {
    var n := LineSize(input);
    var line := input[..n];
    if !IsBlank(line) {
      LineSizeIsLine(input);
      if LF in input {
        BlockShape(input[n..]);
        ShapeMore(line, HeaderBlock(input[n..]).lines);
        assert input == line + input[n..];
      } else {
        assert line == input && input[n..] == [];
        assert HeaderBlock(input).lines == [line] && Concat([line]) == line + [];
      }
    }
  }

  lemma ShapeMore(line: seq<byte>, lines: seq<seq<byte>>)
    requires IsHeaderLine(line)
    ensures WholeLines(lines) ==> WholeLines([line] + lines)
    ensures Unfinished(lines) ==> Unfinished([line] + lines)
    ensures Concat([line] + lines) == line + Concat(lines)
  {
    var all := [line] + lines;
    assert all[1..] == lines;
    if Unfinished(lines) { assert all[..|all|-1] == [line] + lines[..|lines|-1]; }
  }

  lemma WholeTail(lines: seq<seq<byte>>)
    requires WholeLines(lines) && lines != []
    ensures WholeLines(lines[1..])
  {
  }

  /** The line feeds of header lines: one each, and none in an unfinished one. */
  lemma {:induction false} FeedsOf(lines: seq<seq<byte>>)
    ensures WholeLines(lines) ==> Times<byte>(Concat(lines), LF) == |lines|
    ensures Unfinished(lines) ==> Times<byte>(Concat(lines), LF) == |lines| - 1
  {
    if lines != [] {
      FeedsOf(lines[1..]);
      TimesConcat<byte>(lines[0], Concat(lines[1..]), LF);
      TimesNone<byte>(lines[0], LF);
      assert lines[0] in lines && forall l :: l in lines[1..] ==> l in lines;
      if Unfinished(lines) && |lines| > 1 {
        assert lines[..|lines|-1][0] == lines[0] && lines[0] in lines[..|lines|-1];
        assert lines[..|lines|-1][1..] == lines[1..][..|lines|-2];
        WholeTail(lines[..|lines|-1]);
      }
    }
  }

  lemma ReadsBlank(end: seq<byte>, rest: seq<byte>)
    requires end in {CRLF, [LF]}
    ensures HeaderBlock(end + rest) == Block([], end, rest)
  {
    var input := end + rest;
    if end == CRLF { assert end[1..] == [LF]; }
    ReadsOneLine(end, rest);
    assert input[..|end|] == end && input[|end|..] == rest;
  }

  lemma {:induction false} ReadsHeader(line: seq<byte>, more: seq<byte>)
    requires IsHeaderLine(line)
    ensures HeaderBlock(line + more) == HeaderBlock(more).(lines := [line] + HeaderBlock(more).lines)
  {
    var input := line + more;
    ReadsOneLine(line, more);
    assert input[..|line|] == line && input[|line|..] == more;
  }

  /** Header lines and a blank one read back as themselves. */
  lemma {:induction false} ReadsBack(lines: seq<seq<byte>>, end: seq<byte>, rest: seq<byte>)
    requires forall l :: l in lines ==> IsHeaderLine(l)
    requires end in {CRLF, [LF]}
    ensures HeaderBlock(Concat(lines) + (end + rest)) == Block(lines, end, rest)
    decreases |lines|
  {
    if lines == [] {
      ReadsBlank(end, rest);
      assert Concat(lines) + (end + rest) == end + rest;
    } else {
      ReadsBack(lines[1..], end, rest);
      var line, more := lines[0], Concat(lines[1..]);
      ReadsHeader(line, more + (end + rest));
      Associative(line, more, end + rest);
      assert lines == [line] + lines[1..];
    }
  }

  // ----- Rewriting a line -----

  /** r is empty, ends in a line feed and has line feeds just as s. */
  predicate SameFeeds(s: string, r: string)
  {
    Times(s, '\n') == Times(r, '\n') && (s == "" <==> r == "") &&
    (s != "" && r != "" ==> (s[|s|-1] == '\n' <==> r[|r|-1] == '\n'))
  }

  lemma SameFeedsConcat(s: string, r: string, s': string, r': string)
    requires s != "" && SameFeeds(s, r) && SameFeeds(s', r')
    ensures SameFeeds(s + s', r + r')
  {
    TimesConcat(s, s', '\n');
    TimesConcat(r, r', '\n');
    if s' == "" {
      assert s + s' == s && r + r' == r;
    } else {
      assert (s + s')[|s + s'|-1] == s'[|s'|-1] && (r + r')[|r + r'|-1] == r'[|r'|-1];
    }
  }

  lemma PlaceholderFeeds(d: Dialect, words: Words, t: string)
    requires AgreesOnAscii(words)
    requires IsPlaceholder(d, t)
    ensures SameFeeds(t, CANONICAL + t[LEAD..])
  {
    var p := CANONICAL + t[LEAD..];
    PlaceholderIsAscii(d, t);
    CanonicalChars(d, words, t);
    TimesNone(t, '\n');
    TimesNone(p, '\n');
  }

  lemma {:induction false} RewriteKeepsFeeds(d: Dialect, words: Words, afterWord: bool, s: string)
    requires AgreesOnAscii(words)
    ensures SameFeeds(s, Rewrite(d, words, afterWord, s))
    decreases |s|
  {
    if s != "" {
      var n := MatchLength(d, words, afterWord, s);
      if n > 0 {
        var t, s' := s[..n], s[n..];
        RewriteKeepsFeeds(d, words, true, s');
        PlaceholderFeeds(d, words, t);
        SameFeedsConcat(t, CANONICAL + t[LEAD..], s', Rewrite(d, words, true, s'));
        assert s == t + s' && t[LEAD..] == s[LEAD..n];
      } else {
        RewriteKeepsFeeds(d, words, words(s[0]), s[1..]);
        SameFeedsConcat([s[0]], [s[0]], s[1..], Rewrite(d, words, words(s[0]), s[1..]));
        RewriteStep(d, words, afterWord, s);
        assert s == [s[0]] + s[1..];
      }
    }
  }

  /** The last byte is that of an ASCII character exactly when the last character is. */
  lemma LastByteOf(s: string, c: char)
    requires s != "" && c as int < 0x80
    ensures Encode(s) != [] && (Encode(s)[|Encode(s)|-1] == Ascii(c) <==> s[|s|-1] == c)
  {
    var init, d := s[..|s|-1], s[|s|-1];
    assert s == init + [d];
    EncodeConcat(init, [d]);
    EncodeCons(d, "");
  }

  lemma LastByte(s: string)
    requires s != ""
    ensures Encode(s) != [] && (Encode(s)[|Encode(s)|-1] == LF <==> s[|s|-1] == '\n')
  {
    LastByteOf(s, '\n');
  }

  lemma RewrittenHasO(d: Dialect, words: Words, s: string)
    ensures RewriteString(d, words, s) == s || 'o' in RewriteString(d, words, s)
  {
    KeptPrefix(d, words, false, s);
    var k, r := BeforeMatch(d, words, false, s), RewriteString(d, words, s);
    if k < |s| { assert r[k] == 'o'; }
  }

  lemma EncodedLine(s: string)
    ensures IsLine<byte>(Encode(s), LF) <==> IsLine(s, '\n')
  {
    if s != "" {
      TimesEncoded(s, '\n');
      LastByte(s);
    }
  }

  lemma HasONotBlank(s: string)
    requires 'o' in s
    ensures !IsBlank(Encode(s))
  {
    TimesNone(s, 'o');
    TimesEncoded(s, 'o');
    TimesNone<byte>(Encode(s), Ascii('o'));
  }

  /** A rewritten line has a line feed only if it had one. */
  lemma RewriteAddsNoFeed(d: Dialect, words: Words, line: seq<byte>)
    requires AgreesOnAscii(words)
    requires LF !in line
    ensures LF !in RewriteEncoded(d, words, line)
  {
    if Decode(line).Some? {
      var s := Decode(line).value;
      EncodeDecode(line);
      RewriteKeepsFeeds(d, words, false, s);
      TimesEncoded(s, '\n');
      TimesEncoded(RewriteString(d, words, s), '\n');
      TimesNone<byte>(line, LF);
      TimesNone<byte>(Encode(RewriteString(d, words, s)), LF);
    }
  }

  /** A header line rewritten is a header line. */
  lemma RewriteKeepsLine(d: Dialect, words: Words, line: seq<byte>)
    requires AgreesOnAscii(words)
    requires IsHeaderLine(line)
    ensures IsHeaderLine(RewriteEncoded(d, words, line))
  {
    if Decode(line).Some? {
      var s := Decode(line).value;
      var r := RewriteString(d, words, s);
      EncodeDecode(line);
      RewriteKeepsFeeds(d, words, false, s);
      EncodedLine(s);
      EncodedLine(r);
      RewrittenHasO(d, words, s);
      if 'o' in r { HasONotBlank(r); }
    }
  }

  /** Bytes without an x are left alone. */
  lemma NoXUnchanged(d: Dialect, words: Words, b: seq<byte>)
    requires Ascii('x') !in b
    ensures RewriteEncoded(d, words, b) == b
  {
    if Decode(b).Some? {
      var s := Decode(b).value;
      EncodeDecode(b);
      TimesEncoded(s, 'x');
      TimesNone(s, 'x');
      TimesNone<byte>(b, Ascii('x'));
      assert s + "" == s;
      CleanPrefix(d, words, false, s, "");
      CleanUnchanged(d, words, false, s);
    }
  }

  lemma RewriteKeepsNonempty(d: Dialect, words: Words, b: seq<byte>)
    requires AgreesOnAscii(words)
    requires b != []
    ensures RewriteEncoded(d, words, b) != []
  {
    if Decode(b).Some? {
      var s := Decode(b).value;
      EncodeDecode(b);
      RewriteKeepsFeeds(d, words, false, s);
      LastByte(RewriteString(d, words, s));
    }
  }
}

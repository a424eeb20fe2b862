/** The proxy that rewrites Slack placeholders in one request and forwards it. */
module DecodeProxy {
  import opened Text
  import opened Utf8
  import opened Placeholders
  import opened HeaderLines

  // ----- Python's int() on one header value -----

  predicate IsDigit(c: char)
  {
    '0' <= c <= '9'
  }

  /** White space among the characters of ISO 8859-1. */
  predicate IsPySpace(c: char)
  {
    var n := c as int;
    9 <= n <= 13 || 28 <= n <= 32 || n == 0x85 || n == 0xA0
  }

  function StripLeft(s: string): string
  {
    if s != "" && IsPySpace(s[0]) then StripLeft(s[1..]) else s
  }

  function StripRight(s: string): string
  {
    if s != "" && IsPySpace(s[|s|-1]) then StripRight(s[..|s|-1]) else s
  }

  /** Decimal digits with single underscores between them. */
  function Natural(s: string): Option<nat>
  {
    if s == "" || !IsDigit(s[|s|-1]) then None
    else
      var digit: nat := s[|s|-1] as int - '0' as int;
      if |s| == 1 then Some(digit)
      else
        var before := s[..|s|-1];
        var high := if before[|before|-1] == '_' then before[..|before|-1] else before;
        match Natural(high)
        case None => None
        case Some(n) => Some(10 * n + digit)
  }

  function Signed(negative: bool, n: int): Option<int>
  {
    Some(if negative then -n else n)
  }

  function PyInt(s: string): Option<int>
  {
    var t := StripRight(StripLeft(s));
    if t == "" then None
    else
      var digits := if t[0] in {'+', '-'} then t[1..] else t;
      match Natural(digits)
      case None => None
      case Some(n) => Signed(t[0] == '-', n)
  }

  lemma DigitIs(d: nat)
    requires d < 10
    ensures IsDigit(Digit(d)) && Digit(d) as int - '0' as int == d
  {
  }

  lemma LastDigit(n: nat)
    ensures 10 * (n / 10) + n % 10 == n
  {
  }

  lemma NaturalStep(s: string, high: string, n: nat, digit: nat)
    requires |s| > 1 && high == s[..|s|-1] && high[|high|-1] != '_' && Natural(high) == Some(n)
    requires IsDigit(s[|s|-1]) && s[|s|-1] as int - '0' as int == digit
    ensures Natural(s) == Some(10 * n + digit)
  {
  }

  lemma DigitAppended(high: string, h: nat, d: nat)
    requires high != "" && high[|high|-1] != '_' && Natural(high) == Some(h) && d < 10
    ensures Natural(high + [Digit(d)]) == Some(10 * h + d)
  {
    var s := high + [Digit(d)];
    DigitIs(d);
    assert s[..|s|-1] == high && s[|s|-1] == Digit(d);
    NaturalStep(s, high, h, d);
  }

  lemma NoUnderscore(n: nat)
    ensures Decimal(n)[|Decimal(n)|-1] != '_'
  {
    var s := Decimal(n);
    assert s[|s|-1] in s;
  }

  lemma {:induction false} NaturalDecimal(n: nat)
    ensures Natural(Decimal(n)) == Some(n)
  {
    if n < 10 {
      DigitIs(n);
    } else {
      NaturalDecimal(n / 10);
      NoUnderscore(n / 10);
      DigitAppended(Decimal(n / 10), n / 10, n % 10);
      LastDigit(n);
    }
  }

  lemma StripSpaceRight(t: string, c: char)
    requires IsPySpace(c)
    ensures StripRight(t + [c]) == StripRight(t)
  {
    assert (t + [c])[..|t|] == t;
  }

  lemma DecimalEnds(n: nat)
    ensures IsDigit(Decimal(n)[0]) && IsDigit(Decimal(n)[|Decimal(n)|-1])
  {
    var t := Decimal(n);
    assert t[0] in t && t[|t|-1] in t;
  }

  lemma StripAround(t: string, ending: string)
    requires t != "" && IsDigit(t[0]) && IsDigit(t[|t|-1])
    requires ending in {"\r\n", "\n"}
    ensures StripRight(StripLeft(" " + t + ending)) == t
  {
    var s := t + ending;
    assert (" " + t + ending)[1..] == s;
    assert StripLeft(s) == s;
    assert StripRight(t) == t;
    if ending == "\r\n" {
      var u := t + ['\r'];
      StripSpaceRight(t, '\r');
      StripSpaceRight(u, '\n');
      assert s == u + ['\n'];
    } else {
      StripSpaceRight(t, '\n');
      assert s == t + ['\n'];
    }
  }

  lemma PyIntDecimal(n: nat, ending: string)
    requires ending in {"\r\n", "\n"}
    ensures PyInt(" " + Decimal(n) + ending) == Some(n)
  {
    DecimalEnds(n);
    StripAround(Decimal(n), ending);
    NaturalDecimal(n);
  }

  predicate AllBlank(s: string)
  {
    forall i :: 0 <= i < |s| ==> IsPySpace(s[i])
  }

  lemma {:induction false} StripsLeft(a: string, t: string)
    requires AllBlank(a) && t != "" && !IsPySpace(t[0])
    ensures StripLeft(a + t) == t
  {
    if a == "" {
      AddNothing(t);
    } else {
      assert (a + t)[1..] == a[1..] + t;
      StripsLeft(a[1..], t);
    }
  }

  lemma {:induction false} StripsRight(t: string, b: string)
    requires AllBlank(b) && t != "" && !IsPySpace(t[|t|-1])
    ensures StripRight(t + b) == t
  {
    if b == "" {
      AddNothing(t);
    } else {
      assert (t + b)[..|t + b|-1] == t + b[..|b|-1];
      StripsRight(t, b[..|b|-1]);
    }
  }

  lemma Stripped(a: string, t: string, b: string)
    requires AllBlank(a) && AllBlank(b) && t != "" && !IsPySpace(t[0]) && !IsPySpace(t[|t|-1])
    ensures StripRight(StripLeft(a + (t + b))) == t
  {
    StripsLeft(a, t + b);
    StripsRight(t, b);
  }

  lemma ReadAfterSign(s: string, t: string, n: nat)
    requires StripRight(StripLeft(s)) == t && t != ""
    requires Natural(if t[0] in {'+', '-'} then t[1..] else t) == Some(n)
    ensures PyInt(s) == Signed(t[0] == '-', n)
  {
  }

  lemma SignEnds(sign: string, n: nat)
    requires sign in {"", "+", "-"}
    ensures var t := sign + Decimal(n);
            && t != "" && !IsPySpace(t[0]) && !IsPySpace(t[|t|-1]) && (t[0] == '-' <==> sign == "-")
            && (if t[0] in {'+', '-'} then t[1..] else t) == Decimal(n)
  {
    DecimalEnds(n);
    var t := sign + Decimal(n);
    assert t[|t|-1] == Decimal(n)[|Decimal(n)|-1];
    if sign == "" { AddNothing(Decimal(n)); } else { assert t[1..] == Decimal(n); }
  }

  /** int() reads a signed decimal between blanks. */
  lemma PyIntSigned(a: string, sign: string, n: nat, b: string)
    requires AllBlank(a) && AllBlank(b) && sign in {"", "+", "-"}
    ensures var read := PyInt(a + (sign + Decimal(n) + b));
            read.Some? && read.value == if sign == "-" then -(n as int) else n
  {
    var t := sign + Decimal(n);
    SignEnds(sign, n);
    Stripped(a, t, b);
    NaturalDecimal(n);
    ReadAfterSign(a + (t + b), t, n);
  }

  /** A digit, or an underscore behind a digit. */
  predicate GroupAt(s: string, i: nat)
    requires i < |s|
  {
    IsDigit(s[i]) || (i > 0 && s[i] == '_' && IsDigit(s[i-1]))
  }

  /** Digits with single underscores between them. */
  predicate DigitGroups(s: string)
  {
    s != "" && IsDigit(s[|s|-1]) && forall i :: 0 <= i < |s| ==> GroupAt(s, i)
  }

  lemma GroupsShorter(s: string, high: string)
    requires |s| > 1 && IsDigit(s[|s|-1])
    requires high == if s[|s|-2] == '_' then s[..|s|-2] else s[..|s|-1]
    ensures DigitGroups(s) <==> DigitGroups(high)
  {
    var n := |s|;
    assert forall i :: 0 <= i < |high| ==> GroupAt(high, i) == GroupAt(s, i);
    assert high != "" ==> high[|high|-1] == s[|high|-1];
    if DigitGroups(s) { assert GroupAt(s, n - 2); }
    if DigitGroups(high) {
      forall i | 0 <= i < n ensures GroupAt(s, i) {
        if i < |high| { assert GroupAt(high, i); }
      }
    }
  }

  /** Exactly these are numbers to int(). */
  lemma {:induction false} NaturalIff(s: string)
    ensures Natural(s).Some? <==> DigitGroups(s)
  {
    if |s| > 1 && IsDigit(s[|s|-1]) {
      var high := if s[|s|-2] == '_' then s[..|s|-2] else s[..|s|-1];
      assert s[..|s|-1][..|s|-2] == s[..|s|-2];
      NaturalIff(high);
      GroupsShorter(s, high);
    }
  }

  // ----- Content-Length lines -----

  const NAME := "content-length:"

  function Lower(b: byte): char
  {
    if 65 <= b <= 90 then (b + 32) as char else b as char
  }

  predicate IsContentLength(line: seq<byte>)
  {
    |line| >= |NAME| && forall i :: 0 <= i < |NAME| ==> Lower(line[i]) == NAME[i]
  }

  /** The header's name in any case, and a colon. */
  lemma ContentLengthIff(line: seq<byte>)
    ensures IsContentLength(line) <==>
              |line| >= 15 &&
              forall i :: 0 <= i < 15 ==>
                var c := "content-length:"[i] as int;
                line[i] == c || (97 <= c <= 122 && line[i] == c - 32)
  {
    assert |NAME| == 15;
    if |line| >= 15 {
      forall i | 0 <= i < 15
        ensures var c := NAME[i] as int;
                Lower(line[i]) == NAME[i] <==> line[i] == c || (97 <= c <= 122 && line[i] == c - 32)
      {
        LowerIff(line[i], NAME[i]);
      }
    }
  }

  lemma LowerIff(b: byte, c: char)
    requires 'a' <= c <= 'z' || c == '-' || c == ':'
    ensures Lower(b) == c <==> b == c as int || ('a' <= c <= 'z' && b == c as int - 32)
  {
  }

  function Latin1(b: seq<byte>): (s: string)
    ensures |s| == |b| && forall i :: 0 <= i < |b| ==> s[i] == b[i] as char
  {
    seq(|b|, i requires 0 <= i < |b| => b[i] as char)
  }

  function LineLength(line: seq<byte>): Option<int>
    requires IsContentLength(line)
  {
    PyInt(Latin1(line[|NAME|..]))
  }

  function Ending(line: seq<byte>): (e: seq<byte>)
    ensures e in {CRLF, [LF]}
  {
    if |line| >= 2 && line[|line|-2..] == CRLF then CRLF else [LF]
  }

  function AsciiBytes(s: string): (b: seq<byte>)
    requires forall c :: c in s ==> c as int < 0x80
    ensures |b| == |s| && forall i :: 0 <= i < |s| ==> b[i] == s[i] as int
  {
    if s == "" then []
    else
      assert s[0] in s && forall c :: c in s[1..] ==> c in s;
      [s[0] as int] + AsciiBytes(s[1..])
  }

  /** The line with its value replaced by n. */
  function Resized(line: seq<byte>, n: nat): seq<byte>
    requires IsContentLength(line)
  {
    line[..14] + [58, 32] + AsciiBytes(Decimal(n)) + Ending(line)
  }

  function ResizedIfLength(line: seq<byte>, n: nat): seq<byte>
  {
    if IsContentLength(line) then Resized(line, n) else line
  }

  lemma {:induction false} DecimalBytes(n: nat)
    ensures forall b :: b in AsciiBytes(Decimal(n)) ==> 48 <= b <= 57
  {
    var s := Decimal(n);
    var bytes := AsciiBytes(s);
    forall i | 0 <= i < |bytes| ensures 48 <= bytes[i] <= 57 { assert s[i] in s; }
  }

  lemma ResizedParts(line: seq<byte>, n: nat)
    requires IsContentLength(line)
    ensures var r := Resized(line, n);
            |r| > 16 && r[..14] == line[..14] && r[14] == 58 && r[15..] == [32] + AsciiBytes(Decimal(n)) + Ending(line)
  {
    var r := Resized(line, n);
    assert r[15..] == [32] + AsciiBytes(Decimal(n)) + Ending(line);
  }

  lemma ResizedLength(line: seq<byte>, n: nat)
    requires IsContentLength(line)
    ensures IsContentLength(Resized(line, n)) && LineLength(Resized(line, n)) == Some(n)
  {
    var r, e := Resized(line, n), Ending(line);
    ResizedParts(line, n);
    forall i | 0 <= i < |NAME| ensures Lower(r[i]) == NAME[i] {
      if i < 14 { assert r[i] == r[..14][i] == line[..14][i]; }
    }
    var text := if e == CRLF then "\r\n" else "\n";
    assert Latin1(r[15..]) == " " + Decimal(n) + text;
    PyIntDecimal(n, text);
  }

  lemma ResizedEnding(line: seq<byte>, n: nat)
    requires IsContentLength(line)
    ensures Ending(Resized(line, n)) == Ending(line)
  {
    var r, e, digits := Resized(line, n), Ending(line), AsciiBytes(Decimal(n));
    DecimalBytes(n);
    if e == CRLF {
      assert r[|r|-2..] == CRLF;
    } else {
      assert r[|r|-2] == digits[|digits|-1];
      assert r[|r|-2..][0] != CRLF[0];
    }
  }

  lemma ResizedTwice(line: seq<byte>, m: nat, n: nat)
    requires IsContentLength(line)
    ensures IsContentLength(Resized(line, m)) && Resized(Resized(line, m), n) == Resized(line, n)
  {
    ResizedLength(line, m);
    ResizedParts(line, m);
    ResizedEnding(line, m);
  }

  lemma NameBytes(line: seq<byte>)
    requires IsContentLength(line)
    ensures forall b :: b in line[..14] ==> b != 120 && b != LF
  {
    var name := line[..14];
    forall i | 0 <= i < 14 ensures name[i] != 120 && name[i] != LF {
      assert Lower(line[i]) == NAME[i] && NAME[i] != 'x';
    }
  }

  /** A resized line is a header line without an x. */
  lemma ResizedIsLine(line: seq<byte>, n: nat)
    requires IsContentLength(line)
    ensures IsHeaderLine(Resized(line, n)) && Ascii('x') !in Resized(line, n)
  {
    var r, e, digits := Resized(line, n), Ending(line), AsciiBytes(Decimal(n));
    NameBytes(line);
    DecimalBytes(n);
    var front := line[..14] + [58, 32] + digits;
    assert r == front + e;
    assert forall b :: b in front ==> b != 120 && b != LF;
    TimesNone<byte>(front, LF);
    TimesConcat<byte>(front, e, LF);
    if e == CRLF { assert e[1..] == [LF]; }
  }

  // ----- What the proxy forwards -----

  function RewriteLines(words: Words, lines: seq<seq<byte>>): (r: seq<seq<byte>>)
    ensures |r| == |lines| && forall i :: 0 <= i < |lines| ==> r[i] == RewriteEncoded(SlackOnly, words, lines[i])
  {
    seq(|lines|, i requires 0 <= i < |lines| => RewriteEncoded(SlackOnly, words, lines[i]))
  }

  function ResizeLines(lines: seq<seq<byte>>, n: nat): (r: seq<seq<byte>>)
    ensures |r| == |lines| && forall i :: 0 <= i < |lines| ==> r[i] == ResizedIfLength(lines[i], n)
  {
    seq(|lines|, i requires 0 <= i < |lines| => ResizedIfLength(lines[i], n))
  }

  /** The number in the first Content-Length line, if it is one. */
  function FirstLength(lines: seq<seq<byte>>): Option<int>
  {
    if lines == [] then None
    else if IsContentLength(lines[0]) then LineLength(lines[0])
    else FirstLength(lines[1..])
  }

  datatype Forwarded = Forwarded(lines: seq<seq<byte>>, end: seq<byte>, body: seq<byte>, rest: seq<byte>)

  /** The header lines, what ends them, the body, and the input left over; None when the body cannot be read. */
  function Forward(words: Words, input: seq<byte>): Option<Forwarded>
  {
    var block := HeaderBlock(input);
    var lines := RewriteLines(words, block.lines);
    var n := match FirstLength(lines) case None => 0 case Some(n) => n;
    if n == 0 then Some(Forwarded(lines, block.end, [], block.rest))
    else if n < 0 || n > |block.rest| then None
    else
      var body := RewriteEncoded(SlackOnly, words, block.rest[..n]);
      Some(Forwarded(ResizeLines(lines, |body|), block.end, body, block.rest[n..]))
  }

  function Wire(f: Forwarded): seq<byte>
  {
    Concat(f.lines) + (f.end + f.body)
  }

  // ----- The steps -----

  /** rewrite_slack_placeholders_bytes */
  method RewriteBytes(words: Words, data: seq<byte>) returns (r: seq<byte>)
    ensures r == RewriteEncoded(SlackOnly, words, data)
  {
    if !Has(data, Encode(FastPath(SlackOnly))) {
      SkippedBytes(SlackOnly, words, data);
      return data;
    }
    match Decode(data) {
      case None => return data;
      case Some(text) =>
        var rewritten := RewriteString(SlackOnly, words, text);
        if rewritten == text {
          EncodeDecode(data);
          return data;
        }
        return Encode(rewritten);
    }
  }

  method ContentLength(lines: seq<seq<byte>>) returns (n: Option<int>)
    ensures n == FirstLength(lines)
  {
    for i := 0 to |lines|
      invariant FirstLength(lines) == FirstLength(lines[i..])
    {
      if IsContentLength(lines[i]) { return LineLength(lines[i]); }
      assert lines[i..][1..] == lines[i+1..];
    }
    return None;
  }

  method WithContentLength(lines: seq<seq<byte>>, n: nat) returns (r: seq<seq<byte>>)
    ensures r == ResizeLines(lines, n)
  {
    var rewritten: seq<seq<byte>>, replaced := [], false;
    ghost var all := ResizeLines(lines, n);
    for i := 0 to |lines|
      invariant rewritten == all[..i]
      invariant !replaced ==> rewritten == lines[..i]
    {
      PrefixGrows(lines, i);
      PrefixGrows(all, i);
      if IsContentLength(lines[i]) {
        rewritten := rewritten + [Resized(lines[i], n)];
        replaced := true;
      } else {
        rewritten := rewritten + [lines[i]];
      }
    }
    assert all[..|lines|] == all && lines[..|lines|] == lines;
    r := if replaced then rewritten else lines;
  }

  method ReadHeaders(words: Words, input: seq<byte>) returns (lines: seq<seq<byte>>, end: seq<byte>, rest: seq<byte>)
    ensures var block := HeaderBlock(input);
            lines == RewriteLines(words, block.lines) && end == block.end && rest == block.rest
  {
    lines, rest := [], input;
    ghost var read: seq<seq<byte>> := [];
    while true
      invariant |lines| == |read|
      invariant forall i :: 0 <= i < |read| ==> lines[i] == RewriteEncoded(SlackOnly, words, read[i])
      invariant HeaderBlock(input) == HeaderBlock(rest).(lines := read + HeaderBlock(rest).lines)
      decreases |rest|
    {
      var n := LineSize(rest);
      var line := rest[..n];
      if IsBlank(line) {
        end := if line == [] then CRLF else line;
        rest := rest[n..];
        return;
      }
      ghost var more := HeaderBlock(rest[n..]);
      assert read + ([line] + more.lines) == (read + [line]) + more.lines;
      var rewritten := RewriteBytes(words, line);
      lines, read, rest := lines + [rewritten], read + [line], rest[n..];
    }
  }

  /** One client: the bytes sent upstream after the request line, and the input left to relay. */
  method HandleClient(words: Words, input: seq<byte>) returns (sent: Option<seq<byte>>, left: seq<byte>)
    ensures match Forward(words, input)
            case None => sent == None
            case Some(f) => sent == Some(Wire(f)) && left == f.rest
  {
    var lines, end, rest := ReadHeaders(words, input);
    var body: seq<byte> := [];
    var bodyLength := ContentLength(lines);
    if bodyLength.Some? && bodyLength.value != 0 {
      if bodyLength.value < 0 || bodyLength.value > |rest| { return None, rest; }
      body := RewriteBytes(words, rest[..bodyLength.value]);
      rest := rest[bodyLength.value..];
      lines := WithContentLength(lines, |body|);
    }
    var request := Assemble(lines, end, body);
    return Some(request), rest;
  }

  method Assemble(lines: seq<seq<byte>>, end: seq<byte>, body: seq<byte>) returns (request: seq<byte>)
    ensures request == Concat(lines) + (end + body)
  {
    request := [];
    for i := 0 to |lines|
      invariant request + Concat(lines[i..]) == Concat(lines)
    {
      assert lines[i..][1..] == lines[i+1..];
      request := request + lines[i];
    }
    request := request + end;
    if body != [] { request := request + body; }
  }

  // ----- What upstream sees -----

  lemma {:induction false} FirstLengthAt(lines: seq<seq<byte>>, i: nat)
    requires i < |lines| && IsContentLength(lines[i])
    requires forall j :: 0 <= j < i ==> !IsContentLength(lines[j])
    ensures FirstLength(lines) == LineLength(lines[i])
  {
    if i > 0 { FirstLengthAt(lines[1..], i - 1); }
  }

  lemma {:induction false} FirstLengthOfEqual(lines: seq<seq<byte>>, n: Option<int>)
    requires forall l :: l in lines && IsContentLength(l) ==> LineLength(l) == n
    ensures (forall l :: l in lines ==> !IsContentLength(l)) || FirstLength(lines) == n
  {
    if lines != [] && !IsContentLength(lines[0]) {
      assert forall l :: l in lines[1..] ==> l in lines;
      FirstLengthOfEqual(lines[1..], n);
      assert lines == [lines[0]] + lines[1..];
    }
  }

  lemma ResizedLineLength(lines: seq<seq<byte>>, n: nat)
    ensures forall l :: l in ResizeLines(lines, n) && IsContentLength(l) ==> LineLength(l) == Some(n)
  {
    var r := ResizeLines(lines, n);
    forall i | 0 <= i < |r| && IsContentLength(r[i]) ensures LineLength(r[i]) == Some(n) {
      if IsContentLength(lines[i]) { ResizedLength(lines[i], n); }
    }
  }

  /** Every forwarded Content-Length states the forwarded body's size. */
  predicate LengthsAgree(f: Forwarded)
  {
    forall l :: l in f.lines && IsContentLength(l) ==> LineLength(l) == Some(|f.body|)
  }

  /** They all do exactly when the first one is positive or none is other than 0. */
  lemma {:induction false} LengthsAgreeIff(words: Words, input: seq<byte>)
    requires Forward(words, input).Some?
    ensures var lines := RewriteLines(words, HeaderBlock(input).lines);
            LengthsAgree(Forward(words, input).value) <==>
            (FirstLength(lines).Some? && FirstLength(lines).value > 0) ||
            (forall l :: l in lines && IsContentLength(l) ==> LineLength(l) == Some(0))
  {
    var lines := RewriteLines(words, HeaderBlock(input).lines);
    if FirstLength(lines).Some? && FirstLength(lines).value > 0 {
      ResizedLineLength(lines, |Forward(words, input).value.body|);
    }
  }

  lemma ResizedIsRewritten(words: Words, line: seq<byte>, n: nat)
    requires IsContentLength(line)
    ensures RewriteEncoded(SlackOnly, words, Resized(line, n)) == Resized(line, n)
  {
    ResizedIsLine(line, n);
    NoXUnchanged(SlackOnly, words, Resized(line, n));
  }

  /** A header block with two lengths, the first one 0: the second is forwarded as it is. */
  lemma SecondLengthKept(words: Words, zero: seq<byte>, other: seq<byte>)
    requires IsContentLength(zero) && IsContentLength(other)
    ensures var lines := [Resized(zero, 0), Resized(other, 5)];
            var f := Forward(words, Concat(lines) + (CRLF + []));
            f == Some(Forwarded(lines, CRLF, [], [])) && !LengthsAgree(f.value)
  {
    var l0, l1 := Resized(zero, 0), Resized(other, 5);
    ResizedIsRewritten(words, zero, 0);
    ResizedIsRewritten(words, other, 5);
    ResizedIsLine(zero, 0);
    ResizedIsLine(other, 5);
    ResizedLength(zero, 0);
    ResizedLength(other, 5);
    ZeroFirst(words, l0, l1);
  }

  lemma ZeroFirst(words: Words, l0: seq<byte>, l1: seq<byte>)
    requires IsHeaderLine(l0) && IsHeaderLine(l1)
    requires IsContentLength(l0) && LineLength(l0) == Some(0) && IsContentLength(l1) && LineLength(l1) == Some(5)
    requires RewriteEncoded(SlackOnly, words, l0) == l0 && RewriteEncoded(SlackOnly, words, l1) == l1
    ensures var f := Forward(words, Concat([l0, l1]) + (CRLF + []));
            f == Some(Forwarded([l0, l1], CRLF, [], [])) && !LengthsAgree(f.value)
  {
    var lines := [l0, l1];
    ReadsBack(lines, CRLF, []);
    assert RewriteLines(words, lines) == lines;
    FirstLengthAt(lines, 0);
    var f := Forwarded(lines, CRLF, [], []);
    assert lines[1] in f.lines;
  }

  lemma RewrittenAreLines(words: Words, lines: seq<seq<byte>>)
    requires AgreesOnAscii(words)
    requires forall l :: l in lines ==> IsHeaderLine(l)
    ensures forall l :: l in RewriteLines(words, lines) ==> IsHeaderLine(l)
  {
    var r := RewriteLines(words, lines);
    forall i | 0 <= i < |lines| ensures IsHeaderLine(r[i]) { RewriteKeepsLine(SlackOnly, words, lines[i]); }
  }

  lemma ResizedAreLines(lines: seq<seq<byte>>, n: nat)
    requires forall l :: l in lines ==> IsHeaderLine(l)
    ensures forall l :: l in ResizeLines(lines, n) ==> IsHeaderLine(l)
  {
    var r := ResizeLines(lines, n);
    forall i | 0 <= i < |lines| ensures IsHeaderLine(r[i]) {
      if IsContentLength(lines[i]) { ResizedIsLine(lines[i], n); }
    }
  }

  lemma RewrittenIsUnfinished(words: Words, lines: seq<seq<byte>>)
    requires AgreesOnAscii(words) && Unfinished(lines)
    ensures Unfinished(RewriteLines(words, lines))
  {
    var n := |lines| - 1;
    RewrittenAreLines(words, lines[..n]);
    assert RewriteLines(words, lines)[..n] == RewriteLines(words, lines[..n]);
    RewriteAddsNoFeed(SlackOnly, words, lines[n]);
    RewriteKeepsNonempty(SlackOnly, words, lines[n]);
  }

  /** What is forwarded has whole lines exactly when what came in has. */
  lemma ForwardedLines(words: Words, input: seq<byte>)
    requires AgreesOnAscii(words) && Forward(words, input).Some?
    ensures var f := Forward(words, input).value;
            && f.end in {CRLF, [LF]}
            && (WholeLines(HeaderBlock(input).lines) ==> WholeLines(f.lines))
            && (!WholeLines(HeaderBlock(input).lines) ==> Unfinished(f.lines) && f.end == CRLF)
  {
    var block := HeaderBlock(input);
    BlockShape(input);
    if WholeLines(block.lines) {
      RewrittenAreLines(words, block.lines);
      ResizedAreLines(RewriteLines(words, block.lines), |Forward(words, input).value.body|);
    } else {
      RewrittenIsUnfinished(words, block.lines);
    }
  }

  lemma LastIsNoLine(lines: seq<seq<byte>>)
    requires Unfinished(lines)
    ensures !WholeLines(lines)
  {
    var last := lines[|lines|-1];
    assert last in lines && !IsHeaderLine(last);
  }

  /** What is forwarded reads back as the forwarded lines and, after them, exactly the forwarded
      body if and only if the input did not end in the middle of a header line. */
  lemma UpstreamReadsBackIff(words: Words, input: seq<byte>, more: seq<byte>)
    requires AgreesOnAscii(words) && Forward(words, input).Some?
    ensures var f := Forward(words, input).value;
            HeaderBlock(Concat(f.lines) + (f.end + (f.body + more))) == Block(f.lines, f.end, f.body + more) <==>
            WholeLines(HeaderBlock(input).lines)
  {
    var f := Forward(words, input).value;
    var wire := Concat(f.lines) + (f.end + (f.body + more));
    ForwardedLines(words, input);
    if WholeLines(HeaderBlock(input).lines) {
      ReadsBack(f.lines, f.end, f.body + more);
    } else {
      LastIsNoLine(f.lines);
      BlockShape(wire);
    }
  }

  // ----- What is forwarded, line by line -----

  predicate EndsInCrlf(b: seq<byte>)
  {
    |b| >= 2 && b[|b|-2] == 13 && b[|b|-1] == 10
  }

  /** Nothing readable has a placeholder left. */
  predicate CleanBytes(words: Words, b: seq<byte>)
  {
    Decode(b).Some? ==> Clean(SlackOnly, words, false, Decode(b).value)
  }

  /** The number of the first Content-Length line; 0 when there is none or it is no number. */
  ghost predicate BodyLength(lines: seq<seq<byte>>, n: int)
  {
    if forall i :: 0 <= i < |lines| ==> !IsContentLength(lines[i]) then n == 0
    else
      exists i :: IsFirstLength(lines, i) && (LineLength(lines[i]) == Some(n) || (LineLength(lines[i]).None? && n == 0))
  }

  predicate IsFirstLength(lines: seq<seq<byte>>, i: int)
  {
    0 <= i < |lines| && IsContentLength(lines[i]) && forall j :: 0 <= j < i ==> !IsContentLength(lines[j])
  }

  /** A line l is forwarded as it is, or with its value replaced when there is a body of n bytes. */
  predicate IsForwardedLine(l: seq<byte>, r: seq<byte>, n: nat)
  {
    if n > 0 && IsContentLength(l) then
      && IsContentLength(r) && r[..14] == l[..14] && r[14] == 58 && LineLength(r) == Some(n)
      && r[|r|-1] == LF && (EndsInCrlf(r) <==> EndsInCrlf(l))
    else r == l
  }

  lemma RewrittenIsClean(words: Words, b: seq<byte>)
    requires AgreesOnAscii(words)
    ensures CleanBytes(words, RewriteEncoded(SlackOnly, words, b))
  {
    if Decode(b).Some? {
      DecodeEncode(RewriteString(SlackOnly, words, Decode(b).value));
      RewriteIsClean(SlackOnly, words, false, Decode(b).value);
    }
  }

  lemma FirstLengthIs(lines: seq<seq<byte>>, n: int)
    requires BodyLength(lines, n)
    ensures n == match FirstLength(lines) case None => 0 case Some(m) => m
  {
    if forall i :: 0 <= i < |lines| ==> !IsContentLength(lines[i]) {
      NoLength(lines);
    } else {
      var i :| IsFirstLength(lines, i) && (LineLength(lines[i]) == Some(n) || (LineLength(lines[i]).None? && n == 0));
      FirstLengthAt(lines, i);
    }
  }

  lemma {:induction false} NoLength(lines: seq<seq<byte>>)
    requires forall i :: 0 <= i < |lines| ==> !IsContentLength(lines[i])
    ensures FirstLength(lines) == None
  {
    if lines != [] { NoLength(lines[1..]); }
  }

  lemma EndingIs(line: seq<byte>)
    ensures Ending(line) == if EndsInCrlf(line) then CRLF else [LF]
  {
    if |line| >= 2 { assert line[|line|-2..] == [line[|line|-2], line[|line|-1]]; }
  }

  lemma ResizedIsForwarded(words: Words, l: seq<byte>, n: nat)
    requires AgreesOnAscii(words) && IsContentLength(l) && n > 0
    ensures IsForwardedLine(l, Resized(l, n), n) && CleanBytes(words, Resized(l, n))
  {
    ResizedParts(l, n);
    ResizedLength(l, n);
    ResizedEnding(l, n);
    EndingIs(l);
    EndingIs(Resized(l, n));
    ResizedIsRewritten(words, l, n);
    RewrittenIsClean(words, Resized(l, n));
  }

  /** What is forwarded of a block when the body has n bytes. */
  function ForwardedBlock(words: Words, block: Block, n: nat): Forwarded
    requires n <= |block.rest|
  {
    var lines, body := RewriteLines(words, block.lines), RewriteEncoded(SlackOnly, words, block.rest[..n]);
    Forwarded(if n == 0 then lines else ResizeLines(lines, |body|), block.end, if n == 0 then [] else body,
              block.rest[n..])
  }

  lemma ForwardsBlock(words: Words, input: seq<byte>, n: int)
    requires BodyLength(RewriteLines(words, HeaderBlock(input).lines), n)
    ensures var block := HeaderBlock(input);
            Forward(words, input) ==
              if n < 0 || n > |block.rest| then None else Some(ForwardedBlock(words, block, n))
  {
    FirstLengthIs(RewriteLines(words, HeaderBlock(input).lines), n);
    if n == 0 { assert HeaderBlock(input).rest[0..] == HeaderBlock(input).rest; }
  }

  lemma BodyOfBlock(words: Words, block: Block, n: nat)
    requires AgreesOnAscii(words) && n <= |block.rest|
    ensures var f := ForwardedBlock(words, block, n);
            && f.body == RewriteEncoded(SlackOnly, words, block.rest[..n]) && CleanBytes(words, f.body)
            && (n > 0 ==> |f.body| > 0)
  {
    RewrittenIsClean(words, block.rest[..n]);
    if n == 0 { assert block.rest[..0] == []; } else { RewriteKeepsNonempty(SlackOnly, words, block.rest[..n]); }
  }

  lemma LineOfBlock(words: Words, block: Block, n: nat, i: nat)
    requires AgreesOnAscii(words) && n <= |block.rest| && i < |block.lines|
    ensures var f := ForwardedBlock(words, block, n);
            CleanBytes(words, f.lines[i]) &&
            IsForwardedLine(RewriteEncoded(SlackOnly, words, block.lines[i]), f.lines[i],
                            if n == 0 then 0 else |f.body|)
  {
    var l := RewriteEncoded(SlackOnly, words, block.lines[i]);
    BodyOfBlock(words, block, n);
    RewrittenIsClean(words, block.lines[i]);
    if n > 0 && IsContentLength(l) { ResizedIsForwarded(words, l, |ForwardedBlock(words, block, n).body|); }
  }

  /** With n the number of the first Content-Length line: nothing is forwarded when the n bytes are not
      there, and else every line, the n bytes of the body and what follows them, each line and the body
      rewritten, with no placeholder left. */
  lemma ForwardIs(words: Words, input: seq<byte>, n: int)
    requires AgreesOnAscii(words) && BodyLength(RewriteLines(words, HeaderBlock(input).lines), n)
    ensures var block := HeaderBlock(input);
            if n < 0 || n > |block.rest| then Forward(words, input) == None
            else
              && Forward(words, input).Some?
              && var f := Forward(words, input).value;
              && f.body == RewriteEncoded(SlackOnly, words, block.rest[..n]) && CleanBytes(words, f.body)
              && f.rest == block.rest[n..] && f.end == block.end && |f.lines| == |block.lines|
              && forall i :: 0 <= i < |f.lines| ==>
                   CleanBytes(words, f.lines[i]) &&
                   IsForwardedLine(RewriteEncoded(SlackOnly, words, block.lines[i]), f.lines[i],
                                   if n == 0 then 0 else |f.body|)
  {
    var block := HeaderBlock(input);
    ForwardsBlock(words, input, n);
    if 0 <= n <= |block.rest| {
      BodyOfBlock(words, block, n);
      forall i | 0 <= i < |block.lines|
        ensures var f := ForwardedBlock(words, block, n);
                CleanBytes(words, f.lines[i]) &&
                IsForwardedLine(RewriteEncoded(SlackOnly, words, block.lines[i]), f.lines[i],
                                if n == 0 then 0 else |f.body|)
      {
        LineOfBlock(words, block, n, i);
      }
    }
  }

  lemma RewriteLinesTwice(words: Words, lines: seq<seq<byte>>)
    requires AgreesOnAscii(words)
    ensures RewriteLines(words, RewriteLines(words, lines)) == RewriteLines(words, lines)
  {
    forall i | 0 <= i < |lines|
      ensures RewriteEncoded(SlackOnly, words, RewriteEncoded(SlackOnly, words, lines[i])) ==
          RewriteEncoded(SlackOnly, words, lines[i])
    {
      RewriteEncodedIsIdempotent(SlackOnly, words, lines[i]);
    }
  }

  /** Resized lines are left alone by rewriting and by resizing to the same size. */
  lemma ResizedAreFixed(words: Words, lines: seq<seq<byte>>, n: nat)
    requires RewriteLines(words, lines) == lines
    ensures RewriteLines(words, ResizeLines(lines, n)) == ResizeLines(lines, n)
    ensures ResizeLines(ResizeLines(lines, n), n) == ResizeLines(lines, n)
  {
    var r := ResizeLines(lines, n);
    forall i | 0 <= i < |lines|
      ensures RewriteEncoded(SlackOnly, words, r[i]) == r[i] && ResizedIfLength(r[i], n) == r[i]
    {
      if IsContentLength(lines[i]) {
        ResizedIsLine(lines[i], n);
        NoXUnchanged(SlackOnly, words, r[i]);
        ResizedTwice(lines[i], n, n);
      } else {
        assert RewriteLines(words, lines)[i] == lines[i];
      }
    }
  }

  lemma {:induction false} ResizedFirstLength(lines: seq<seq<byte>>, n: nat)
    requires FirstLength(lines).Some?
    ensures FirstLength(ResizeLines(lines, n)) == Some(n)
  {
    var r := ResizeLines(lines, n);
    if IsContentLength(lines[0]) {
      ResizedLength(lines[0], n);
    } else {
      assert r[1..] == ResizeLines(lines[1..], n);
      ResizedFirstLength(lines[1..], n);
    }
  }

  lemma SecondProxy(words: Words, input: seq<byte>, more: seq<byte>)
    requires AgreesOnAscii(words) && Forward(words, input).Some? && WholeLines(HeaderBlock(input).lines)
    ensures var f := Forward(words, input).value;
            Forward(words, Concat(f.lines) + (f.end + (f.body + more))) == Some(f.(rest := more))
  {
    var block := HeaderBlock(input);
    var lines := RewriteLines(words, block.lines);
    var f := Forward(words, input).value;
    UpstreamReadsBackIff(words, input, more);
    RewriteLinesTwice(words, block.lines);
    if FirstLength(lines).Some? && FirstLength(lines).value != 0 {
      var n := FirstLength(lines).value;
      RewriteKeepsNonempty(SlackOnly, words, block.rest[..n]);
      RewriteEncodedIsIdempotent(SlackOnly, words, block.rest[..n]);
      ResizedAreFixed(words, lines, |f.body|);
      ResizedFirstLength(lines, |f.body|);
      assert (f.body + more)[..|f.body|] == f.body && (f.body + more)[|f.body|..] == more;
    } else {
      assert f.body + more == more;
    }
  }

  lemma FeedsOnWire(f: Forwarded, more: seq<byte>)
    requires Unfinished(f.lines) && f.end == CRLF
    ensures Times<byte>(Concat(f.lines) + (f.end + (f.body + more)), LF) >= |f.lines|
  {
    FeedsOf(f.lines);
    TimesConcat<byte>(Concat(f.lines), f.end + (f.body + more), LF);
    TimesConcat<byte>(CRLF, f.body + more, LF);
    assert CRLF[1..] == [LF] && Times<byte>([LF], LF) == 1;
  }

  /** A second proxy forwards what the first one forwarded, byte for byte, if and only if the input
      did not end in the middle of a header line. */
  lemma ForwardIsIdempotentIff(words: Words, input: seq<byte>, more: seq<byte>)
    requires AgreesOnAscii(words) && Forward(words, input).Some?
    ensures var f := Forward(words, input).value;
            Forward(words, Concat(f.lines) + (f.end + (f.body + more))) == Some(f.(rest := more)) <==>
            WholeLines(HeaderBlock(input).lines)
  {
    var f := Forward(words, input).value;
    var wire := Concat(f.lines) + (f.end + (f.body + more));
    if WholeLines(HeaderBlock(input).lines) {
      SecondProxy(words, input, more);
    } else if Forward(words, wire) == Some(f.(rest := more)) {
      ForwardedLines(words, input);
      ForwardedLines(words, wire);
      LastIsNoLine(f.lines);
      BlockShape(wire);
      FeedsOf(HeaderBlock(wire).lines);
      FeedsOnWire(f, more);
    }
  }

  lemma OneLineBlock(words: Words, line: seq<byte>)
    requires IsHeaderLine(line) || (line != [] && LF !in line)
    requires Ascii('x') !in line && !IsContentLength(line)
    ensures HeaderBlock(line) == Block([line], CRLF, [])
    ensures Forward(words, line) == Some(Forwarded([line], CRLF, [], []))
  {
    NoXUnchanged(SlackOnly, words, line);
    if LF in line {
      ReadsOneLine(line, []);
      assert line + [] == line;
    } else {
      LineSizeIsLine(line);
    }
    assert LineSize(line) == |line| && line[..|line|] == line && line[|line|..] == [];
    assert HeaderBlock([]) == Block([], CRLF, []);
    assert RewriteLines(words, [line]) == [line];
    assert [line][1..] == [] && FirstLength([line]) == None;
  }

  /** A request that ends in the middle of its only header line. */
  lemma UnfinishedLine(words: Words, line: seq<byte>)
    requires line != [] && LF !in line && Ascii('x') !in line && !IsContentLength(line + CRLF)
    ensures Forward(words, line) == Some(Forwarded([line], CRLF, [], []))
    ensures var wire := Wire(Forwarded([line], CRLF, [], []));
            && HeaderBlock(wire) == Block([line + CRLF], CRLF, [])
            && Forward(words, wire) == Some(Forwarded([line + CRLF], CRLF, [], []))
  {
    var longer := line + CRLF;
    assert longer[..|line|] == line;
    TimesConcat<byte>(line, CRLF, LF);
    TimesNone<byte>(line, LF);
    assert CRLF[1..] == [LF];
    OneLineBlock(words, line);
    OneLineBlock(words, longer);
    assert Concat([line]) == line + [] == line && CRLF + [] == CRLF;
  }

  /** For instance a:b, which upstream reads with a line end, and which a second proxy forwards
      with one more. */
  lemma ColonLineUnfinished(words: Words)
    ensures var f := Forwarded([[97, 58, 98]], CRLF, [], []);
            && Forward(words, [97, 58, 98]) == Some(f)
            && HeaderBlock(Wire(f)).lines == [[97, 58, 98, 13, 10]]
            && Forward(words, Wire(f)) == Some(Forwarded([[97, 58, 98, 13, 10]], CRLF, [], []))
  {
    var line: seq<byte> := [97, 58, 98];
    assert line + CRLF == [97, 58, 98, 13, 10] && |NAME| == 15;
    UnfinishedLine(words, line);
  }
}

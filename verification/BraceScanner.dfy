/** Finding the brace that closes a JavaScript function body, and splicing a patch into it. */
module BraceScanner {
  import opened Text

  datatype ScanError = UnterminatedString | UnterminatedComment | ClosedBeforeOpened | NotTerminated

  datatype Scan = Found(at: nat) | Failed(error: ScanError)

  // ----- The reference: a lexer that reads one character at a time -----

  /** How a character is read. SlashSlash and SlashStar read the second character of a
      comment opener, StarSlash the second one of a block comment's end. */
  datatype Mode =
    | Code
    | SlashSlash
    | LineComment
    | SlashStar
    | BlockComment
    | StarSlash
    | Quoted(quote: char)
    | Escaped(quote: char)

  predicate CharAt(text: string, i: nat, c: char)
  {
    i < |text| && text[i] == c
  }

  /** The mode after reading text[i] in the given mode. */
  function NextMode(text: string, i: nat, mode: Mode): Mode
    requires i < |text|
  {
    match mode
    case Code =>
      if text[i] in {'\'', '\"', '`'} then Quoted(text[i])
      else if text[i] == '/' && CharAt(text, i + 1, '/') then SlashSlash
      else if text[i] == '/' && CharAt(text, i + 1, '*') then SlashStar
      else Code
    case SlashSlash => LineComment
    case LineComment => if text[i] == '\n' then Code else LineComment
    case SlashStar => BlockComment
    case BlockComment => if text[i] == '*' && CharAt(text, i + 1, '/') then StarSlash else BlockComment
    case StarSlash => Code
    case Quoted(q) => if text[i] == '\\' then Escaped(q) else if text[i] == q then Code else Quoted(q)
    case Escaped(q) => Quoted(q)
  }

  /** The mode in which position i is read when lexing starts in code at from. */
  function ModeAt(text: string, from: nat, i: nat): Mode
    requires from <= i <= |text|
  {
    if i == from then Code else NextMode(text, i - 1, ModeAt(text, from, i - 1))
  }

  predicate CodeChar(text: string, from: nat, i: nat, c: char)
    requires from <= i < |text|
  {
    text[i] == c && ModeAt(text, from, i) == Code
  }

  /** Braces opened minus braces closed before position i, code only. */
  function Depth(text: string, from: nat, i: nat): int
    requires from <= i <= |text|
  {
    if i == from then 0
    else
      Depth(text, from, i - 1) +
      (if CodeChar(text, from, i - 1, '{') then 1 else if CodeChar(text, from, i - 1, '}') then -1 else 0)
  }

  /** Position j closes what was opened at from, and nothing before it does. */
  ghost predicate Closes(text: string, from: nat, j: nat)
  {
    from <= j < |text| && CodeChar(text, from, j, '}') && Depth(text, from, j + 1) == 0 &&
    forall k :: from <= k < j && CodeChar(text, from, k, '}') ==> Depth(text, from, k + 1) > 0
  }

  ghost predicate NothingClosed(text: string, from: nat, upTo: nat)
    requires from <= upTo <= |text|
  {
    forall k :: from <= k < upTo && CodeChar(text, from, k, '}') ==> Depth(text, from, k + 1) > 0
  }

  /** No brace of [a, b) counts. */
  ghost predicate NoBraces(text: string, from: nat, a: nat, b: nat)
    requires from <= a <= b <= |text|
  {
    forall k :: a <= k < b ==> !CodeChar(text, from, k, '{') && !CodeChar(text, from, k, '}')
  }

  lemma {:induction false} DepthAcross(text: string, from: nat, a: nat, b: nat)
    requires from <= a <= b <= |text| && NoBraces(text, from, a, b)
    ensures Depth(text, from, b) == Depth(text, from, a)
  {
    if a < b { DepthAcross(text, from, a, b - 1); }
  }

  /** Starting on an open brace, the depth stays positive until that brace is closed. */
  lemma {:induction false} OpenUntilClosed(text: string, from: nat, i: nat)
    requires from < i <= |text| && text[from] == '{' && NothingClosed(text, from, i)
    ensures Depth(text, from, i) > 0
  {
    if i > from + 1 { OpenUntilClosed(text, from, i - 1); }
  }

  // ----- The scanner -----

  predicate IsQuote(c: char)
  {
    c == '\'' || c == '\"' || c == '`'
  }

  /** text.find(c, start) */
  method FindChar(text: string, c: char, start: nat) returns (r: Option<nat>)
    requires start <= |text|
    ensures r.Some? ==> start <= r.value < |text| && text[r.value] == c
    ensures forall k :: start <= k < (if r.Some? then r.value else |text|) ==> text[k] != c
  {
    var i := start;
    while i < |text|
      invariant start <= i <= |text|
      invariant forall k :: start <= k < i ==> text[k] != c
    {
      if text[i] == c { return Some(i); }
      i := i + 1;
    }
    return None;
  }

  predicate EndsBlock(text: string, i: nat)
  {
    CharAt(text, i, '*') && CharAt(text, i + 1, '/')
  }

  /** text.find of a block comment's end */
  method FindBlockEnd(text: string, start: nat) returns (r: Option<nat>)
    requires start <= |text|
    ensures r.Some? ==> start <= r.value && EndsBlock(text, r.value)
    ensures forall k :: start <= k < (if r.Some? then r.value else |text|) ==> !EndsBlock(text, k)
  {
    var i := start;
    while i < |text|
      invariant start <= i <= |text|
      invariant forall k :: start <= k < i ==> !EndsBlock(text, k)
    {
      if EndsBlock(text, i) { return Some(i); }
      i := i + 1;
    }
    return None;
  }

  method SkipQuoted(text: string, start: nat, quote: char, ghost from: nat) returns (r: Option<nat>)
    requires from <= start < |text| && IsQuote(quote) && CodeChar(text, from, start, quote)
    ensures r.Some? ==> start < r.value <= |text| && ModeAt(text, from, r.value) == Code
                        && NoBraces(text, from, start, r.value)
    ensures r.None? ==> ModeAt(text, from, |text|) in {Quoted(quote), Escaped(quote)}
                        && NoBraces(text, from, start, |text|)
  {
    var i := start + 1;
    while i < |text|
      invariant start < i <= |text| + 1
      invariant i <= |text| ==> ModeAt(text, from, i) == Quoted(quote) && NoBraces(text, from, start, i)
      invariant i > |text| ==> ModeAt(text, from, |text|) == Escaped(quote) && NoBraces(text, from, start, |text|)
    {
      if text[i] == '\\' {
        assert ModeAt(text, from, i + 1) == Escaped(quote);
        i := i + 2;
        continue;
      }
      if text[i] == quote { return Some(i + 1); }
      i := i + 1;
    }
    return None;
  }

  lemma {:induction false} LineRuns(text: string, from: nat, i: nat, end: nat)
    requires from <= i && i + 2 <= end <= |text| && ModeAt(text, from, i) == Code
    requires text[i] == '/' && text[i+1] == '/'
    requires forall k :: i + 2 <= k < end ==> text[k] != '\n'
    ensures ModeAt(text, from, end) == LineComment && NoBraces(text, from, i, end)
  {
    assert ModeAt(text, from, i + 1) == SlashSlash;
    assert ModeAt(text, from, i + 2) == LineComment;
    if end > i + 2 { LineRuns(text, from, i, end - 1); }
  }

  lemma {:induction false} BlockRuns(text: string, from: nat, i: nat, end: nat)
    requires from <= i && i + 2 <= end <= |text| && ModeAt(text, from, i) == Code
    requires text[i] == '/' && text[i+1] == '*'
    requires forall k :: i + 2 <= k < end ==> !EndsBlock(text, k)
    ensures ModeAt(text, from, end) == BlockComment && NoBraces(text, from, i, end)
  {
    assert ModeAt(text, from, i + 1) == SlashStar;
    assert ModeAt(text, from, i + 2) == BlockComment;
    if end > i + 2 {
      BlockRuns(text, from, i, end - 1);
      assert !EndsBlock(text, end - 1);
    }
  }

  /** What a scan from any position reports. */
  ghost predicate Reports(text: string, openIdx: nat, r: Scan)
  {
    if openIdx > |text| then r == Failed(NotTerminated)
    else if r.Found? then Closes(text, openIdx, r.at)
    else if r.error == ClosedBeforeOpened then
      exists k :: openIdx <= k < |text| && CodeChar(text, openIdx, k, '}') && Depth(text, openIdx, k + 1) < 0
                  && NothingClosed(text, openIdx, k)
    else
      NothingClosed(text, openIdx, |text|) &&
      r.error == match ModeAt(text, openIdx, |text|) {
        case Quoted(_) => UnterminatedString
        case Escaped(_) => UnterminatedString
        case BlockComment => UnterminatedComment
        case _ => NotTerminated
      }
  }

  /** From an open brace a scan finds exactly the brace that closes it, fails exactly when
      there is none, and never meets a brace that closes before it opened. */
  lemma ScanIsExact(text: string, openIdx: nat, r: Scan)
    requires Reports(text, openIdx, r) && openIdx < |text| && text[openIdx] == '{'
    ensures r != Failed(ClosedBeforeOpened)
    ensures forall j: nat :: Closes(text, openIdx, j) <==> r == Found(j)
  {
    if r == Failed(ClosedBeforeOpened) {
      var k :| openIdx <= k < |text| && CodeChar(text, openIdx, k, '}') && Depth(text, openIdx, k + 1) < 0
               && NothingClosed(text, openIdx, k);
      OpenUntilClosed(text, openIdx, k);
    }
  }

  method FindMatchingBrace(text: string, openIdx: nat) returns (r: Scan)
    ensures Reports(text, openIdx, r)
  {
    var depth := 0;
    var i := openIdx;
    while i < |text|
      invariant openIdx <= i && (openIdx <= |text| ==> i <= |text|)
      invariant i <= |text| ==> ModeAt(text, openIdx, i) in {Code, LineComment}
      invariant i < |text| ==> ModeAt(text, openIdx, i) == Code
      invariant i <= |text| ==> depth == Depth(text, openIdx, i) && NothingClosed(text, openIdx, i)
    {
      var ch := text[i];
      if IsQuote(ch) {
        var after := SkipQuoted(text, i, ch, openIdx);
        DepthAcross(text, openIdx, i, if after.Some? then after.value else |text|);
        if after.None? { return Failed(UnterminatedString); }
        i := after.value;
        continue;
      }
      if ch == '/' && CharAt(text, i + 1, '/') {
        var newline := FindChar(text, '\n', i + 2);
        var stop := if newline.Some? then newline.value else |text|;
        LineRuns(text, openIdx, i, stop);
        DepthAcross(text, openIdx, i, stop);
        i := if newline.None? then |text| else newline.value + 1;
        continue;
      }
      if ch == '/' && CharAt(text, i + 1, '*') {
        var end := FindBlockEnd(text, i + 2);
        var stop := if end.Some? then end.value else |text|;
        BlockRuns(text, openIdx, i, stop);
        DepthAcross(text, openIdx, i, stop);
        if end.None? { return Failed(UnterminatedComment); }
        assert ModeAt(text, openIdx, stop + 1) == StarSlash;
        i := stop + 2;
        continue;
      }
      if ch == '{' {
        depth := depth + 1;
      } else if ch == '}' {
        depth := depth - 1;
        if depth == 0 { return Found(i); }
        if !(depth > 0) { return Failed(ClosedBeforeOpened); }
      }
      i := i + 1;
    }
    return Failed(NotTerminated);
  }


  /** The patched file: only the span matched inside the function body changes. */
  method Splice(src: string, bodyStart: nat, bodyEnd: nat, matchStart: nat, matchEnd: nat, replacement: string)
    returns (out: string)
    requires bodyStart <= bodyEnd < |src| && matchStart <= matchEnd <= bodyEnd + 1 - bodyStart
    ensures out == src[..bodyStart + matchStart] + replacement + src[bodyStart + matchEnd..]
  {
    var fnSrc := src[bodyStart..bodyEnd + 1];
    var patchedFn := fnSrc[..matchStart] + replacement + fnSrc[matchEnd..];
    out := src[..bodyStart] + patchedFn + src[bodyEnd + 1..];
    assert src[..bodyStart + matchStart] == src[..bodyStart] + fnSrc[..matchStart];
    assert src[bodyStart + matchEnd..] == fnSrc[matchEnd..] + src[bodyEnd + 1..];
  }
}

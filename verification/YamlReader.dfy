/** An indentation-based reader of block mappings and sequences (section 8.2 of YAML 1.2.2).
    It reads nothing from what is outside this part of the language.
*/
module YamlReader {
  import opened Text
  import opened YamlScalars

  /** A line: its leading spaces and what follows them. */
  datatype Line = Line(indent: nat, text: string)

  predicate IsDash(text: string)
  {
    text == "-" || (|text| >= 2 && text[0] == '-' && text[1] == ' ')
  }

  predicate DashAt(ls: seq<Line>, n: nat)
  {
    ls != [] && ls[0].indent == n && IsDash(ls[0].text)
  }

  /** How many characters come before the first colon that a blank or the end follows. */
  function KeySize(text: string): (n: nat)
    ensures n <= |text|
    ensures n < |text| ==> text[n] == ':'
  {
    if text == "" || (text[0] == ':' && (|text| == 1 || IsBlank(text[1]))) then 0 else 1 + KeySize(text[1..])
  }

  datatype KeyLine = KeyLine(key: string, inline: Option<string>)

  /** A line "key:" or "key: scalar". */
  function ReadKey(text: string): Option<KeyLine>
  {
    var n := KeySize(text);
    if n == |text| || !IsPlain(text[..n]) then None
    else if n + 1 == |text| then Some(KeyLine(text[..n], None))
    else if text[n+1] == ' ' then Some(KeyLine(text[..n], Some(text[n+2..])))
    else None
  }

  // ----- Blocks: what is read and the lines left over -----

  /** The entries at indentation n. */
  function ReadMap(ls: seq<Line>, n: nat): (r: Option<(seq<Field>, seq<Line>)>)
    ensures r.Some? ==> |r.value.1| <= |ls|
    decreases |ls|, 1
  {
    if ls == [] || ls[0].indent < n || DashAt(ls, n) then Some(([], ls))
    else if ls[0].indent > n then None
    else
      match ReadEntry(ls, n)
      case None => None
      case Some((field, rest)) =>
        match ReadMap(rest, n)
        case None => None
        case Some((fields, left)) => Some(([field] + fields, left))
  }

  function ReadEntry(ls: seq<Line>, n: nat): (r: Option<(Field, seq<Line>)>)
    requires ls != []
    ensures r.Some? ==> |r.value.1| < |ls|
    decreases |ls|, 0
  {
    match ReadKey(ls[0].text)
    case None => None
    case Some(KeyLine(key, Some(text))) =>
      (match Scalar(text)
       case None => None
       case Some(v) => Some((Field(key, v), ls[1..])))
    case Some(KeyLine(key, None)) =>
      (match ReadBlock(ls[1..], n)
       case None => None
       case Some((v, rest)) => Some((Field(key, v), rest)))
  }

  /** The value of a key at indentation n whose line ends there: a sequence may sit at n itself. */
  function ReadBlock(ls: seq<Line>, n: nat): (r: Option<(Value, seq<Line>)>)
    ensures r.Some? ==> |r.value.1| <= |ls|
    decreases |ls|, 3
  {
    if DashAt(ls, n) then
      match ReadSeq(ls, n)
      case None => None
      case Some((items, rest)) => Some((Arr(items), rest))
    else ReadDeeper(ls, n)
  }

  /** The block indented by more than n; null if there is none. */
  function ReadDeeper(ls: seq<Line>, n: nat): (r: Option<(Value, seq<Line>)>)
    ensures r.Some? ==> |r.value.1| <= |ls|
    decreases |ls|, 2
  {
    if ls == [] || ls[0].indent <= n then Some((Null, ls))
    else if IsDash(ls[0].text) then
      match ReadSeq(ls, ls[0].indent)
      case None => None
      case Some((items, rest)) => Some((Arr(items), rest))
    else
      match ReadMap(ls, ls[0].indent)
      case None => None
      case Some((fields, rest)) => Some((Obj(fields), rest))
  }

  /** The items at indentation n. */
  function ReadSeq(ls: seq<Line>, n: nat): (r: Option<(seq<Value>, seq<Line>)>)
    ensures r.Some? ==> |r.value.1| <= |ls|
    decreases |ls|, 1
  {
    if !DashAt(ls, n) then Some(([], ls))
    else
      match ReadItem(ls, n)
      case None => None
      case Some((item, rest)) =>
        match ReadSeq(rest, n)
        case None => None
        case Some((items, left)) => Some(([item] + items, left))
  }

  function ReadItem(ls: seq<Line>, n: nat): (r: Option<(Value, seq<Line>)>)
    requires DashAt(ls, n)
    ensures r.Some? ==> |r.value.1| < |ls|
    decreases |ls|, 0
  {
    if ls[0].text == "-" then ReadDeeper(ls[1..], n)
    else
      match Scalar(ls[0].text[2..])
      case None => None
      case Some(v) => Some((v, ls[1..]))
  }

  // ----- Documents -----

  function Spaces(n: nat): (s: string)
    ensures |s| == n && forall i :: 0 <= i < n ==> s[i] == ' '
  {
    seq(n, i => ' ')
  }

  function LeadingSpaces(s: string): (n: nat)
    ensures n <= |s|
  {
    if s != "" && s[0] == ' ' then 1 + LeadingSpaces(s[1..]) else 0
  }

  function ToLine(s: string): Line
  {
    Line(LeadingSpaces(s), s[LeadingSpaces(s)..])
  }

  function ToLines(pieces: seq<string>): (ls: seq<Line>)
    ensures |ls| == |pieces| && forall i :: 0 <= i < |ls| ==> ls[i] == ToLine(pieces[i])
  {
    seq(|pieces|, i requires 0 <= i < |pieces| => ToLine(pieces[i]))
  }

  predicate IsMarkerText(t: string)
  {
    |t| >= 3 && t[..3] in {"---", "..."} && (|t| == 3 || t[3] in {' ', '\t'})
  }

  /** A line that starts or ends a document (section 9.1.2). */
  predicate HasMarker(ls: seq<Line>)
  {
    exists i :: 0 <= i < |ls| && ls[i].indent == 0 && IsMarkerText(ls[i].text)
  }

  /** One document without markers: null if there are no lines, else a mapping. */
  function ReadLines(ls: seq<Line>): Option<Value>
  {
    if HasMarker(ls) then None
    else if ls == [] then Some(Null)
    else
      match ReadMap(ls, 0)
      case None => None
      case Some((fields, rest)) => if rest == [] then Some(Obj(fields)) else None
  }

  /** A document whose lines all end in a line feed. */
  function Read(text: string): Option<Value>
  {
    var pieces := Split(text, '\n');
    var n := |pieces| - 1;
    if pieces[n] == "" then ReadLines(ToLines(pieces[..n])) else None
  }

  // ----- Lines and text -----

  function TextOf(l: Line): string
  {
    Spaces(l.indent) + l.text + "\n"
  }

  function TextOfAll(ls: seq<Line>): string
  {
    if ls == [] then "" else TextOf(ls[0]) + TextOfAll(ls[1..])
  }

  lemma {:induction false} TextOfConcat(a: seq<Line>, b: seq<Line>)
    ensures TextOfAll(a + b) == TextOfAll(a) + TextOfAll(b)
  {
    if a == [] {
      assert a + b == b;
    } else {
      assert (a + b)[1..] == a[1..] + b;
      TextOfConcat(a[1..], b);
    }
  }

  /** A line as the printer writes it. */
  predicate IsWritten(l: Line)
  {
    l.text != "" && l.text[0] != ' ' && '\n' !in l.text
  }

  lemma {:induction false} LeadingSpacesOf(n: nat, t: string)
    requires t != "" && t[0] != ' '
    ensures LeadingSpaces(Spaces(n) + t) == n
  {
    var s := Spaces(n) + t;
    if n == 0 {
      assert s == t;
    } else {
      assert s[1..] == Spaces(n - 1) + t;
      LeadingSpacesOf(n - 1, t);
    }
  }

  lemma ToLineOf(l: Line)
    requires IsWritten(l)
    ensures ToLine(Spaces(l.indent) + l.text) == l && '\n' !in Spaces(l.indent) + l.text
  {
    LeadingSpacesOf(l.indent, l.text);
    assert (Spaces(l.indent) + l.text)[l.indent..] == l.text;
  }

  function Pieces(ls: seq<Line>): (r: seq<string>)
    ensures |r| == |ls| && forall i :: 0 <= i < |ls| ==> r[i] == Spaces(ls[i].indent) + ls[i].text
  {
    seq(|ls|, i requires 0 <= i < |ls| => Spaces(ls[i].indent) + ls[i].text)
  }

  lemma {:induction false} SplitText(ls: seq<Line>)
    requires forall i :: 0 <= i < |ls| ==> IsWritten(ls[i])
    ensures Split(TextOfAll(ls), '\n') == Pieces(ls) + [""]
  {
    if ls != [] {
      SplitText(ls[1..]);
      var p := Spaces(ls[0].indent) + ls[0].text;
      ToLineOf(ls[0]);
      SplitPiece(p, TextOfAll(ls[1..]), '\n');
      assert TextOfAll(ls) == p + "\n" + TextOfAll(ls[1..]);
      assert Pieces(ls) == [p] + Pieces(ls[1..]);
    }
  }

  lemma PiecesAreLines(ls: seq<Line>)
    requires forall i :: 0 <= i < |ls| ==> IsWritten(ls[i])
    ensures ToLines(Pieces(ls)) == ls
  {
    forall i | 0 <= i < |ls| ensures ToLine(Pieces(ls)[i]) == ls[i] { ToLineOf(ls[i]); }
  }

  lemma ReadText(ls: seq<Line>)
    requires forall i :: 0 <= i < |ls| ==> IsWritten(ls[i])
    ensures Read(TextOfAll(ls)) == ReadLines(ls)
  {
    SplitText(ls);
    assert (Pieces(ls) + [""])[..|ls|] == Pieces(ls);
    PiecesAreLines(ls);
  }
}

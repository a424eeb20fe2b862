/** Decoding bytes that may not be well-formed UTF-8: every longest beginning of a character that
    does not go on is read as one replacement character, as JavaScript and Python both do.
*/
module Utf8Repair {
  import opened Text
  import opened Utf8

  const REPLACEMENT := '\U{FFFD}'

  /** Whether some character's bytes start with these two. */
  predicate SecondFits(first: byte, second: byte)
  {
    if first == 0xE0 then 0xA0 <= second < 0xC0
    else if first == 0xED then 0x80 <= second < 0xA0
    else if first == 0xF0 then 0x90 <= second < 0xC0
    else if first == 0xF4 then 0x80 <= second < 0x90
    else 0xC2 <= first < 0xF4 && IsTail(second)
  }

  /** How many bytes one replacement character stands for. */
  function BrokenSize(b: seq<byte>): (n: nat)
    requires b != []
    ensures 1 <= n <= |b|
    ensures forall i :: 0 < i < n ==> IsTail(b[i])
    ensures IsTail(b[0]) ==> n == 1
  {
    if b[0] < 0xE0 || |b| < 2 || !SecondFits(b[0], b[1]) then 1
    else if b[0] < 0xF0 || |b| < 3 || !IsTail(b[2]) then 2
    else 3
  }

  /** The character that the bytes start with and its size, if they start with one. */
  function FirstChar(b: seq<byte>): (r: Option<(char, nat)>)
    ensures r.Some? ==> 1 <= r.value.1 <= |b|
  {
    match DecodeNumber(b)
    case None => None
    case Some((n, size)) => if IsScalar(n) && 1 <= size <= |b| then Some((n as char, size)) else None
  }

  function Repaired(b: seq<byte>): string
  {
    if b == [] then ""
    else match FirstChar(b)
      case Some((c, size)) => [c] + Repaired(b[size..])
      case None => [REPLACEMENT] + Repaired(b[BrokenSize(b)..])
  }

  lemma WholeStep(b: seq<byte>)
    requires b != [] && Decode(b).Some?
    ensures FirstChar(b).Some?
    ensures var (c, size) := FirstChar(b).value;
            Decode(b[size..]).Some? && Decode(b).value == [c] + Decode(b[size..]).value
  {
    var (n, size) := DecodeNumber(b).value;
    DecodedSize(b, n, size);
  }

  /** Well-formed bytes are read as what they encode. */
  lemma {:induction false} RepairedWhole(b: seq<byte>)
    requires Decode(b).Some?
    ensures Repaired(b) == Decode(b).value
  {
    if b != [] {
      WholeStep(b);
      var (c, size) := FirstChar(b).value;
      RepairedWhole(b[size..]);
    }
  }

  lemma FirstCharBytes(b: seq<byte>)
    requires FirstChar(b).Some?
    ensures var (c, size) := FirstChar(b).value;
            && (forall i :: 0 < i < size ==> IsTail(b[i])) && !IsTail(b[0])
            && (c as int < 0x80 <==> b[0] < 0x80) && (b[0] < 0x80 ==> size == 1 && b[0] == c as int)
  {
    var (n, size) := DecodeNumber(b).value;
    DecodedSize(b, n, size);
  }

  // ----- ASCII -----

  lemma NotAmongTails(b: seq<byte>, n: nat, a: byte)
    requires 1 <= n <= |b| && a < 0x80 && forall i :: 0 < i < n ==> IsTail(b[i])
    ensures a in b <==> b[0] == a || a in b[n..]
  {
    if a in b {
      var i :| 0 <= i < |b| && b[i] == a;
      if i > 0 { assert b[n..][i-n] == a; }
    }
  }

  /** An ASCII character is read exactly where its byte is. */
  lemma {:induction false} RepairedAscii(b: seq<byte>, c: char)
    requires c as int < 0x80
    ensures c in Repaired(b) <==> (c as int) in b
  {
    if b != [] {
      match FirstChar(b)
      case Some((d, size)) =>
        FirstCharBytes(b);
        NotAmongTails(b, size, c as int);
        RepairedAscii(b[size..], c);
      case None =>
        BrokenIsHigh(b);
        NotAmongTails(b, BrokenSize(b), c as int);
        RepairedAscii(b[BrokenSize(b)..], c);
    }
  }

  lemma BrokenIsHigh(b: seq<byte>)
    requires b != [] && FirstChar(b).None?
    ensures b[0] >= 0x80
  {
  }

  lemma FirstCharAppend(b: seq<byte>, a: byte)
    requires b != [] && a < 0x80
    ensures FirstChar(b + [a]) == FirstChar(b) && BrokenSize(b + [a]) == BrokenSize(b)
  {
    var d := b + [a];
    assert d[0] == b[0] && (|b| > 1 ==> d[1] == b[1]) && (|b| > 2 ==> d[2] == b[2]) && (|b| > 3 ==> d[3] == b[3]);
    assert d[|b|] == a;
  }

  lemma SuffixAppend<T>(b: seq<T>, a: T, n: nat)
    requires n <= |b|
    ensures (b + [a])[n..] == b[n..] + [a]
  {
  }

  /** An ASCII byte at the end is read as itself, whatever comes before it. */
  lemma {:induction false} RepairedAppend(b: seq<byte>, a: byte)
    requires a < 0x80
    ensures Repaired(b + [a]) == Repaired(b) + [a as char]
  {
    if b == [] {
      RepairedOne(a);
    } else {
      var n := if FirstChar(b).Some? then FirstChar(b).value.1 else BrokenSize(b);
      var c := if FirstChar(b).Some? then FirstChar(b).value.0 else REPLACEMENT;
      FirstCharAppend(b, a);
      SuffixAppend(b, a, n);
      RepairedAppend(b[n..], a);
      Associative([c], Repaired(b[n..]), [a as char]);
    }
  }

  lemma RepairedOne(a: byte)
    requires a < 0x80
    ensures Repaired([] + [a]) == Repaired([]) + [a as char]
  {
    assert [] + [a] == [a] && [a][1..] == [];
    assert FirstChar([a]) == Some((a as char, 1));
  }

  // ----- Counting characters -----

  /** The bytes that begin a character. */
  function Leads(b: seq<byte>): nat
  {
    if b == [] then 0 else (if IsTail(b[0]) then 0 else 1) + Leads(b[1..])
  }

  predicate StartsInside(b: seq<byte>)
  {
    b != [] && IsTail(b[0])
  }

  lemma {:induction false} LeadsConcat(a: seq<byte>, b: seq<byte>)
    ensures Leads(a + b) == Leads(a) + Leads(b)
  {
    if a == [] {
      AddNothing(b);
    } else {
      assert (a + b)[1..] == a[1..] + b;
      LeadsConcat(a[1..], b);
    }
  }

  lemma {:induction false} SkipTails(b: seq<byte>, n: nat)
    requires n <= |b| && forall i :: 0 <= i < n ==> IsTail(b[i])
    ensures Leads(b) == Leads(b[n..])
  {
    if n > 0 {
      SkipTails(b[1..], n - 1);
      assert b[1..][n-1..] == b[n..];
    }
  }

  lemma LeadsAfter(b: seq<byte>, n: nat)
    requires 1 <= n <= |b| && forall i :: 0 < i < n ==> IsTail(b[i])
    ensures Leads(b) == (if IsTail(b[0]) then 0 else 1) + Leads(b[n..])
  {
    SkipTails(b[1..], n - 1);
    assert b[1..][n-1..] == b[n..];
  }

  /** As many characters are read as begin, and one more when the bytes start inside one. */
  lemma {:induction false} RepairedSize(b: seq<byte>)
    ensures |Repaired(b)| >= Leads(b) + (if StartsInside(b) then 1 else 0)
  {
    if b != [] {
      match FirstChar(b)
      case Some((c, size)) =>
        FirstCharBytes(b);
        LeadsAfter(b, size);
        RepairedSize(b[size..]);
      case None =>
        LeadsAfter(b, BrokenSize(b));
        RepairedSize(b[BrokenSize(b)..]);
    }
  }

  lemma CharBytes(c: char)
    ensures !IsTail(EncodeChar(c)[0]) && forall i :: 0 < i < |EncodeChar(c)| ==> IsTail(EncodeChar(c)[i])
  {
  }

  lemma {:induction false} EncodedLeads(s: string)
    ensures Leads(Encode(s)) == |s| && !StartsInside(Encode(s))
  {
    if s != "" {
      var b := Encode(s);
      var n := |EncodeChar(s[0])|;
      CharBytes(s[0]);
      assert b[n..] == Encode(s[1..]) && forall i :: 0 <= i < n ==> b[i] == EncodeChar(s[0])[i];
      LeadsAfter(b, n);
      EncodedLeads(s[1..]);
    }
  }

  /** Cut before a byte that does not go on with a character, the first character is not cut. */
  lemma FirstInLeft(c: char, rest: seq<byte>, a: seq<byte>, b: seq<byte>)
    requires EncodeChar(c) + rest == a + b && a != [] && !StartsInside(b)
    ensures |EncodeChar(c)| <= |a| && a == EncodeChar(c) + a[|EncodeChar(c)|..]
    ensures rest == a[|EncodeChar(c)|..] + b
  {
    var n := |EncodeChar(c)|;
    CharBytes(c);
    assert forall i :: 0 <= i < n ==> (a + b)[i] == EncodeChar(c)[i];
    assert b != [] ==> (a + b)[|a|] == b[0];
    assert rest == (a + b)[n..];
  }

  lemma AddChar(c: char, b: seq<byte>)
    requires Decode(b).Some?
    ensures Decode(EncodeChar(c) + b).Some?
  {
    EncodeDecode(b);
    EncodeCons(c, Decode(b).value);
    DecodeEncode([c] + Decode(b).value);
  }

  /** Cut before a byte that begins a character, an encoding is cut between characters. */
  lemma {:induction false} CutBetween(s: string, a: seq<byte>, b: seq<byte>)
    requires Encode(s) == a + b && !StartsInside(b)
    ensures Decode(a).Some? && Decode(b).Some?
  {
    if a == [] {
      AddNothing(b);
      DecodeEncode(s);
    } else {
      var n := |EncodeChar(s[0])|;
      FirstInLeft(s[0], Encode(s[1..]), a, b);
      CutBetween(s[1..], a[n..], b);
      AddChar(s[0], a[n..]);
    }
  }
}

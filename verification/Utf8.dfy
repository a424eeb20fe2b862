/** UTF-8 (RFC 3629): what a string's bytes are, and which bytes are some string's.
    Decoding refuses overlong forms, surrogates and numbers above the last character.
*/
module Utf8 {
  import opened Text

  type byte = n: int | 0 <= n < 256

  /** The low six bits of a number, marked as a tail byte. */
  function Tail(n: int): (b: byte)
    requires n >= 0
    ensures 0x80 <= b < 0xC0
  {
    0x80 + n % 64
  }

  function EncodeChar(c: char): (b: seq<byte>)
    ensures 1 <= |b| <= 4
  {
    var n := c as int;
    if n < 0x80 then [n]
    else if n < 0x800 then [0xC0 + n / 64, Tail(n)]
    else if n < 0x1_0000 then [0xE0 + n / 64 / 64, Tail(n / 64), Tail(n)]
    else [0xF0 + n / 64 / 64 / 64, Tail(n / 64 / 64), Tail(n / 64), Tail(n)]
  }

  function Encode(s: string): seq<byte>
  {
    if s == "" then [] else EncodeChar(s[0]) + Encode(s[1..])
  }

  predicate IsTail(b: byte)
  {
    0x80 <= b < 0xC0
  }

  predicate IsScalar(n: int)
  {
    0 <= n < 0xD800 || 0xE000 <= n < 0x11_0000
  }

  /** A leading number extended by the six bits of a tail byte. */
  function Extend(n: int, tail: byte): int
  {
    n * 64 + (tail as int - 0x80)
  }

  /** The number that the bytes start with and how many bytes it takes. */
  function DecodeNumber(b: seq<byte>): Option<(int, nat)>
  {
    if b == [] then None
    else
      var first: int := b[0];
      if first < 0x80 then Some((first, 1))
      else if 0xC0 <= first < 0xE0 && |b| >= 2 && IsTail(b[1]) then
        var n := Extend(first - 0xC0, b[1]);
        if n >= 0x80 then Some((n, 2)) else None
      else if 0xE0 <= first < 0xF0 && |b| >= 3 && IsTail(b[1]) && IsTail(b[2]) then
        var n := Extend(Extend(first - 0xE0, b[1]), b[2]);
        if n >= 0x800 then Some((n, 3)) else None
      else if 0xF0 <= first < 0xF8 && |b| >= 4 && IsTail(b[1]) && IsTail(b[2]) && IsTail(b[3]) then
        var n := Extend(Extend(Extend(first - 0xF0, b[1]), b[2]), b[3]);
        if n >= 0x1_0000 then Some((n, 4)) else None
      else None
  }

  /** None for bytes that are not well-formed UTF-8. */
  function Decode(b: seq<byte>): Option<string>
  {
    if b == [] then Some("")
    else match DecodeNumber(b)
      case None => None
      case Some((n, size)) =>
        if !IsScalar(n) || size > |b| || size == 0 then None
        else match Decode(b[size..])
          case None => None
          case Some(rest) => Some([n as char] + rest)
  }

  lemma ExtendTail(n: int)
    requires n >= 0
    ensures Extend(n / 64, Tail(n)) == n
  {
  }

  lemma DecodeEncodedChar(c: char, rest: seq<byte>)
    ensures DecodeNumber(EncodeChar(c) + rest) == Some((c as int, |EncodeChar(c)|))
  {
    var n := c as int;
    ExtendTail(n);
    ExtendTail(n / 64);
    ExtendTail(n / 64 / 64);
    var b := EncodeChar(c) + rest;
    assert b[0] == EncodeChar(c)[0];
    if n >= 0x80 { assert b[1] == EncodeChar(c)[1]; }
    if n >= 0x800 { assert b[2] == EncodeChar(c)[2]; }
    if n >= 0x1_0000 { assert b[3] == EncodeChar(c)[3]; }
  }

  lemma {:induction false} DecodeEncode(s: string)
    ensures Decode(Encode(s)) == Some(s)
  {
    if s != "" {
      DecodeEncode(s[1..]);
      DecodeEncodedChar(s[0], Encode(s[1..]));
      assert Encode(s)[|EncodeChar(s[0])|..] == Encode(s[1..]);
      assert [s[0]] + s[1..] == s;
    }
  }

  lemma SixBits(n: int, low: int)
    requires n >= 0 && 0 <= low < 64
    ensures (n * 64 + low) / 64 == n && (n * 64 + low) % 64 == low
  {
  }

  lemma TailExtend(n: int, tail: byte)
    requires n >= 0 && IsTail(tail)
    ensures Extend(n, tail) >= 0 && Extend(n, tail) / 64 == n && Tail(Extend(n, tail)) == tail
  {
    SixBits(n, tail as int - 0x80);
  }

  lemma TwoBytes(n: int, m: int)
    requires m / 64 == n && 0x80 <= m < 0x800
    ensures n < 0x20 && EncodeChar(m as char) == [0xC0 + n, Tail(m)]
  {
  }

  lemma EncodeTwo(n: int, t1: byte)
    requires n >= 0 && IsTail(t1) && 0x80 <= Extend(n, t1) < 0x800
    ensures n < 0x20 && EncodeChar(Extend(n, t1) as char) == [0xC0 + n, t1]
  {
    TailExtend(n, t1);
    TwoBytes(n, Extend(n, t1));
  }

  lemma ThreeBytes(n: int, m1: int, m2: int)
    requires m2 / 64 == m1 && m1 / 64 == n && 0x800 <= m2 < 0x1_0000 && IsScalar(m2)
    ensures n < 0x10 && EncodeChar(m2 as char) == [0xE0 + n, Tail(m1), Tail(m2)]
  {
  }

  lemma EncodeThree(n: int, t1: byte, t2: byte)
    requires n >= 0 && IsTail(t1) && IsTail(t2)
    requires var m := Extend(Extend(n, t1), t2); 0x800 <= m < 0x1_0000 && IsScalar(m)
    ensures n < 0x10 && EncodeChar(Extend(Extend(n, t1), t2) as char) == [0xE0 + n, t1, t2]
  {
    TailExtend(n, t1);
    TailExtend(Extend(n, t1), t2);
    ThreeBytes(n, Extend(n, t1), Extend(Extend(n, t1), t2));
  }

  lemma FourBytes(n: int, m1: int, m2: int, m3: int)
    requires m3 / 64 == m2 && m2 / 64 == m1 && m1 / 64 == n && 0x1_0000 <= m3 && IsScalar(m3)
    ensures n < 0x10 && EncodeChar(m3 as char) == [0xF0 + n, Tail(m1), Tail(m2), Tail(m3)]
  {
  }

  lemma EncodeFour(n: int, t1: byte, t2: byte, t3: byte)
    requires n >= 0 && IsTail(t1) && IsTail(t2) && IsTail(t3)
    requires var m := Extend(Extend(Extend(n, t1), t2), t3); 0x1_0000 <= m && IsScalar(m)
    ensures n < 0x10 && EncodeChar(Extend(Extend(Extend(n, t1), t2), t3) as char) == [0xF0 + n, t1, t2, t3]
  {
    var m1 := Extend(n, t1);
    TailExtend(n, t1);
    var m2 := Extend(m1, t2);
    TailExtend(m1, t2);
    TailExtend(m2, t3);
    FourBytes(n, m1, m2, Extend(m2, t3));
  }

  lemma FirstBytes(b: seq<byte>)
    ensures |b| >= 2 ==> b[..2] == [b[0], b[1]]
    ensures |b| >= 3 ==> b[..3] == [b[0], b[1], b[2]]
    ensures |b| >= 4 ==> b[..4] == [b[0], b[1], b[2], b[3]]
  {
  }

  lemma DecodedSize(b: seq<byte>, n: int, size: nat)
    requires DecodeNumber(b) == Some((n, size))
    ensures size in {1, 2, 3, 4} && size <= |b|
    ensures size == 1 ==> b[0] == n < 0x80
    ensures size == 2 ==> 0xC0 <= b[0] && IsTail(b[1]) && n == Extend(b[0] - 0xC0, b[1]) && b[0] < 0xE0 && n >= 0x80
    ensures size == 3 ==> 0xE0 <= b[0] && IsTail(b[1]) && IsTail(b[2]) &&
                          n == Extend(Extend(b[0] - 0xE0, b[1]), b[2]) && b[0] < 0xF0 && n >= 0x800
    ensures size == 4 ==> 0xF0 <= b[0] && IsTail(b[1]) && IsTail(b[2]) && IsTail(b[3]) &&
                          n == Extend(Extend(Extend(b[0] - 0xF0, b[1]), b[2]), b[3]) && n >= 0x1_0000
  {
  }

  lemma EncodeDecodedNumber(b: seq<byte>, n: int, size: nat)
    requires DecodeNumber(b) == Some((n, size)) && IsScalar(n)
    ensures 1 <= size <= |b| && EncodeChar(n as char) == b[..size]
  {
    DecodedSize(b, n, size);
    FirstBytes(b);
    if size == 2 {
      ExtendRange(b[0] - 0xC0, b[1]);
      EncodeTwo(b[0] - 0xC0, b[1]);
    } else if size == 3 {
      ExtendRange(b[0] - 0xE0, b[1]);
      ExtendRange(Extend(b[0] - 0xE0, b[1]), b[2]);
      EncodeThree(b[0] - 0xE0, b[1], b[2]);
    } else if size == 4 {
      EncodeFour(b[0] - 0xF0, b[1], b[2], b[3]);
    }
  }

  lemma ExtendRange(n: int, tail: byte)
    requires n >= 0 && IsTail(tail)
    ensures n * 64 <= Extend(n, tail) < n * 64 + 64
  {
  }

  lemma EncodeCons(c: char, rest: string)
    ensures Encode([c] + rest) == EncodeChar(c) + Encode(rest)
  {
    assert ([c] + rest)[1..] == rest;
  }

  /** One step of decoding, undone. */
  lemma DecodeStep(b: seq<byte>) returns (c: char, size: nat, rest: string)
    requires b != [] && Decode(b).Some?
    ensures 1 <= size <= |b| && EncodeChar(c) == b[..size]
    ensures Decode(b[size..]) == Some(rest) && Decode(b).value == [c] + rest
  {
    var (n, k) := DecodeNumber(b).value;
    EncodeDecodedNumber(b, n, k);
    c, size, rest := n as char, k, Decode(b[k..]).value;
  }

  lemma {:induction false} EncodeDecode(b: seq<byte>)
    requires Decode(b).Some?
    ensures Encode(Decode(b).value) == b
  {
    if b != [] {
      var c, size, rest := DecodeStep(b);
      EncodeDecode(b[size..]);
      EncodeCons(c, rest);
      assert b == b[..size] + b[size..];
    }
  }

  lemma {:induction false} EncodeConcat(a: string, b: string)
    ensures Encode(a + b) == Encode(a) + Encode(b)
  {
    if a == "" {
      assert a + b == b;
    } else {
      assert (a + b)[1..] == a[1..] + b;
      EncodeConcat(a[1..], b);
    }
  }

  lemma {:induction false} EncodeAscii(s: string)
    requires forall c :: c in s ==> c as int < 0x80
    ensures |Encode(s)| == |s|
  {
    if s != "" {
      assert s[0] in s && forall c :: c in s[1..] ==> c in s;
      EncodeAscii(s[1..]);
    }
  }
}

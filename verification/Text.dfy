/** What the other modules share: options, splitting and joining lines, the order of strings,
    sets of strings in that order, decimal numbers, and the blanks that JavaScript trims.
*/
module Text {

  datatype Option<+T> = None | Some(value: T)

  /** Lines joined with a separator character. */
  function Join(parts: seq<string>, sep: char): string
  {
    if |parts| == 0 then ""
    else if |parts| == 1 then parts[0]
    else parts[0] + [sep] + Join(parts[1..], sep)
  }

  /** The pieces between the occurrences of sep; there is always at least one. */
  function Split(s: string, sep: char): (parts: seq<string>)
    ensures |parts| > 0
    ensures forall p :: p in parts ==> sep !in p
  {
    if s == "" then [""]
    else
      var rest := Split(s[1..], sep);
      if s[0] == sep then [""] + rest else [[s[0]] + rest[0]] + rest[1..]
  }

  lemma {:induction false} JoinSplit(s: string, sep: char)
    ensures Join(Split(s, sep), sep) == s
  {
    if s != "" {
      var rest := Split(s[1..], sep);
      JoinSplit(s[1..], sep);
      if s[0] == sep {
        assert ([""] + rest)[1..] == rest;
      } else {
        var all := [[s[0]] + rest[0]] + rest[1..];
        assert all[1..] == rest[1..];
        assert s == [s[0]] + Join(rest, sep);
      }
    }
  }

  lemma {:induction false} SplitPiece(p: string, s: string, sep: char)
    requires sep !in p
    ensures Split(p + [sep] + s, sep) == [p] + Split(s, sep)
  {
    var all := p + [sep] + s;
    if p == "" {
      assert all[1..] == s;
    } else {
      assert all[1..] == p[1..] + [sep] + s;
      SplitPiece(p[1..], s, sep);
      var rest := Split(all[1..], sep);
      assert rest == [p[1..]] + Split(s, sep);
      assert [all[0]] + p[1..] == p;
    }
  }

  lemma {:induction false} SplitAtom(p: string, sep: char)
    requires sep !in p
    ensures Split(p, sep) == [p]
  {
    if p != "" {
      SplitAtom(p[1..], sep);
      assert [p[0]] + p[1..] == p;
    }
  }

  lemma {:induction false} SplitJoin(parts: seq<string>, sep: char)
    requires |parts| > 0
    requires forall p :: p in parts ==> sep !in p
    ensures Split(Join(parts, sep), sep) == parts
  {
    assert parts[0] in parts;
    if |parts| == 1 {
      SplitAtom(parts[0], sep);
    } else {
      SplitJoin(parts[1..], sep);
      SplitPiece(parts[0], Join(parts[1..], sep), sep);
      assert parts == [parts[0]] + parts[1..];
    }
  }

  /** Lexicographic order by code point, as Python's sorted() and < use on strings. */
  predicate StrLe(a: string, b: string)
  {
    a == "" || (b != "" && (a[0] < b[0] || (a[0] == b[0] && StrLe(a[1..], b[1..]))))
  }

  lemma {:induction false} StrLeTotal(a: string, b: string)
    ensures StrLe(a, b) || StrLe(b, a)
  {
    if a != "" && b != "" && a[0] == b[0] { StrLeTotal(a[1..], b[1..]); }
  }

  lemma {:induction false} StrLeAntisymmetric(a: string, b: string)
    requires StrLe(a, b) && StrLe(b, a)
    ensures a == b
  {
    if a != "" && b != "" {
      StrLeAntisymmetric(a[1..], b[1..]);
      assert a == [a[0]] + a[1..] && b == [b[0]] + b[1..];
    }
  }

  lemma {:induction false} StrLeTransitive(a: string, b: string, c: string)
    requires StrLe(a, b) && StrLe(b, c)
    ensures StrLe(a, c)
  {
    if a != "" && b != "" && c != "" && a[0] == b[0] && b[0] == c[0] {
      StrLeTransitive(a[1..], b[1..], c[1..]);
    }
  }

  ghost predicate Least(x: string, s: set<string>)
  {
    x in s && forall y :: y in s ==> StrLe(x, y)
  }

  lemma {:induction false} LeastExists(s: set<string>) returns (x: string)
    requires s != {}
    ensures Least(x, s)
  {
    var z :| z in s;
    StrLeTotal(z, z);
    var rest := s - {z};
    assert forall y :: y in s ==> y == z || y in rest;
    if rest == {} {
      x := z;
    } else {
      x := LeastExists(rest);
      StrLeTotal(x, z);
      if StrLe(z, x) {
        forall y | y in rest ensures StrLe(z, y) { StrLeTransitive(z, x, y); }
        x := z;
      }
    }
  }

  /** A set's elements in increasing order. */
  function Sorted(s: set<string>): (r: seq<string>)
    ensures forall x :: x in r <==> x in s
    ensures forall i, j :: 0 <= i < j < |r| ==> r[i] != r[j]
    ensures |r| == |s|
  {
    if s == {} then [] else
      assert exists x :: x in s && forall y :: y in s ==> StrLe(x, y) by {
        var x := LeastExists(s);
      }
      assert forall a, b :: StrLe(a, b) && StrLe(b, a) ==> a == b by {
        forall a, b | StrLe(a, b) && StrLe(b, a) ensures a == b { StrLeAntisymmetric(a, b); }
      }
      var x :| x in s && forall y :: y in s ==> StrLe(x, y);
      [x] + Sorted(s - {x})
  }

  lemma {:induction false} SortedAscends(s: set<string>)
    ensures forall i, j :: 0 <= i < j < |Sorted(s)| ==> StrLe(Sorted(s)[i], Sorted(s)[j])
    decreases |s|
  {
    if s != {} {
      var x := Sorted(s)[0];
      SortedAscends(s - {x});
      forall j | 0 < j < |Sorted(s)| ensures StrLe(x, Sorted(s)[j]) {
        assert Sorted(s)[j] in Sorted(s);
      }
    }
  }

  function Digit(n: nat): char
    requires n < 10
  {
    "0123456789"[n]
  }

  /** Decimal rendering of a natural number. */
  function Decimal(n: nat): (r: string)
    ensures |r| > 0
    ensures forall c :: c in r ==> '0' <= c <= '9'
  {
    if n < 10 then [Digit(n)] else Decimal(n / 10) + [Digit(n % 10)]
  }

  /** JavaScript's white space and line terminators. */
  predicate IsJsSpace(c: char)
  {
    var n := c as int;
    9 <= n <= 13 || n == 32 || n == 0xA0 || n == 0x1680 || 0x2000 <= n <= 0x200A || n == 0x2028 || n == 0x2029 ||
    n == 0x202F || n == 0x205F || n == 0x3000 || n == 0xFEFF
  }

  function TrimStart(s: string): string
  {
    if s != "" && IsJsSpace(s[0]) then TrimStart(s[1..]) else s
  }

  function TrimEnd(s: string): string
  {
    if s != "" && IsJsSpace(s[|s|-1]) then TrimEnd(s[..|s|-1]) else s
  }

  /** Without its carriage returns. */
  function DropReturns(s: string): (r: string)
    ensures forall c :: c in r ==> c in s && c != '\r'
    ensures '\r' !in s ==> r == s
  {
    if s == "" then ""
    else
      assert s == [s[0]] + s[1..];
      (if s[0] == '\r' then "" else [s[0]]) + DropReturns(s[1..])
  }

  lemma {:induction false} DropReturnsJoin(a: string, b: string)
    ensures DropReturns(a + b) == DropReturns(a) + DropReturns(b)
  {
    if a == "" {
      AddNothing(b);
      AddNothing(DropReturns(b));
    } else {
      assert (a + b)[1..] == a[1..] + b;
      DropReturnsJoin(a[1..], b);
      Associative(if a[0] == '\r' then "" else [a[0]], DropReturns(a[1..]), DropReturns(b));
    }
  }

  predicate AllSpace(s: string)
  {
    forall i :: 0 <= i < |s| ==> IsJsSpace(s[i])
  }

  /** What is cut off the end is white space, and what is left does not end in any. */
  lemma {:induction false} TrimEndIs(s: string)
    ensures TrimEnd(s) <= s && AllSpace(s[|TrimEnd(s)|..])
    ensures TrimEnd(s) == "" || !IsJsSpace(TrimEnd(s)[|TrimEnd(s)|-1])
  {
    if s != "" && IsJsSpace(s[|s|-1]) {
      var n := |s| - 1;
      TrimEndIs(s[..n]);
      forall i | |TrimEnd(s)| <= i < |s| ensures IsJsSpace(s[i]) {
        if i < n { assert s[..n][|TrimEnd(s)|..][i-|TrimEnd(s)|] == s[i]; }
      }
    }
  }

  /** r is s without k characters of white space at its start. */
  predicate Stripped(s: string, k: int, r: string)
  {
    0 <= k <= |s| && AllSpace(s[..k]) && r == s[k..]
  }

  lemma {:induction false} TrimStartIs(s: string) returns (k: nat)
    ensures Stripped(s, k, TrimStart(s))
    ensures TrimStart(s) == "" || !IsJsSpace(TrimStart(s)[0])
  {
    k := 0;
    if s != "" && IsJsSpace(s[0]) {
      k := TrimStartIs(s[1..]);
      assert s[1..][k..] == s[k+1..];
      assert s[..k+1] == [s[0]] + s[1..][..k];
      k := k + 1;
    }
  }

  function Trim(s: string): string
  {
    TrimEnd(TrimStart(s))
  }

  // ----- Sequences -----

  lemma Associative<T>(a: seq<T>, b: seq<T>, c: seq<T>)
    ensures (a + b) + c == a + (b + c)
  {
  }

  lemma AddNothing<T>(a: seq<T>)
    ensures a + [] == a && [] + a == a
  {
  }

  lemma PrefixGrows<T>(s: seq<T>, i: nat)
    requires i < |s|
    ensures s[..i+1] == s[..i] + [s[i]] && s[..i+1][..i] == s[..i]
  {
  }

  lemma SplitLast<T>(s: seq<T>)
    requires s != []
    ensures s == s[..|s|-1] + [s[|s|-1]]
  {
  }

  lemma SplitFirst<T>(s: seq<T>)
    requires s != []
    ensures s == [s[0]] + s[1..]
  {
  }

  /** All the pieces, one after the other. */
  function Concat<T>(pieces: seq<seq<T>>): seq<T>
  {
    if pieces == [] then [] else pieces[0] + Concat(pieces[1..])
  }
}

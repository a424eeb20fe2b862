/** Rewriting a text piece by piece, and when that equals rewriting it as a whole. */
module Boundaries {
  import opened Text
  import opened Placeholders

  // ----- Where placeholders start -----

  /** The length of the placeholder that starts at position i, 0 for none. */
  function LengthAt(d: Dialect, words: Words, s: string, i: nat): nat
    requires i < |s|
  {
    MatchLength(d, words, AfterWordAt(words, false, s, i), s[i..])
  }

  /** The rewriting of what s is from position i on. */
  function RewriteAt(d: Dialect, words: Words, s: string, i: nat): string
    requires i <= |s|
  {
    Rewrite(d, words, AfterWordAt(words, false, s, i), s[i..])
  }

  predicate StartsAt(d: Dialect, words: Words, s: string, i: nat)
  {
    i < |s| && LengthAt(d, words, s, i) > 0
  }

  function Starts(d: Dialect, words: Words, s: string): set<nat>
  {
    set i: nat | i < |s| && StartsAt(d, words, s, i)
  }

  /** The same for pieces that know nothing of each other, as positions in the whole. */
  function PieceStarts(d: Dialect, words: Words, pieces: seq<string>): set<nat>
  {
    if pieces == [] then {}
    else Starts(d, words, pieces[0]) + Moved(PieceStarts(d, words, pieces[1..]), |pieces[0]|)
  }

  function Moved(s: set<nat>, n: nat): set<nat>
  {
    set i | i in s :: i + n
  }

  function RewritePieces(d: Dialect, words: Words, pieces: seq<string>): (r: seq<string>)
    ensures |r| == |pieces| && forall i :: 0 <= i < |pieces| ==> r[i] == RewriteString(d, words, pieces[i])
  {
    if pieces == [] then [] else [RewriteString(d, words, pieces[0])] + RewritePieces(d, words, pieces[1..])
  }

  /** What s is from position i on when form takes the place of the fixed part of a placeholder at each start. */
  function Replaced(form: string, s: string, starts: set<nat>, i: nat): string
    requires i <= |s|
    decreases |s| - i
  {
    if i == |s| then ""
    else if i in starts && i + LEAD <= |s| then form + Replaced(form, s, starts, i + LEAD)
    else [s[i]] + Replaced(form, s, starts, i + 1)
  }

  /** Fixed parts lie within s, begin with an x and do not overlap. */
  predicate Apart(s: string, starts: set<nat>)
  {
    forall i :: i in starts ==> i + LEAD <= |s| && s[i] == 'x' && forall j :: i < j < i + LEAD ==> j !in starts
  }

  lemma PlaceholderHead(d: Dialect, t: string)
    requires IsPlaceholder(d, t)
    ensures t[0] == 'x' && t[1] in {'o', 'a'}
  {
    var head := t[..4];
    assert head[0] == t[0] && head[1] == t[1];
  }

  /** The only other x of a placeholder comes before the b of xoxb. */
  lemma InnerX(d: Dialect, t: string, i: nat)
    requires IsPlaceholder(d, t) && 0 < i < |t| && t[i] == 'x'
    ensures i + 1 < |t| && t[i+1] == 'b'
  {
    var head, mark := t[..4], t[4..LEAD];
    PlaceholderChars(d, t);
    assert head[1] == t[1] && head[2] == t[2] && head[3] == t[3];
    forall k | 4 <= k < LEAD ensures t[k] != 'x' {
      assert t[k] == mark[k-4] && MARK[k-4] != 'x';
    }
  }

  /** A placeholder does not start inside another one. */
  lemma NoneInside(d: Dialect, t: string, i: nat, s: string, m: nat)
    requires IsPlaceholder(d, t) && 0 < i < |t| && t[i..] <= s && m <= |s|
    ensures !IsPlaceholder(d, s[..m])
  {
    assert s[0] == t[i] && (i + 1 < |t| ==> s[1] == t[i+1]);
    if t[i] == 'x' { InnerX(d, t, i); }
    if IsPlaceholder(d, s[..m]) { PlaceholderHead(d, s[..m]); }
  }

  lemma StartsIs(d: Dialect, words: Words, s: string, i: nat, n: nat)
    requires i < |s| && n == LengthAt(d, words, s, i) && n > 0
    ensures IsPlaceholder(d, s[i..i+n]) && i + LEAD < i + n <= |s| && s[i] == 'x'
    ensures forall k :: i + LEAD <= k < i + n ==> IsNameChar(s[k])
    ensures forall j :: i < j < i + n ==> !StartsAt(d, words, s, j)
  {
    var t := s[i..i+n];
    assert s[i..][..n] == t;
    PlaceholderChars(d, t);
    assert forall k :: 0 <= k < n ==> t[k] == s[i+k];
    forall j | i < j < i + n ensures !StartsAt(d, words, s, j) {
      assert t[j-i..] == s[j..i+n] <= s[j..];
      NoneInside(d, t, j - i, s[j..], LengthAt(d, words, s, j));
    }
  }

  lemma StartsApart(d: Dialect, words: Words, s: string)
    ensures Apart(s, Starts(d, words, s))
  {
    forall i | i in Starts(d, words, s)
      ensures i + LEAD <= |s| && s[i] == 'x' && forall j :: i < j < i + LEAD ==> j !in Starts(d, words, s)
    {
      StartsIs(d, words, s, i, LengthAt(d, words, s, i));
    }
  }

  lemma {:induction false} KeepsUpTo(form: string, s: string, starts: set<nat>, i: nat, j: nat)
    requires i <= j <= |s| && forall k :: i <= k < j ==> k !in starts
    ensures Replaced(form, s, starts, i) == s[i..j] + Replaced(form, s, starts, j)
    decreases j - i
  {
    var rest := Replaced(form, s, starts, j);
    if i == j {
      assert s[i..j] + rest == rest;
    } else {
      KeepsUpTo(form, s, starts, i + 1, j);
      assert s[i..j] == [s[i]] + s[i+1..j];
      Associative([s[i]], s[i+1..j], rest);
    }
  }

  lemma RewriteMatched(d: Dialect, words: Words, after: bool, s: string, i: nat, n: nat)
    requires i < |s| && n == MatchLength(d, words, after, s[i..]) && n > LEAD && i + n <= |s|
    ensures Rewrite(d, words, after, s[i..]) ==
            CANONICAL + (s[i+LEAD..i+n] + Rewrite(d, words, true, s[i+n..]))
  {
    assert s[i..][n..] == s[i+n..] && s[i..][LEAD..n] == s[i+LEAD..i+n];
    Associative(CANONICAL, s[i+LEAD..i+n], Rewrite(d, words, true, s[i+n..]));
  }

  lemma MatchedAt(d: Dialect, words: Words, s: string, i: nat, n: nat)
    requires AgreesOnAscii(words) && i < |s| && n == LengthAt(d, words, s, i) && n > 0
    ensures LEAD < n && i + n <= |s|
    ensures RewriteAt(d, words, s, i) == CANONICAL + (s[i+LEAD..i+n] + RewriteAt(d, words, s, i + n))
  {
    StartsIs(d, words, s, i, n);
    assert IsNameChar(s[i+n-1]);
    RewriteMatched(d, words, AfterWordAt(words, false, s, i), s, i, n);
  }

  lemma KeptAt(d: Dialect, words: Words, s: string, i: nat)
    requires i < |s| && LengthAt(d, words, s, i) == 0
    ensures RewriteAt(d, words, s, i) == [s[i]] + RewriteAt(d, words, s, i + 1)
  {
    assert s[i..][1..] == s[i+1..];
    RewriteStep(d, words, AfterWordAt(words, false, s, i), s[i..]);
  }

  lemma ReplacedStart(form: string, s: string, starts: set<nat>, i: nat, n: nat)
    requires i in starts && LEAD < n && i + n <= |s| && forall j :: i < j < i + n ==> j !in starts
    ensures Replaced(form, s, starts, i) == form + (s[i+LEAD..i+n] + Replaced(form, s, starts, i + n))
  {
    KeepsUpTo(form, s, starts, i + LEAD, i + n);
  }

  lemma StartsInside(d: Dialect, words: Words, s: string, i: nat, n: nat)
    requires i < |s| && n == LengthAt(d, words, s, i) && n > 0
    ensures i in Starts(d, words, s) && forall j :: i < j < i + n ==> j !in Starts(d, words, s)
  {
    StartsIs(d, words, s, i, n);
  }

  /** Rewriting a whole text is replacing the fixed parts where placeholders start. */
  lemma {:induction false} RewriteReplaces(d: Dialect, words: Words, s: string, i: nat)
    requires AgreesOnAscii(words) && i <= |s|
    ensures RewriteAt(d, words, s, i) == Replaced(CANONICAL, s, Starts(d, words, s), i)
    decreases |s| - i
  {
    if i < |s| {
      var n := LengthAt(d, words, s, i);
      if n > 0 {
        MatchedAt(d, words, s, i, n);
        RewriteReplaces(d, words, s, i + n);
        StartsInside(d, words, s, i, n);
        ReplacedStart(CANONICAL, s, Starts(d, words, s), i, n);
      } else {
        KeptAt(d, words, s, i);
        RewriteReplaces(d, words, s, i + 1);
      }
    }
  }

  /** Different starts give different texts: at the first difference one has an x and the other has not. */
  lemma {:induction false} ReplacedTellsStarts(form: string, s: string, a: set<nat>, b: set<nat>, i: nat)
    requires form != "" && form[0] != 'x' && Apart(s, a) && Apart(s, b) && i <= |s|
    requires Replaced(form, s, a, i) == Replaced(form, s, b, i)
    ensures forall j :: j >= i ==> (j in a <==> j in b)
    decreases |s| - i
  {
    if i < |s| {
      var x, y := Replaced(form, s, a, i), Replaced(form, s, b, i);
      assert i in a <==> x[0] == form[0] && s[i] == 'x';
      assert i in b <==> y[0] == form[0] && s[i] == 'x';
      if i in a {
        TailOf(form, Replaced(form, s, a, i + LEAD), Replaced(form, s, b, i + LEAD));
        ReplacedTellsStarts(form, s, a, b, i + LEAD);
      } else {
        TailOf([s[i]], Replaced(form, s, a, i + 1), Replaced(form, s, b, i + 1));
        ReplacedTellsStarts(form, s, a, b, i + 1);
      }
    }
  }

  lemma TailOf<T>(p: seq<T>, a: seq<T>, b: seq<T>)
    requires p + a == p + b
    ensures a == b
  {
    assert a == (p + a)[|p|..] && b == (p + b)[|p|..];
  }

  // ----- Pieces -----

  lemma {:induction false} ReplacedLeft(form: string, a: string, b: string, left: set<nat>, all: set<nat>, i: nat)
    requires Apart(a, left) && i <= |a| && forall j :: j < |a| ==> (j in all <==> j in left)
    ensures Replaced(form, a + b, all, i) == Replaced(form, a, left, i) + Replaced(form, a + b, all, |a|)
    decreases |a| - i
  {
    var rest := Replaced(form, a + b, all, |a|);
    if i == |a| {
      AddNothing(rest);
    } else if i in left {
      ReplacedLeft(form, a, b, left, all, i + LEAD);
      Associative(form, Replaced(form, a, left, i + LEAD), rest);
    } else {
      ReplacedLeft(form, a, b, left, all, i + 1);
      Associative([a[i]], Replaced(form, a, left, i + 1), rest);
    }
  }

  /** Two texts are replaced alike from two positions on if they are from the next ones on. */
  lemma AlikeBefore(form: string, s: string, all: set<nat>, k: nat, b: string, right: set<nat>, i: nat)
    requires i < |b| && k < |s| && |s| - k == |b| - i && s[k] == b[i] && (i in right <==> k in all)
    requires var n := if i in right && i + LEAD <= |b| then LEAD else 1;
             Replaced(form, s, all, k + n) == Replaced(form, b, right, i + n)
    ensures Replaced(form, s, all, k) == Replaced(form, b, right, i)
  {
  }

  lemma {:induction false} ReplacedRight(form: string, s: string, all: set<nat>, k: nat, b: string,
                                         right: set<nat>, i: nat)
    requires i <= |b| && k <= |s| && s[k..] == b[i..]
    requires forall j: nat :: i <= j < |b| ==> (j in right <==> j + (k - i) in all)
    ensures Replaced(form, s, all, k) == Replaced(form, b, right, i)
    decreases |b| - i
  {
    assert |s| - k == |s[k..]| && |b| - i == |b[i..]|;
    if i < |b| {
      var n := if i in right && i + LEAD <= |b| then LEAD else 1;
      assert s[k] == s[k..][0] && b[i] == b[i..][0];
      assert s[k+n..] == s[k..][n..] && b[i+n..] == b[i..][n..];
      ReplacedRight(form, s, all, k + n, b, right, i + n);
      AlikeBefore(form, s, all, k, b, right, i);
    }
  }

  lemma MovedIs(s: set<nat>, n: nat, j: nat)
    ensures n + j in Moved(s, n) <==> j in s
  {
  }

  lemma MovedFrom(s: set<nat>, n: nat)
    ensures forall i :: i in Moved(s, n) ==> i >= n && i - n in s
  {
  }

  lemma BothApart(a: string, b: string, left: set<nat>, right: set<nat>)
    requires Apart(a, left) && Apart(b, right)
    ensures Apart(a + b, left + Moved(right, |a|))
  {
    MovedFrom(right, |a|);
  }

  lemma Drop<T>(a: seq<T>, b: seq<T>)
    ensures (a + b)[|a|..] == b
  {
  }

  lemma JoinReplaced(form: string, a: string, b: string, left: set<nat>, right: set<nat>, all: set<nat>)
    requires Apart(a, left)
    requires forall j :: j < |a| ==> (j in all <==> j in left)
    requires forall j: nat :: j in right <==> |a| + j in all
    ensures Replaced(form, a + b, all, 0) == Replaced(form, a, left, 0) + Replaced(form, b, right, 0)
  {
    Drop(a, b);
    ReplacedLeft(form, a, b, left, all, 0);
    ReplacedRight(form, a + b, all, |a|, b, right, 0);
  }

  lemma BothStarts(a: string, left: set<nat>, right: set<nat>)
    requires Apart(a, left)
    ensures var all := left + Moved(right, |a|);
            && (forall j :: j < |a| ==> (j in all <==> j in left))
            && (forall j: nat :: j in right <==> |a| + j in all)
  {
    MovedFrom(right, |a|);
    forall j: nat ensures j in right <==> |a| + j in left + Moved(right, |a|) {
      MovedIs(right, |a|, j);
    }
  }

  lemma SplitReplaced(form: string, a: string, b: string, left: set<nat>, right: set<nat>)
    requires Apart(a, left) && Apart(b, right)
    ensures Replaced(form, a + b, left + Moved(right, |a|), 0) ==
            Replaced(form, a, left, 0) + Replaced(form, b, right, 0)
  {
    BothStarts(a, left, right);
    JoinReplaced(form, a, b, left, right, left + Moved(right, |a|));
  }

  lemma {:induction false} PiecesReplaced(d: Dialect, words: Words, pieces: seq<string>)
    requires AgreesOnAscii(words)
    ensures Concat(RewritePieces(d, words, pieces)) ==
            Replaced(CANONICAL, Concat(pieces), PieceStarts(d, words, pieces), 0)
    ensures Apart(Concat(pieces), PieceStarts(d, words, pieces))
  {
    if pieces != [] {
      var p, rest := pieces[0], pieces[1..];
      PiecesReplaced(d, words, rest);
      StartsApart(d, words, p);
      RewriteReplaces(d, words, p, 0);
      assert p[0..] == p;
      SplitReplaced(CANONICAL, p, Concat(rest), Starts(d, words, p), PieceStarts(d, words, rest));
      BothApart(p, Concat(rest), Starts(d, words, p), PieceStarts(d, words, rest));
      var each := RewritePieces(d, words, pieces);
      assert each[1..] == RewritePieces(d, words, rest);
    }
  }

  /** Pieces are rewritten as the whole exactly when the whole has the placeholders of the pieces:
      none is torn by a cut, made by joining, or no longer one. */
  lemma JoinedIff(d: Dialect, words: Words, pieces: seq<string>)
    requires AgreesOnAscii(words)
    ensures Concat(RewritePieces(d, words, pieces)) == RewriteString(d, words, Concat(pieces)) <==>
            PieceStarts(d, words, pieces) == Starts(d, words, Concat(pieces))
  {
    var all := Concat(pieces);
    PiecesReplaced(d, words, pieces);
    StartsApart(d, words, all);
    RewriteReplaces(d, words, all, 0);
    assert all[0..] == all;
    if Concat(RewritePieces(d, words, pieces)) == RewriteString(d, words, all) {
      ReplacedTellsStarts(CANONICAL, all, PieceStarts(d, words, pieces), Starts(d, words, all), 0);
    }
  }

  // ----- One placeholder cut in two -----

  lemma PrefixAccepted(d: Dialect, t: string, k: nat)
    requires IsPlaceholder(d, t) && 0 < k < |t|
    ensures IsPlaceholder(d, t[..k]) <==> d == Bolt && k > LEAD
  {
    NameChars(d, t[..4], t[LEAD..]);
    if k > LEAD {
      assert t[..k][..4] == t[..4] && t[..k][4..LEAD] == t[4..LEAD];
      assert t[..k][LEAD..] == t[LEAD..][..k-LEAD];
      assert |t[..k][LEAD..]| < |t[LEAD..]|;
    }
  }

  lemma PlaceholderStarts(d: Dialect, words: Words, t: string)
    requires AgreesOnAscii(words) && IsPlaceholder(d, t)
    ensures Starts(d, words, t) == {0} && RewriteString(d, words, t) == CANONICAL + t[LEAD..]
  {
    assert t[..|t|] == t && t[0..] == t;
    MatchIsUnique(d, words, false, t, |t|);
    StartsIs(d, words, t, 0, |t|);
    RewriteMatched(d, words, false, t, 0, |t|);
    AddNothing(t[LEAD..]);
  }

  lemma NoStartAt(d: Dialect, words: Words, t: string, i: nat, s: string, j: nat)
    requires IsPlaceholder(d, t) && 0 < i < |t| && j < |s| && t[i..] == s[j..]
    ensures !StartsAt(d, words, s, j)
  {
    NoneInside(d, t, i, s[j..], LengthAt(d, words, s, j));
  }

  /** The second piece has no placeholder of its own. */
  lemma SuffixStarts(d: Dialect, words: Words, t: string, k: nat)
    requires IsPlaceholder(d, t) && 0 < k < |t|
    ensures Starts(d, words, t[k..]) == {}
  {
    forall j: nat | j < |t[k..]| ensures !StartsAt(d, words, t[k..], j) {
      assert t[k..][j..] == t[k+j..];
      NoStartAt(d, words, t, k + j, t[k..], j);
    }
  }

  lemma PrefixStarts(d: Dialect, words: Words, t: string, k: nat)
    requires AgreesOnAscii(words) && IsPlaceholder(d, t) && 0 < k < |t|
    ensures Starts(d, words, t[..k]) == if d == Bolt && k > LEAD then {0} else {}
  {
    PrefixAccepted(d, t, k);
    if d == Bolt && k > LEAD {
      PlaceholderStarts(d, words, t[..k]);
    } else {
      forall j: nat | j < k ensures !StartsAt(d, words, t[..k], j) {
        PrefixNoStart(d, words, t, k, j);
      }
    }
  }

  lemma NoPrefix(d: Dialect, t: string, k: nat)
    requires IsPlaceholder(d, t) && k < |t| && !(d == Bolt && k > LEAD)
    ensures forall m :: 0 <= m <= k ==> !IsPlaceholder(d, t[..m])
  {
    forall m | 0 < m <= k ensures !IsPlaceholder(d, t[..m]) { PrefixAccepted(d, t, m); }
  }

  lemma PrefixNoStart(d: Dialect, words: Words, t: string, k: nat, j: nat)
    requires IsPlaceholder(d, t) && j < k < |t| && !(d == Bolt && k > LEAD)
    ensures !StartsAt(d, words, t[..k], j)
  {
    var m := LengthAt(d, words, t[..k], j);
    assert t[..k][j..][..m] == t[j..][..m];
    if j > 0 {
      NoneInside(d, t, j, t[j..], m);
    } else {
      NoPrefix(d, t, k);
      assert t[0..] == t;
    }
  }

  lemma CutStarts(d: Dialect, words: Words, t: string, k: nat)
    requires AgreesOnAscii(words) && IsPlaceholder(d, t) && 0 < k < |t|
    ensures PieceStarts(d, words, [t[..k], t[k..]]) == if d == Bolt && k > LEAD then {0} else {}
  {
    PrefixStarts(d, words, t, k);
    SuffixStarts(d, words, t, k);
    TwoPieceStarts(d, words, t[..k], t[k..]);
    MovedFrom({}, k);
  }

  lemma NothingReplaced(form: string, s: string)
    ensures Replaced(form, s, {}, 0) == s
  {
    KeepsUpTo(form, s, {}, 0, |s|);
    AddNothing(s);
  }

  /** Cut inside its variable's name a Bolt placeholder is still rewritten as the whole; cut anywhere
      else, and a SlackOnly one wherever it is cut, it is sent as it is. */
  lemma CutPlaceholder(d: Dialect, words: Words, t: string, k: nat)
    requires AgreesOnAscii(words) && IsPlaceholder(d, t) && 0 < k < |t|
    ensures RewriteString(d, words, t) == CANONICAL + t[LEAD..]
    ensures Concat(RewritePieces(d, words, [t[..k], t[k..]])) ==
            if d == Bolt && k > LEAD then RewriteString(d, words, t) else t
  {
    var pieces := [t[..k], t[k..]];
    PlaceholderStarts(d, words, t);
    CutStarts(d, words, t, k);
    TwoPieces(t[..k], t[k..]);
    assert t[..k] + t[k..] == t;
    PiecesReplaced(d, words, pieces);
    if d == Bolt && k > LEAD {
      JoinedIff(d, words, pieces);
    } else {
      NothingReplaced(CANONICAL, t);
    }
  }

  lemma TwoPieces<T>(a: seq<T>, b: seq<T>)
    ensures Concat([a, b]) == a + b
  {
    assert [a, b][1..] == [b] && [b][1..] == [];
    assert Concat([b]) == b + Concat<T>([]);
    AddNothing(b);
  }

  lemma TwoPieceStarts(d: Dialect, words: Words, a: string, b: string)
    ensures PieceStarts(d, words, [a, b]) == Starts(d, words, a) + Moved(Starts(d, words, b), |a|)
  {
    assert [a, b][1..] == [b] && [b][1..] == [];
    assert Moved({}, |b|) == {};
    assert PieceStarts(d, words, [b]) == Starts(d, words, b) + Moved(PieceStarts(d, words, []), |b|);
  }
}

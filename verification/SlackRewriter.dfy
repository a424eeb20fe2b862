/** The preload that rewrites Slack placeholders in outgoing HTTP requests. */
module SlackRewriter {
  import opened Text
  import opened Utf8
  import opened Placeholders
  import opened Boundaries

  function RewriteText(s: string): string
  {
    RewriteString(Bolt, IsAsciiWord, s)
  }

  /** rewriteString: the pattern runs only where its fixed text occurs. */
  method RewriteStringFast(s: string) returns (r: string)
    ensures r == RewriteText(s)
  {
    if !Has(s, FastPath(Bolt)) {
      FastPathIsExact(Bolt, IsAsciiWord, false, s);
      return s;
    }
    r := RewriteText(s);
  }

  lemma RewriteTextTwice(s: string)
    ensures RewriteText(RewriteText(s)) == RewriteText(s)
  {
    RewriteIsIdempotent(Bolt, IsAsciiWord, s);
  }

  // ----- Headers -----

  /** An element of a header: text, or a value that is left alone. */
  datatype Plain = Str(text: string) | Opaque(id: int)

  datatype HeaderValue = One(value: Plain) | Many(values: array<Plain>)

  class Headers {
    var entries: map<string, HeaderValue>

    constructor ()
      ensures entries == map[]
    {
      entries := map[];
    }

    ghost function Arrays(): set<array<Plain>>
      reads this
    {
      ArraysOf(entries)
    }
  }

  ghost function ArraysOf(entries: map<string, HeaderValue>): set<array<Plain>>
  {
    set k | k in entries && entries[k].Many? :: entries[k].values
  }

  function RewritePlain(v: Plain): Plain
  {
    match v
    case Str(s) => Str(RewriteText(s))
    case Opaque(_) => v
  }

  /** Text with every placeholder replaced and none left; any other value is the old one. */
  predicate IsRewritten(v: Plain, r: Plain)
  {
    match v
    case Opaque(_) => r == v
    case Str(s) =>
      r.Str? && r.text == Rewrite(Bolt, IsAsciiWord, false, s) && Clean(Bolt, IsAsciiWord, false, r.text)
  }

  lemma PlainIsRewritten(v: Plain)
    ensures IsRewritten(v, RewritePlain(v))
  {
    if v.Str? { RewriteIsClean(Bolt, IsAsciiWord, false, v.text); }
  }

  /** An array stays where it is; what it holds is stated beside this. */
  predicate IsRewrittenEntry(v: HeaderValue, r: HeaderValue)
  {
    match v
    case One(p) => r.One? && IsRewritten(p, r.value)
    case Many(_) => r == v
  }

  lemma EntryIsRewritten(v: HeaderValue)
    ensures IsRewrittenEntry(v, RewriteEntry(v))
  {
    if v.One? { PlainIsRewritten(v.value); }
  }

  predicate AllRewritten(vs: seq<Plain>, rs: seq<Plain>)
  {
    |rs| == |vs| && forall i :: 0 <= i < |vs| ==> IsRewritten(vs[i], rs[i])
  }

  lemma EachIsRewritten(vs: seq<Plain>)
    ensures AllRewritten(vs, RewriteEach(vs))
  {
    forall i | 0 <= i < |vs| ensures IsRewritten(vs[i], RewriteEach(vs)[i]) { PlainIsRewritten(vs[i]); }
  }

  function RewriteEach(vs: seq<Plain>): (r: seq<Plain>)
    ensures |r| == |vs| && forall i :: 0 <= i < |vs| ==> r[i] == RewritePlain(vs[i])
  {
    if vs == [] then [] else [RewritePlain(vs[0])] + RewriteEach(vs[1..])
  }

  function RewriteEntry(v: HeaderValue): HeaderValue
  {
    match v
    case One(p) => One(RewritePlain(p))
    case Many(_) => v
  }

  lemma RewritePlainTwice(v: Plain)
    ensures RewritePlain(RewritePlain(v)) == RewritePlain(v)
  {
    if v.Str? { RewriteTextTwice(v.text); }
  }

  lemma {:induction false} RewriteEachTwice(vs: seq<Plain>)
    ensures RewriteEach(RewriteEach(vs)) == RewriteEach(vs)
  {
    forall i | 0 <= i < |vs| ensures RewritePlain(RewritePlain(vs[i])) == RewritePlain(vs[i]) {
      RewritePlainTwice(vs[i]);
    }
  }

  method RewriteValue(v: Plain) returns (r: Plain)
    ensures r == RewritePlain(v)
  {
    match v {
      case Str(s) =>
        var t := RewriteStringFast(s);
        r := Str(t);
      case Opaque(_) => r := v;
    }
  }

  /** The values of one header; done says that another header with the same array went before. */
  method RewriteArray(a: array<Plain>, ghost was: seq<Plain>, ghost done: bool)
    requires a[..] == if done then RewriteEach(was) else was
    modifies a
    ensures a[..] == RewriteEach(was)
  {
    for j := 0 to a.Length
      invariant |was| == a.Length
      invariant forall k :: 0 <= k < j ==> a[k] == RewritePlain(was[k])
      invariant forall k :: j <= k < a.Length ==> a[k] == if done then RewritePlain(was[k]) else was[k]
    {
      RewritePlainTwice(was[j]);
      a[j] := RewriteValue(a[j]);
    }
  }

  /** Each array holds what it held before, rewritten if it is done. */
  ghost predicate Holds(was: map<array<Plain>, seq<Plain>>, done: set<array<Plain>>)
    reads was.Keys
  {
    forall a :: a in was ==> a[..] == if a in done then RewriteEach(was[a]) else was[a]
  }

  method RewriteHeader(headers: Headers, k: string, ghost was: map<array<Plain>, seq<Plain>>,
                       ghost done: set<array<Plain>>)
    returns (ghost done': set<array<Plain>>)
    requires k in headers.entries && headers.Arrays() == was.Keys
    requires Holds(was, done)
    modifies headers, was.Keys
    ensures headers.entries == old(headers.entries)[k := RewriteEntry(old(headers.entries[k]))]
    ensures headers.Arrays() == was.Keys
    ensures done' == match old(headers.entries[k]) case Many(a) => done + {a} case One(_) => done
    ensures Holds(was, done')
  {
    ghost var entries0 := headers.entries;
    match headers.entries[k] {
      case Many(a) =>
        RewriteArray(a, was[a], a in done);
        done' := done + {a};
        assert entries0 == entries0[k := entries0[k]];
      case One(p) =>
        var r := RewriteValue(p);
        headers.entries := headers.entries[k := One(r)];
        done' := done;
        SameArrays(entries0, k, One(r));
    }
  }

  lemma SameArrays(entries: map<string, HeaderValue>, k: string, v: HeaderValue)
    requires k in entries && entries[k].One? && v.One?
    ensures ArraysOf(entries[k := v]) == ArraysOf(entries)
  {
    var after := entries[k := v];
    forall a | a in ArraysOf(entries) ensures a in ArraysOf(after) {
      var j :| j in entries && entries[j].Many? && entries[j].values == a;
      assert after[j].Many? && after[j].values == a;
    }
  }

  /** Every header rewritten in place, whatever order the keys come in and whichever arrays they share:
      no text under a key or in an array has a placeholder left. */
  method RewriteHeaders(headers: Headers, keys: seq<string>, ghost was: map<array<Plain>, seq<Plain>>)
    requires forall k :: k in keys <==> k in headers.entries
    requires forall i, j :: 0 <= i < j < |keys| ==> keys[i] != keys[j]
    requires headers.Arrays() == was.Keys && Holds(was, {})
    modifies headers, was.Keys
    ensures headers.entries.Keys == old(headers.entries.Keys)
    ensures forall k :: k in headers.entries ==> IsRewrittenEntry(old(headers.entries)[k], headers.entries[k])
    ensures headers.Arrays() == was.Keys && Holds(was, was.Keys)
    ensures forall a :: a in was ==> AllRewritten(was[a], a[..])
  {
    ghost var entries0 := headers.entries;
    ghost var done: set<array<Plain>>, seen: set<string> := {}, {};
    for i := 0 to |keys|
      invariant forall j :: 0 <= j < |keys| ==> (keys[j] in seen <==> j < i)
      invariant EntriesDone(entries0, headers.entries, seen, done) && headers.Arrays() == was.Keys
      invariant Holds(was, done)
    {
      ghost var entries, done0 := headers.entries, done;
      done := RewriteHeader(headers, keys[i], was, done);
      OneMoreDone(entries0, entries, seen, done0, keys[i]);
      seen := seen + {keys[i]};
    }
    AllDone(entries0, headers.entries, seen, done, keys);
    EntriesAreRewritten(entries0, headers.entries);
    forall a | a in was ensures AllRewritten(was[a], a[..]) { EachIsRewritten(was[a]); }
  }

  lemma EntriesAreRewritten(entries0: map<string, HeaderValue>, entries: map<string, HeaderValue>)
    requires entries.Keys == entries0.Keys && forall k :: k in entries0 ==> entries[k] == RewriteEntry(entries0[k])
    ensures forall k :: k in entries0 ==> IsRewrittenEntry(entries0[k], entries[k])
  {
    forall k | k in entries0 ensures IsRewrittenEntry(entries0[k], entries[k]) { EntryIsRewritten(entries0[k]); }
  }

  /** The entries seen are rewritten and their arrays done, the others as they were. */
  ghost predicate EntriesDone(entries0: map<string, HeaderValue>, entries: map<string, HeaderValue>, seen: set<string>,
                              done: set<array<Plain>>)
  {
    entries.Keys == entries0.Keys &&
    (forall k :: k in entries0 ==> entries[k] == if k in seen then RewriteEntry(entries0[k]) else entries0[k]) &&
    (forall k :: k in entries0 && k in seen && entries0[k].Many? ==> entries0[k].values in done)
  }

  lemma OneMoreDone(entries0: map<string, HeaderValue>, entries: map<string, HeaderValue>, seen: set<string>,
                    done: set<array<Plain>>, k: string)
    requires EntriesDone(entries0, entries, seen, done) && k in entries0 && k !in seen
    ensures EntriesDone(entries0, entries[k := RewriteEntry(entries[k])], seen + {k},
                        match entries[k] case Many(a) => done + {a} case One(_) => done)
  {
  }

  lemma AllDone(entries0: map<string, HeaderValue>, entries: map<string, HeaderValue>, seen: set<string>,
                done: set<array<Plain>>, keys: seq<string>)
    requires EntriesDone(entries0, entries, seen, done)
    requires forall k :: k in entries0 ==> k in keys
    requires forall j :: 0 <= j < |keys| ==> keys[j] in seen
    ensures forall k :: k in entries0 ==> entries[k] == RewriteEntry(entries0[k])
    ensures ArraysOf(entries0) <= done
  {
  }

  // ----- Bodies -----

  datatype Chunk = Text(text: string, encoding: string) | Bytes(bytes: seq<byte>) | Other(id: int)

  /** What the platform supplies: sizes of encoded text, and decoding with replacement characters. */
  datatype Platform = Platform(byteLength: (string, string) -> nat, decode: seq<byte> -> string)

  /** It sizes UTF-8 text as its bytes, and decodes well-formed UTF-8 exactly. */
  ghost predicate Conforms(p: Platform)
  {
    (forall s :: p.byteLength(s, "utf8") == |Encode(s)|) &&
    (forall b :: Decode(b).Some? ==> p.decode(b) == Decode(b).value)
  }

  function Size(p: Platform, c: Chunk): nat
  {
    match c
    case Text(s, e) => p.byteLength(s, e)
    case Bytes(b) => |b|
    case Other(_) => 0
  }

  function RewriteChunk(c: Chunk): Chunk
  {
    match c
    case Text(s, e) => Text(RewriteText(s), e)
    case Bytes(b) => Bytes(RewriteEncoded(Bolt, IsAsciiWord, b))
    case Other(_) => c
  }

  /** The Content-Length header: not there, not a finite number, or a number. */
  datatype Length = Missing | Unusable | Length(n: real)

  function Shifted(length: Length, delta: int): Length
  {
    match length
    case Length(n) => Length(n + delta as real)
    case _ => length
  }

  class ClientRequest {
    var headersSent: bool
    var contentLength: Length
    var written: seq<Chunk>

    constructor ()
      ensures !headersSent && contentLength == Missing && written == []
    {
      headersSent, contentLength, written := false, Missing, [];
    }

    method AdjustContentLength(before: nat, after: nat)
      modifies this`contentLength
      ensures contentLength == if headersSent then old(contentLength) else Shifted(old(contentLength), after - before)
    {
      var delta: int := after - before;
      if delta == 0 { return; }
      if headersSent { return; }
      match contentLength {
        case Missing => return;
        case Unusable => return;
        case Length(n) => contentLength := Length(n + delta as real);
      }
    }

    method RewriteBodyChunk(p: Platform, chunk: Chunk) returns (r: Chunk)
      requires Conforms(p)
      modifies this`contentLength
      ensures r == RewriteChunk(chunk)
      ensures contentLength ==
              if headersSent then old(contentLength) else Shifted(old(contentLength), Size(p, r) - Size(p, chunk))
    {
      match chunk {
        case Text(s, encoding) =>
          var rewritten := RewriteStringFast(s);
          if rewritten != s {
            AdjustContentLength(p.byteLength(s, encoding), p.byteLength(rewritten, encoding));
          }
          return Text(rewritten, encoding);
        case Bytes(b) =>
          var out := RewriteBuffer(p, b);
          if out != b { AdjustContentLength(|b|, |out|); }
          return Bytes(out);
        case Other(_) => return chunk;
      }
    }

    /** The wrapped write: the first one sends the headers. */
    method Write(p: Platform, chunk: Chunk)
      requires Conforms(p)
      modifies this
      ensures State() == Wrapped(p, old(State()), Action.Write(chunk))
    {
      var c := RewriteBodyChunk(p, chunk);
      headersSent := true;
      written := written + [c];
    }

    function State(): Request
      reads this
    {
      Request(headersSent, contentLength, written)
    }
  }

  /** Decoding lost nothing exactly when the bytes are well-formed. */
  lemma DecodedExactlyIff(p: Platform, b: seq<byte>)
    requires Conforms(p)
    ensures Encode(p.decode(b)) == b <==> Decode(b).Some?
    ensures Decode(b).Some? ==> Decode(b) == Some(p.decode(b))
  {
    DecodeEncode(p.decode(b));
    if Decode(b).Some? { EncodeDecode(b); }
  }

  lemma BufferRewritten(p: Platform, b: seq<byte>)
    requires Conforms(p)
    ensures var s := p.decode(b);
            RewriteEncoded(Bolt, IsAsciiWord, b) == if Encode(s) == b then Encode(RewriteText(s)) else b
  {
    DecodedExactlyIff(p, b);
  }

  /** The bytes of a buffer, rewritten when the test text occurs and decoding loses nothing. */
  method RewriteBuffer(p: Platform, b: seq<byte>) returns (r: seq<byte>)
    requires Conforms(p)
    ensures r == RewriteEncoded(Bolt, IsAsciiWord, b)
  {
    if !Has(b, Encode(FastPath(Bolt))) {
      SkippedBytes(Bolt, IsAsciiWord, b);
      return b;
    }
    var s := p.decode(b);
    BufferRewritten(p, b);
    if !Has(s, FastPath(Bolt)) {
      FastPathIsExact(Bolt, IsAsciiWord, false, s);
      return b;
    }
    if Encode(s) != b { return b; }
    var rs := RewriteStringFast(s);
    if rs == s { return b; }
    r := Encode(rs);
  }

  // ----- Whole requests -----

  datatype Request = Request(sent: bool, length: Length, body: seq<Chunk>)

  /** What a client does with a request; setting a header is refused once the headers are sent. */
  datatype Action = SetLength(length: Length) | Flush | Write(chunk: Chunk)

  function Bare(r: Request, a: Action): Request
  {
    match a
    case SetLength(length) => if r.sent then r else r.(length := length)
    case Flush => r.(sent := true)
    case Write(c) => Request(true, r.length, r.body + [c])
  }

  function Wrapped(p: Platform, r: Request, a: Action): Request
  {
    match a
    case Write(c) =>
      var out := RewriteChunk(c);
      var length := if r.sent then r.length else Shifted(r.length, Size(p, out) - Size(p, c));
      Request(true, length, r.body + [out])
    case _ => Bare(r, a)
  }

  const NEW := Request(false, Missing, [])

  function BareRun(actions: seq<Action>): Request
  {
    if actions == [] then NEW else Bare(BareRun(actions[..|actions|-1]), actions[|actions|-1])
  }

  function WrappedRun(p: Platform, actions: seq<Action>): Request
  {
    if actions == [] then NEW else Wrapped(p, WrappedRun(p, actions[..|actions|-1]), actions[|actions|-1])
  }

  function BodySize(p: Platform, body: seq<Chunk>): nat
  {
    if body == [] then 0 else BodySize(p, body[..|body|-1]) + Size(p, body[|body|-1])
  }

  lemma BodySizeAppend(p: Platform, body: seq<Chunk>, c: Chunk)
    ensures BodySize(p, body + [c]) == BodySize(p, body) + Size(p, c)
  {
    assert (body + [c])[..|body|] == body;
  }

  /** The chunks written once the headers were sent. */
  function LateChunks(actions: seq<Action>): seq<Chunk>
  {
    if actions == [] then []
    else
      var before, a := actions[..|actions|-1], actions[|actions|-1];
      LateChunks(before) + if a.Write? && BareRun(before).sent then [a.chunk] else []
  }

  /** The bytes that rewriting takes from chunks. */
  function Saved(p: Platform, chunks: seq<Chunk>): int
  {
    if chunks == [] then 0
    else
      var c := chunks[|chunks|-1];
      Saved(p, chunks[..|chunks|-1]) + Size(p, c) - Size(p, RewriteChunk(c))
  }

  lemma SavedAppend(p: Platform, chunks: seq<Chunk>, c: Chunk)
    ensures Saved(p, chunks + [c]) == Saved(p, chunks) + Size(p, c) - Size(p, RewriteChunk(c))
  {
    assert (chunks + [c])[..|chunks|] == chunks;
  }

  /** w is r with its body rewritten and a Content-Length that is late bytes too large for it. */
  predicate Tracks(p: Platform, r: Request, w: Request, late: int)
  {
    w.sent == r.sent && |w.body| == |r.body| &&
    (forall i :: 0 <= i < |r.body| ==> w.body[i] == RewriteChunk(r.body[i])) &&
    match r.length
    case Length(n) =>
      w.length.Length? &&
      w.length.n - BodySize(p, w.body) as real == n - BodySize(p, r.body) as real + late as real
    case _ => w.length == r.length
  }

  /** Before the headers are sent, nothing has been written. */
  lemma {:induction false} UnsentIsEmpty(actions: seq<Action>)
    ensures !BareRun(actions).sent ==> BareRun(actions).body == []
  {
    if actions != [] { UnsentIsEmpty(actions[..|actions|-1]); }
  }

  lemma WriteTracks(p: Platform, r: Request, w: Request, late: int, c: Chunk)
    requires Tracks(p, r, w, late)
    ensures Tracks(p, Bare(r, Write(c)), Wrapped(p, w, Write(c)),
                   if r.sent then late + Size(p, c) - Size(p, RewriteChunk(c)) else late)
  {
    BodySizeAppend(p, r.body, c);
    BodySizeAppend(p, w.body, RewriteChunk(c));
  }

  /** In every run the Content-Length is off by what rewriting takes from the late chunks. */
  lemma {:induction false} RunTracks(p: Platform, actions: seq<Action>)
    ensures Tracks(p, BareRun(actions), WrappedRun(p, actions), Saved(p, LateChunks(actions)))
    decreases |actions|
  {
    if actions != [] {
      var before, a := actions[..|actions|-1], actions[|actions|-1];
      RunTracks(p, before);
      UnsentIsEmpty(before);
      var r, w := BareRun(before), WrappedRun(p, before);
      var late := LateChunks(before);
      match a
      case Write(c) =>
        WriteTracks(p, r, w, Saved(p, late), c);
        if r.sent { SavedAppend(p, late, c); } else { assert late + [] == late; }
      case _ =>
        assert late + [] == late;
        LateOnlyWhenSent(before);
    }
  }

  lemma {:induction false} LateOnlyWhenSent(actions: seq<Action>)
    ensures !BareRun(actions).sent ==> LateChunks(actions) == []
  {
    if actions != [] { LateOnlyWhenSent(actions[..|actions|-1]); }
  }

  /** Bytes, or text written as UTF-8. */
  predicate InUtf8(c: Chunk)
  {
    c.Text? ==> c.encoding == "utf8"
  }

  lemma ChunkShrinks(p: Platform, c: Chunk)
    requires Conforms(p) && InUtf8(c)
    ensures Size(p, RewriteChunk(c)) <= Size(p, c)
    ensures Size(p, RewriteChunk(c)) == Size(p, c) <==> RewriteChunk(c) == c
  {
    match c
    case Text(s, _) =>
      BytesTaken(Bolt, IsAsciiWord, false, s);
      ChangedIff(Bolt, IsAsciiWord, false, s);
    case Bytes(b) =>
      if Decode(b).Some? {
        var s := Decode(b).value;
        EncodeDecode(b);
        BytesTaken(Bolt, IsAsciiWord, false, s);
        ChangedIff(Bolt, IsAsciiWord, false, s);
      }
    case Other(_) =>
  }

  lemma {:induction false} SavedNothing(p: Platform, chunks: seq<Chunk>)
    requires Conforms(p)
    requires forall c :: c in chunks ==> InUtf8(c)
    ensures Saved(p, chunks) >= 0
    ensures Saved(p, chunks) == 0 <==> forall c :: c in chunks ==> RewriteChunk(c) == c
    decreases |chunks|
  {
    if chunks != [] {
      var init, c := chunks[..|chunks|-1], chunks[|chunks|-1];
      assert chunks == init + [c];
      SavedNothing(p, init);
      ChunkShrinks(p, c);
    }
  }

  /** The Content-Length is the body's size. */
  predicate LengthFits(p: Platform, r: Request)
  {
    r.length == Length(BodySize(p, r.body) as real)
  }

  /** A fitting Content-Length still fits exactly when rewriting takes nothing from the late chunks, in any encoding. */
  lemma LengthKeptIff(p: Platform, actions: seq<Action>)
    requires LengthFits(p, BareRun(actions))
    ensures LengthFits(p, WrappedRun(p, actions)) <==> Saved(p, LateChunks(actions)) == 0
  {
    RunTracks(p, actions);
  }

  /** For bytes and UTF-8 text that means that no late chunk holds a placeholder. */
  lemma LengthKeptIffClean(p: Platform, actions: seq<Action>)
    requires Conforms(p) && LengthFits(p, BareRun(actions))
    requires forall c :: c in LateChunks(actions) ==> InUtf8(c)
    ensures LengthFits(p, WrappedRun(p, actions)) <==> forall c :: c in LateChunks(actions) ==> RewriteChunk(c) == c
  {
    LengthKeptIff(p, actions);
    SavedNothing(p, LateChunks(actions));
  }

  lemma PlaceholderChunk(p: Platform, t: string)
    requires Conforms(p) && IsPlaceholder(Bolt, t)
    ensures Size(p, RewriteChunk(Text(t, "utf8"))) == Size(p, Text(t, "utf8")) - 5
  {
    assert t[..|t|] == t && t[|t|..] == "";
    MatchIsUnique(Bolt, IsAsciiWord, false, t, |t|);
    assert Count(Bolt, IsAsciiWord, true, t[|t|..]) == 0;
    BytesTaken(Bolt, IsAsciiWord, false, t);
  }

  function ThreeActions(p: Platform, first: Chunk, late: Chunk): seq<Action>
  {
    [SetLength(Length((Size(p, first) + Size(p, late)) as real)), Write(first), Write(late)]
  }

  lemma RunOneMore(actions: seq<Action>, a: Action)
    ensures BareRun(actions + [a]) == Bare(BareRun(actions), a)
    ensures LateChunks(actions + [a]) ==
            LateChunks(actions) + if a.Write? && BareRun(actions).sent then [a.chunk] else []
  {
    assert (actions + [a])[..|actions|] == actions;
  }

  lemma ThreeByThree<T>(a: T, b: T, c: T)
    ensures [] + [a] == [a] && [a] + [b] == [a, b] && [a, b] + [c] == [a, b, c]
  {
  }

  lemma RunThree(a: Action, b: Action, c: Action)
    ensures BareRun([a]) == Bare(NEW, a) && BareRun([a, b]) == Bare(Bare(NEW, a), b)
    ensures BareRun([a, b, c]) == Bare(Bare(Bare(NEW, a), b), c)
  {
    ThreeByThree(a, b, c);
    RunOneMore([], a);
    RunOneMore([a], b);
    RunOneMore([a, b], c);
  }

  lemma LateOfThree(a: Action, first: Chunk, late: Chunk)
    requires a.SetLength?
    ensures LateChunks([a, Write(first), Write(late)]) == [late]
  {
    var b, c := Write(first), Write(late);
    ThreeByThree(a, b, c);
    RunThree(a, b, c);
    RunOneMore([], a);
    RunOneMore([a], b);
    RunOneMore([a, b], c);
    ThreeByThree(late, late, late);
  }

  lemma ThreeActionsRun(p: Platform, first: Chunk, late: Chunk)
    ensures var actions := ThreeActions(p, first, late);
            BareRun(actions) == Request(true, Length((Size(p, first) + Size(p, late)) as real), [first, late]) &&
            LateChunks(actions) == [late]
  {
    var actions := ThreeActions(p, first, late);
    RunThree(actions[0], actions[1], actions[2]);
    LateOfThree(actions[0], first, late);
    ThreeByThree(first, late, late);
  }

  lemma BodySizeOfTwo(p: Platform, a: Chunk, b: Chunk)
    ensures BodySize(p, [a, b]) == Size(p, a) + Size(p, b)
  {
    BodySizeAppend(p, [], a);
    BodySizeAppend(p, [a], b);
    assert [] + [a] == [a] && [a] + [b] == [a, b];
  }

  lemma SavedOne(p: Platform, c: Chunk)
    ensures Saved(p, [c]) == Size(p, c) - Size(p, RewriteChunk(c))
  {
    assert [c][..0] == [];
  }

  /** A second chunk that is a placeholder leaves a fitting Content-Length five too large. */
  lemma LatePlaceholderBreaksLength(p: Platform, first: Chunk, t: string)
    requires Conforms(p) && IsPlaceholder(Bolt, t)
    ensures var actions := ThreeActions(p, first, Text(t, "utf8"));
            LengthFits(p, BareRun(actions)) &&
            WrappedRun(p, actions).length == Length(BodySize(p, WrappedRun(p, actions).body) as real + 5.0)
  {
    var late := Text(t, "utf8");
    ThreeActionsRun(p, first, late);
    BodySizeOfTwo(p, first, late);
    SavedOne(p, late);
    PlaceholderChunk(p, t);
    RunTracks(p, ThreeActions(p, first, late));
  }

  /** Such chunks: any variable name behind either prefix. */
  lemma NamesMakePlaceholders(lead: string, name: string)
    requires lead in {"xoxb", "xapp"} && AcceptsName(Bolt, lead, name)
    ensures IsPlaceholder(Bolt, lead + MARK + name)
  {
    var t := lead + MARK + name;
    assert t[..4] == lead && t[4..LEAD] == MARK && t[LEAD..] == name;
  }

  // ----- What is sent as a whole -----

  /** The text that a chunk sends in UTF-8, unless it sends other bytes. */
  function TextOf(c: Chunk): Option<string>
  {
    match c
    case Text(s, e) => if e == "utf8" then Some(s) else None
    case Bytes(b) => Decode(b)
    case Other(_) => None
  }

  predicate Readable(body: seq<Chunk>)
  {
    forall c :: c in body ==> TextOf(c).Some?
  }

  function Texts(body: seq<Chunk>): (r: seq<string>)
    requires Readable(body)
    ensures |r| == |body| && forall i :: 0 <= i < |body| ==> TextOf(body[i]) == Some(r[i])
  {
    seq(|body|, i requires 0 <= i < |body| => TextOf(body[i]).value)
  }

  /** The bytes of the body. */
  function BytesOf(body: seq<Chunk>): seq<byte>
    requires Readable(body)
  {
    if body == [] then []
    else (if body[0].Bytes? then body[0].bytes else Encode(TextOf(body[0]).value)) + BytesOf(body[1..])
  }

  lemma {:induction false} BytesOfTexts(body: seq<Chunk>)
    requires Readable(body)
    ensures BytesOf(body) == Encode(Concat(Texts(body)))
  {
    if body != [] {
      BytesOfTexts(body[1..]);
      assert Texts(body)[1..] == Texts(body[1..]);
      EncodeConcat(Texts(body)[0], Concat(Texts(body[1..])));
      if body[0].Bytes? { EncodeDecode(body[0].bytes); }
    }
  }

  lemma RewrittenReads(c: Chunk)
    requires TextOf(c).Some?
    ensures TextOf(RewriteChunk(c)) == Some(RewriteText(TextOf(c).value))
  {
    if c.Bytes? { DecodeEncode(RewriteText(TextOf(c).value)); }
  }

  lemma RewrittenTexts(body: seq<Chunk>, rewritten: seq<Chunk>)
    requires Readable(body) && |rewritten| == |body|
    requires forall i :: 0 <= i < |body| ==> rewritten[i] == RewriteChunk(body[i])
    ensures Readable(rewritten) && Texts(rewritten) == RewritePieces(Bolt, IsAsciiWord, Texts(body))
  {
    forall i | 0 <= i < |body|
      ensures TextOf(rewritten[i]) == Some(RewriteText(Texts(body)[i]))
    {
      RewrittenReads(body[i]);
    }
  }

  lemma SameEncoding(a: string, b: string)
    ensures Encode(a) == Encode(b) <==> a == b
  {
    DecodeEncode(a);
    DecodeEncode(b);
  }

  lemma RewritingEncoded(s: string)
    ensures RewriteEncoded(Bolt, IsAsciiWord, Encode(s)) == Encode(RewriteText(s))
  {
    DecodeEncode(s);
  }

  /** In every run of UTF-8 chunks, the bytes sent are the rewriting of the bytes of the whole body
      exactly when that body has the placeholders of its chunks and no others. */
  lemma BodyRewrittenIff(p: Platform, actions: seq<Action>)
    requires Readable(BareRun(actions).body)
    ensures Readable(WrappedRun(p, actions).body)
    ensures var texts := Texts(BareRun(actions).body);
            BytesOf(WrappedRun(p, actions).body) ==
              RewriteEncoded(Bolt, IsAsciiWord, BytesOf(BareRun(actions).body)) <==>
            PieceStarts(Bolt, IsAsciiWord, texts) == Starts(Bolt, IsAsciiWord, Concat(texts))
  {
    var body, sent := BareRun(actions).body, WrappedRun(p, actions).body;
    RunTracks(p, actions);
    RewrittenTexts(body, sent);
    BytesOfTexts(body);
    BytesOfTexts(sent);
    RewritingEncoded(Concat(Texts(body)));
    SameEncoding(Concat(Texts(sent)), RewriteText(Concat(Texts(body))));
    JoinedIff(Bolt, IsAsciiWord, Texts(body));
  }
}

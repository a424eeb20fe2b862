/** The creation stream's output as bytes: which ways of cutting them into chunks are harmless. */
module StreamBytes {
  import opened Text
  import opened Utf8
  import opened Utf8Repair
  import opened CreateStream

  /** Each chunk read on its own. */
  function TextRead(chunks: seq<seq<byte>>): string
  {
    if chunks == [] then "" else Repaired(chunks[0]) + TextRead(chunks[1..])
  }

  /** Every chunk starts and ends between characters. */
  ghost predicate WholeCharacters(chunks: seq<seq<byte>>)
  {
    forall b :: b in chunks ==> Decode(b).Some?
  }

  lemma {:induction false} WholeRead(chunks: seq<seq<byte>>)
    requires WholeCharacters(chunks)
    ensures Encode(TextRead(chunks)) == Concat(chunks)
  {
    if chunks != [] {
      var b := chunks[0];
      assert b in chunks && forall c :: c in chunks[1..] ==> c in chunks;
      WholeRead(chunks[1..]);
      RepairedWhole(b);
      EncodeDecode(b);
      EncodeConcat(Repaired(b), TextRead(chunks[1..]));
    }
  }

  /** How many chunks start inside a character. */
  function Inside(chunks: seq<seq<byte>>): nat
  {
    if chunks == [] then 0 else (if StartsInside(chunks[0]) then 1 else 0) + Inside(chunks[1..])
  }

  /** Every chunk that starts inside a character makes the text read longer. */
  lemma {:induction false} ReadSize(chunks: seq<seq<byte>>)
    ensures |TextRead(chunks)| >= Leads(Concat(chunks)) + Inside(chunks)
  {
    if chunks != [] {
      ReadSize(chunks[1..]);
      RepairedSize(chunks[0]);
      LeadsConcat(chunks[0], Concat(chunks[1..]));
    }
  }

  lemma {:induction false} NoneInside(chunks: seq<seq<byte>>)
    requires Inside(chunks) == 0
    ensures !StartsInside(Concat(chunks))
  {
    if chunks != [] {
      NoneInside(chunks[1..]);
      if chunks[0] == [] { AddNothing(Concat(chunks[1..])); }
    }
  }

  lemma {:induction false} CutsBetween(chunks: seq<seq<byte>>)
    requires Decode(Concat(chunks)).Some? && Inside(chunks) == 0
    ensures WholeCharacters(chunks)
  {
    if chunks != [] {
      EncodeDecode(Concat(chunks));
      NoneInside(chunks[1..]);
      CutBetween(Decode(Concat(chunks)).value, chunks[0], Concat(chunks[1..]));
      CutsBetween(chunks[1..]);
      assert chunks == [chunks[0]] + chunks[1..];
    }
  }

  /** The chunks of a text are read as that text if and only if none is cut inside a character. */
  lemma ReadWholeIff(chunks: seq<seq<byte>>, text: string)
    requires Concat(chunks) == Encode(text)
    ensures TextRead(chunks) == text <==> WholeCharacters(chunks)
  {
    DecodeEncode(text);
    if WholeCharacters(chunks) {
      WholeRead(chunks);
      DecodeEncode(TextRead(chunks));
    }
    if TextRead(chunks) == text {
      EncodedLeads(text);
      ReadSize(chunks);
      CutsBetween(chunks);
    }
  }

  /** The events of chunks that arrive at the given times. */
  function EventsOf(chunks: seq<seq<byte>>, times: seq<int>): (r: seq<Event>)
    requires |chunks| == |times|
    ensures |r| == |chunks| && forall e :: e in r ==> e.ChunkEvent?
  {
    if chunks == [] then []
    else
      var n := |chunks| - 1;
      EventsOf(chunks[..n], times[..n]) + [ChunkEvent(Repaired(chunks[n]), times[n])]
  }

  lemma {:induction false} TextReadLast(chunks: seq<seq<byte>>, b: seq<byte>)
    ensures TextRead(chunks + [b]) == TextRead(chunks) + Repaired(b)
  {
    if chunks == [] {
      assert ([] + [b])[1..] == [];
    } else {
      assert (chunks + [b])[1..] == chunks[1..] + [b];
      TextReadLast(chunks[1..], b);
    }
  }

  lemma {:induction false} TextOfEvents(chunks: seq<seq<byte>>, times: seq<int>)
    requires |chunks| == |times|
    ensures TextOf(EventsOf(chunks, times)) == TextRead(chunks)
  {
    if chunks != [] {
      var n := |chunks| - 1;
      TextOfEvents(chunks[..n], times[..n]);
      TextReadLast(chunks[..n], chunks[n]);
      assert chunks == chunks[..n] + [chunks[n]];
    }
  }

  /** Two ways to cut the same bytes between characters, ended by the same close, resolve alike
      and log the same lines. */
  lemma ByteChunkIndependence(setup: Setup, initial: Phase, a: seq<seq<byte>>, b: seq<seq<byte>>,
                              timesA: seq<int>, timesB: seq<int>, close: Event)
    requires |a| == |timesA| && |b| == |timesB| && close.CloseEvent?
    requires WholeCharacters(a) && WholeCharacters(b) && Concat(a) == Concat(b)
    ensures var first := Run(setup, initial, EventsOf(a, timesA) + [close]);
            var second := Run(setup, initial, EventsOf(b, timesB) + [close]);
            first.resolutions == second.resolutions && first.display == second.display
  {
    WholeRead(a);
    WholeRead(b);
    DecodeEncode(TextRead(a));
    DecodeEncode(TextRead(b));
    TextOfEvents(a, timesA);
    TextOfEvents(b, timesB);
    ChunkIndependence(setup, initial, EventsOf(a, timesA), EventsOf(b, timesB), close);
  }

  /** The check mark that progress lines start with, cut after its first byte. */
  lemma CheckMarkCut()
    ensures Encode("\U{2713}") == Concat([[0xE2], [0x9C, 0x93]])
    ensures Decode([0xE2]).None? && Decode([0x9C, 0x93]).None?
    ensures TextRead([[0xE2, 0x9C, 0x93]]) == "\U{2713}" && TextRead([[0xE2], [0x9C, 0x93]]) != "\U{2713}"
  {
    var mark := '\U{2713}';
    assert mark as int == 0x2713;
    assert EncodeChar(mark) == [0xE2, 0x9C, 0x93];
    assert Encode("\U{2713}") == EncodeChar(mark) + Encode("");
    var halves: seq<seq<byte>> := [[0xE2], [0x9C, 0x93]];
    assert halves[1..] == [[0x9C, 0x93]] && halves[1..][1..] == [];
    assert Concat(halves) == [0xE2] + ([0x9C, 0x93] + []);
    assert DecodeNumber([0xE2]).None? && DecodeNumber([0x9C, 0x93]).None?;
    var whole: seq<seq<byte>> := [[0xE2, 0x9C, 0x93]];
    assert whole[1..] == [];
    DecodeEncode("\U{2713}");
    assert halves[0] in halves;
    ReadWholeIff(halves, "\U{2713}");
    assert !WholeCharacters(halves);
    assert Concat(whole) == Encode("\U{2713}");
    assert TextRead(whole) == "\U{2713}" + "";
  }
}

/** What the creation stream shows, in terms of the lines that came, and how each kind of end settles it. */
module StreamDisplay {
  import opened Text
  import opened CreateStream

  // ----- One line -----

  /** The room for a line: 4 columns less than the terminal has, which counts as 100 wide when that is
      unknown and as 60 when it is narrower. */
  function Room(columns: nat): nat
  {
    if columns == 0 then 96 else if columns < 60 then 56 else columns - 4
  }

  /** A line as it is shown: cut to its room, with three dots when something is missing. */
  predicate IsShown(line: string, columns: nat, r: string)
  {
    var room := Room(columns);
    if |line| <= room then r == line
    else |r| == room && r[room-3..] == "..." && r[..room-3] <= line
  }

  lemma DisplayFits(line: string, columns: nat)
    ensures IsShown(line, columns, TrimDisplayLine(line, columns))
  {
  }

  lemma OneShown(line: string, columns: nat, r: string, t: string)
    requires IsShown(line, columns, r) && IsShown(line, columns, t)
    ensures r == t
  {
    var room := Room(columns);
    if |line| > room {
      assert r == r[..room-3] + r[room-3..] && t == t[..room-3] + t[room-3..];
      assert r[..room-3] == line[..room-3] == t[..room-3];
    }
  }

  /** Whole seconds since the start; none before it. */
  lemma ElapsedIs(setup: Setup, now: int)
    ensures var e := Elapsed(setup, now);
            if now <= setup.startedAt then e == 0 else 1000 * e <= now - setup.startedAt < 1000 * (e + 1)
  {
  }

  /** How the announcement of a phase and its heartbeats begin. */
  function Beginning(p: Phase): (string, string)
  {
    match p
    case Pull => ("  Pulling ", "  Still pulling ")
    case Build => ("  Building ", "  Still building ")
    case Upload => ("  Uploading ", "  Still uploading ")
    case Create => ("  Creating ", "  Still creating ")
    case Ready => ("  Waiting ", "  Still waiting ")
  }

  lemma AnnouncementBegins(p: Phase)
    ensures Beginning(p).0 <= PhaseLine(p)
  {
  }

  /** A heartbeat says that its phase goes on, and for how long. */
  lemma HeartbeatGoesOn(p: Phase, elapsed: nat) returns (text: string)
    ensures HeartbeatLine(Some(p), elapsed) == text + Decimal(elapsed) + "s elapsed)"
    ensures Beginning(p).1 <= text && text[|text|-1] == '('
  {
    text := HeartbeatText(p);
    HeartbeatBegins(p);
    HeartbeatWritten(p, elapsed);
  }

  lemma HeartbeatBegins(p: Phase)
    ensures var text := HeartbeatText(p); Beginning(p).1 <= text && text[|text|-1] == '('
  {
  }

  lemma HeartbeatWritten(p: Phase, elapsed: nat)
    ensures HeartbeatLine(Some(p), elapsed) == HeartbeatText(p) + Decimal(elapsed) + "s elapsed)"
  {
  }

  function HeartbeatText(p: Phase): string
  {
    match p
    case Pull => "  Still pulling base image from registry... ("
    case Build => "  Still building sandbox image... ("
    case Upload => "  Still uploading image into OpenShell gateway... ("
    case Create => "  Still creating sandbox in gateway... ("
    case Ready => "  Still waiting for sandbox to become ready... ("
  }

  /** The first of the patterns that fits a line gives its phase. */
  predicate PhaseMeans(k: LineKind, p: Option<Phase>)
  {
    && (p == Some(Build) <==> k.build)
    && (p == Some(Pull) <==> !k.build && k.pull)
    && (p == Some(Upload) <==> !k.build && !k.pull && k.upload)
    && (p == Some(Create) <==> !k.build && !k.pull && !k.upload && k.created)
    && p != Some(Ready)
  }

  lemma PhaseOfMeans(k: LineKind, p: Option<Phase>)
    ensures p == PhaseOf(k) <==> PhaseMeans(k, p)
  {
    match p
    case None =>
    case Some(Pull) =>
    case Some(Build) =>
    case Some(Upload) =>
    case Some(Create) =>
    case Some(Ready) =>
  }

  /** What is printed last fits its room. */
  predicate Fits(d: Display, setup: Setup)
  {
    IsShown(d.lastPrintedLine, setup.columns, d.lastPrintedLine)
  }

  lemma PrintedSays(d: Display, setup: Setup, line: string)
    ensures var after := Printed(d, setup, line);
            && IsShown(line, setup.columns, after.lastPrintedLine) && Fits(after, setup)
            && after.currentPhase == d.currentPhase && after.sawProgress == d.sawProgress
            && d.logged <= after.logged
            && forall l :: l in after.logged ==> l in d.logged || IsShown(line, setup.columns, l)
  {
    var r := TrimDisplayLine(line, setup.columns);
    DisplayFits(line, setup.columns);
    assert |r| <= Room(setup.columns);
    assert Printed(d, setup, line).lastPrintedLine == r;
  }

  lemma PhaseSays(d: Display, setup: Setup, next: Phase)
    requires Fits(d, setup)
    ensures var after := InPhase(d, setup, next);
            && Fits(after, setup) && after.currentPhase == Some(next) && after.sawProgress == d.sawProgress
            && (d.currentPhase == Some(next) ==> after == d)
            && (d.currentPhase != Some(next) ==> IsShown(PhaseLine(next), setup.columns, after.lastPrintedLine))
            && d.logged <= after.logged
            && forall l :: l in after.logged ==> l in d.logged || IsShown(PhaseLine(next), setup.columns, l)
  {
    PrintedSays(d.(currentPhase := Some(next), lastHeartbeatPhase := None, lastHeartbeatBucket := -1), setup,
                PhaseLine(next));
  }

  /** One line: a new phase is announced, and a visible line is printed last. */
  lemma LineSays(d: Display, setup: Setup, line: string, p: Option<Phase>)
    requires Fits(d, setup) && PhaseMeans(setup.kind(line), p)
    ensures var k, after := setup.kind(line), Shown(d, setup, line);
            var announced := p.Some? && p != d.currentPhase;
            && Fits(after, setup)
            && after.currentPhase == (if p.Some? then p else d.currentPhase)
            && (k.visible ==> IsShown(line, setup.columns, after.lastPrintedLine))
            && (!k.visible && announced ==> IsShown(PhaseLine(p.value), setup.columns, after.lastPrintedLine))
            && (!k.visible && !announced ==> after == d)
            && (after.sawProgress ==> d.sawProgress || k.visible)
            && (d.sawProgress || (k.visible && !announced && line != d.lastPrintedLine) ==> after.sawProgress)
            && d.logged <= after.logged
            && forall l :: l in after.logged ==>
                 || l in d.logged || (k.visible && IsShown(line, setup.columns, l))
                 || (p.Some? && IsShown(PhaseLine(p.value), setup.columns, l))
  {
    PhaseOfMeans(setup.kind(line), p);
    var middle := if p.Some? then InPhase(d, setup, p.value) else d;
    if p.Some? { PhaseSays(d, setup, p.value); }
    PrintedSays(middle, setup, line);
  }

  // ----- Heartbeats -----

  /** A heartbeat is shown exactly after enough silence, before any settlement, when this phase and
      quarter of a minute had none and its line is not the one printed last. */
  lemma HeartbeatSays(st: State, setup: Setup, now: int)
    ensures var after := HeartbeatTicked(st, setup, now);
            var d, e := st.display, Elapsed(setup, now);
            var line := HeartbeatLine(d.currentPhase, e);
            var due := !st.settled && setup.silentPhaseMs <= now - st.lastOutputAt
                       && (d.currentPhase != d.lastHeartbeatPhase || e / 15 != d.lastHeartbeatBucket)
                       && !IsShown(line, setup.columns, d.lastPrintedLine);
            if due then
              && IsShown(line, setup.columns, after.display.lastPrintedLine)
              && after.display.logged == d.logged + [after.display.lastPrintedLine]
              && after.display.lastHeartbeatPhase == d.currentPhase && after.display.lastHeartbeatBucket == e / 15
              && after.display.currentPhase == d.currentPhase && after.display.sawProgress == d.sawProgress
              && after == st.(display := after.display)
            else after == st
  {
    var line := HeartbeatLine(st.display.currentPhase, Elapsed(setup, now));
    DisplayFits(line, setup.columns);
    if IsShown(line, setup.columns, st.display.lastPrintedLine) {
      OneShown(line, setup.columns, st.display.lastPrintedLine, TrimDisplayLine(line, setup.columns));
    }
  }

  /** After a heartbeat none follows in the same quarter of a minute, as long as the phase stays. */
  lemma OneHeartbeat(st: State, setup: Setup, now: int, next: State, later: int)
    requires HeartbeatTicked(st, setup, now) != st
    requires next.display.currentPhase == st.display.currentPhase
    requires next.display.lastHeartbeatPhase == HeartbeatTicked(st, setup, now).display.lastHeartbeatPhase
    requires next.display.lastHeartbeatBucket == HeartbeatTicked(st, setup, now).display.lastHeartbeatBucket
    requires Elapsed(setup, later) / 15 == Elapsed(setup, now) / 15
    ensures HeartbeatTicked(next, setup, later) == next
  {
    HeartbeatSays(st, setup, now);
    HeartbeatSays(next, setup, later);
  }

  /** What a line without a new phase leaves of the last heartbeat. */
  lemma HeartbeatKept(d: Display, setup: Setup, line: string, p: Option<Phase>)
    requires PhaseMeans(setup.kind(line), p) && (p.None? || p == d.currentPhase)
    ensures Shown(d, setup, line).lastHeartbeatPhase == d.lastHeartbeatPhase
    ensures Shown(d, setup, line).lastHeartbeatBucket == d.lastHeartbeatBucket
  {
    PhaseOfMeans(setup.kind(line), p);
  }

  // ----- Running -----

  /** The phase of the last line that has one, or the first phase. */
  predicate IsLastPhase(setup: Setup, initial: Phase, lines: seq<string>, p: Option<Phase>)
  {
    if lines == [] then p == Some(initial)
    else
      var k, before := setup.kind(lines[|lines|-1]), lines[..|lines|-1];
      (PhaseMeans(k, None) && IsLastPhase(setup, initial, before, p)) || (p.Some? && PhaseMeans(k, p))
  }

  /** What a logged line can be: a visible line, an announcement of a phase, or a heartbeat. */
  ghost predicate Logged(setup: Setup, lines: seq<string>, l: string)
  {
    || (exists line :: line in lines && setup.kind(line).visible && IsShown(line, setup.columns, l))
    || (exists p :: IsShown(PhaseLine(p), setup.columns, l))
    || (exists p, e :: IsShown(HeartbeatLine(p, e), setup.columns, l))
  }

  ghost predicate VisibleLogged(setup: Setup, lines: seq<string>, logged: seq<string>)
  {
    forall line :: line in lines && setup.kind(line).visible ==>
      exists l :: l in logged && IsShown(line, setup.columns, l)
  }

  /** The display shows what the lines say, and nothing else. */
  ghost predicate Shows(setup: Setup, initial: Phase, lines: seq<string>, d: Display)
  {
    && Fits(d, setup) && Tidy(d) && d.lastPrintedLine in [""] + d.logged
    && IsLastPhase(setup, initial, lines, d.currentPhase)
    && VisibleLogged(setup, lines, d.logged)
    && (forall l :: l in d.logged ==> Logged(setup, lines, l))
    && (d.sawProgress ==> exists line :: line in lines && setup.kind(line).visible)
  }

  lemma LoggedMore(setup: Setup, lines: seq<string>, line: string, l: string)
    requires Logged(setup, lines, l)
    ensures Logged(setup, lines + [line], l)
  {
    if x :| x in lines && setup.kind(x).visible && IsShown(x, setup.columns, l) {
      assert x in lines + [line];
    }
  }

  lemma PrintedIsLogged(d: Display, setup: Setup, line: string)
    requires d.lastPrintedLine in [""] + d.logged && line != ""
    ensures Printed(d, setup, line).lastPrintedLine in Printed(d, setup, line).logged
  {
  }

  lemma VisibleIsLogged(d: Display, setup: Setup, line: string)
    requires Fits(d, setup) && d.lastPrintedLine in [""] + d.logged && line != ""
    ensures var after := Shown(d, setup, line);
            && after.lastPrintedLine in [""] + after.logged
            && (setup.kind(line).visible ==> after.lastPrintedLine in after.logged)
  {
    var p := PhaseOf(setup.kind(line));
    var middle := if p.Some? then InPhase(d, setup, p.value) else d;
    if p.Some? && d.currentPhase != p {
      PrintedIsLogged(d.(currentPhase := p, lastHeartbeatPhase := None, lastHeartbeatBucket := -1), setup,
                      PhaseLine(p.value));
    }
    PrintedIsLogged(middle, setup, line);
  }

  lemma LoggedAfter(setup: Setup, lines: seq<string>, d: Display, line: string)
    requires Fits(d, setup) && forall l :: l in d.logged ==> Logged(setup, lines, l)
    ensures forall l :: l in Shown(d, setup, line).logged ==> Logged(setup, lines + [line], l)
  {
    var p := PhaseOf(setup.kind(line));
    PhaseOfMeans(setup.kind(line), p);
    LineSays(d, setup, line, p);
    forall l | l in Shown(d, setup, line).logged ensures Logged(setup, lines + [line], l) {
      if l in d.logged { LoggedMore(setup, lines, line, l); }
      assert line in lines + [line];
    }
  }

  lemma VisibleAfter(setup: Setup, lines: seq<string>, d: Display, line: string)
    requires Fits(d, setup) && d.lastPrintedLine in [""] + d.logged && line != ""
    requires VisibleLogged(setup, lines, d.logged)
    ensures VisibleLogged(setup, lines + [line], Shown(d, setup, line).logged)
  {
    var p, after := PhaseOf(setup.kind(line)), Shown(d, setup, line);
    PhaseOfMeans(setup.kind(line), p);
    LineSays(d, setup, line, p);
    VisibleIsLogged(d, setup, line);
    forall x | x in lines + [line] && setup.kind(x).visible
      ensures exists l :: l in after.logged && IsShown(x, setup.columns, l)
    {
      if x in lines {
        var l :| l in d.logged && IsShown(x, setup.columns, l);
        assert l in after.logged;
      } else {
        assert after.lastPrintedLine in after.logged;
      }
    }
  }

  lemma PhaseAfter(setup: Setup, initial: Phase, lines: seq<string>, d: Display, line: string)
    requires Fits(d, setup) && IsLastPhase(setup, initial, lines, d.currentPhase)
    ensures IsLastPhase(setup, initial, lines + [line], Shown(d, setup, line).currentPhase)
  {
    var p := PhaseOf(setup.kind(line));
    PhaseOfMeans(setup.kind(line), p);
    LineSays(d, setup, line, p);
    assert (lines + [line])[..|lines|] == lines;
  }

  lemma LineShows(setup: Setup, initial: Phase, lines: seq<string>, d: Display, line: string)
    requires Shows(setup, initial, lines, d) && line != ""
    ensures Shows(setup, initial, lines + [line], Shown(d, setup, line))
  {
    var p, after := PhaseOf(setup.kind(line)), Shown(d, setup, line);
    PhaseOfMeans(setup.kind(line), p);
    LineSays(d, setup, line, p);
    VisibleIsLogged(d, setup, line);
    ShownTidy(d, setup, line);
    PhaseAfter(setup, initial, lines, d, line);
    VisibleAfter(setup, lines, d, line);
    LoggedAfter(setup, lines, d, line);
    if after.sawProgress {
      if d.sawProgress {
        var x :| x in lines && setup.kind(x).visible;
        assert x in lines + [line];
      } else {
        assert line in lines + [line];
      }
    }
  }

  predicate NonEmpty(lines: seq<string>)
  {
    forall line :: line in lines ==> line != ""
  }

  lemma OneMoreLine(lines: seq<string>, more: seq<string>)
    requires more != []
    ensures lines + [more[0]] + more[1..] == lines + more
  {
  }

  lemma FirstShown(d: Display, setup: Setup, more: seq<string>)
    requires more != []
    ensures ShownAll(d, setup, more) == ShownAll(Shown(d, setup, more[0]), setup, more[1..])
  {
  }

  lemma NonEmptyTail(more: seq<string>)
    requires more != [] && NonEmpty(more)
    ensures more[0] != "" && NonEmpty(more[1..])
  {
    assert more[0] in more && forall line :: line in more[1..] ==> line in more;
  }

  lemma {:induction false} LinesShow(setup: Setup, initial: Phase, lines: seq<string>, d: Display, more: seq<string>)
    requires Shows(setup, initial, lines, d) && NonEmpty(more)
    ensures Shows(setup, initial, lines + more, ShownAll(d, setup, more))
    decreases |more|
  {
    if more == [] {
      AddNothing(lines);
    } else {
      NonEmptyTail(more);
      LineShows(setup, initial, lines, d, more[0]);
      LinesShow(setup, initial, lines + [more[0]], Shown(d, setup, more[0]), more[1..]);
      OneMoreLine(lines, more);
      FirstShown(d, setup, more);
    }
  }

  lemma HeartbeatShows(setup: Setup, initial: Phase, lines: seq<string>, st: State, now: int)
    requires Shows(setup, initial, lines, st.display)
    ensures Shows(setup, initial, lines, HeartbeatTicked(st, setup, now).display)
  {
    HeartbeatSays(st, setup, now);
    var d, after := st.display, HeartbeatTicked(st, setup, now).display;
    var line := HeartbeatLine(d.currentPhase, Elapsed(setup, now));
    if after != d {
      forall l | l in after.logged ensures Logged(setup, lines, l) {
        if l !in d.logged { assert IsShown(HeartbeatLine(d.currentPhase, Elapsed(setup, now)), setup.columns, l); }
      }
      PrintedSays(d, setup, line);
      PrintedTidy(d, setup, line);
      assert forall l :: l in d.logged ==> l in after.logged;
    }
  }

  lemma StartShows(setup: Setup, initial: Phase)
    ensures Shows(setup, initial, [], Started(setup, initial).display)
  {
    PhaseSays(BLANK, setup, initial);
    InPhaseTidy(BLANK, setup, initial);
    PrintedIsLogged(BLANK.(currentPhase := Some(initial)), setup, PhaseLine(initial));
  }

  lemma {:induction false} CleanLinesNonEmpty(parts: seq<string>)
    ensures NonEmpty(CleanLines(parts))
  {
    if parts != [] { CleanLinesNonEmpty(parts[1..]); }
  }

  lemma CompleteNonEmpty(text: string)
    ensures NonEmpty(Complete(text))
  {
    CleanLinesNonEmpty(Split(text, '\n')[..|Split(text, '\n')|-1]);
  }

  lemma ChunkShows(setup: Setup, initial: Phase, text: string, st: State, chunk: string, now: int)
    requires Shows(setup, initial, Complete(text), st.display) && st.pending == Rest(text)
    ensures Shows(setup, initial, Complete(text + chunk), Chunked(st, setup, chunk, now).display)
  {
    ChunkedIs(st, setup, chunk, now);
    RestConcat(text, chunk);
    CompleteNonEmpty(Rest(text) + chunk);
    LinesShow(setup, initial, Complete(text), st.display, Complete(Rest(text) + chunk));
  }

  lemma EventShows(setup: Setup, initial: Phase, text: string, st: State, e: Event)
    requires Shows(setup, initial, Complete(text), st.display) && st.pending == Rest(text) && StillRunning(e)
    ensures Shows(setup, initial, Complete(text + if e.ChunkEvent? then e.chunk else ""), Handle(st, setup, e).display)
  {
    AddNothing(text);
    match e
    case ChunkEvent(chunk, now) => ChunkShows(setup, initial, text, st, chunk, now);
    case HeartbeatEvent(now) => HeartbeatShows(setup, initial, Complete(text), st, now);
    case _ =>
  }

  /** As long as nothing settles it, the display shows exactly what the complete lines say: the phase
      of the last one that has one, every visible line, and besides these only announcements and
      heartbeats. */
  lemma {:induction false} RunningShows(setup: Setup, initial: Phase, events: seq<Event>)
    requires forall e :: e in events ==> StillRunning(e)
    ensures Shows(setup, initial, Complete(TextOf(events)), Run(setup, initial, events).display)
  {
    if events == [] {
      StartShows(setup, initial);
      assert Split("", '\n') == [""];
    } else {
      var before := events[..|events|-1];
      RunningShows(setup, initial, before);
      RunningState(setup, initial, before);
      EventShows(setup, initial, TextOf(before), Run(setup, initial, before), events[|events|-1]);
    }
  }

  // ----- The other ends -----

  /** The lines that come out at the end: the complete ones, a last detail, and what was pending. */
  predicate EndsWith(text: string, detail: seq<string>, lines: seq<string>)
  {
    var pieces := Split(text, '\n');
    var n := |pieces| - 1;
    exists i :: 0 <= i <= |lines| - |detail| && OutputOf(pieces[..n], lines[..i])
                && lines[i..i+|detail|] == detail && OutputOf(pieces[n..], lines[i+|detail|..])
  }

  lemma PiecesEnd(text: string, detail: seq<string>)
    ensures var rest := if Clean(Rest(text)) == "" then [] else [Clean(Rest(text))];
            EndsWith(text, detail, Complete(text) + detail + rest)
  {
    var pieces := Split(text, '\n');
    var n := |pieces| - 1;
    var front, rest := Complete(text), if Clean(Rest(text)) == "" then [] else [Clean(Rest(text))];
    var lines := front + detail + rest;
    CleanLinesAre(pieces[..n]);
    CleanLinesAre(pieces[n..]);
    assert pieces[n..] == [Rest(text)] && pieces[n..][1..] == [];
    assert CleanLines(pieces[n..]) == rest by { AddNothing(rest); }
    assert lines[..|front|] == front && lines[|front|..|front|+|detail|] == detail;
    assert lines[|front|+|detail|..] == rest;
  }

  lemma FinishedIs(st: State, setup: Setup, status: int, forcedReady: bool, now: int)
    requires !st.settled && st.resolutions == []
    ensures var after := Finished(st, setup, status, forcedReady, now);
            && after.settled
            && after.lines == st.lines + (if Clean(st.pending) == "" then [] else [Clean(st.pending)])
            && after.resolutions == [Result(status, Join(after.lines, '\n'), after.display.sawProgress, forcedReady)]
            && (st.display.sawProgress ==> after.display.sawProgress)
  {
    assert Clean("") == "";
    AddNothing(st.lines);
  }

  lemma LastHandled(setup: Setup, initial: Phase, events: seq<Event>, e: Event)
    ensures Run(setup, initial, events + [e]) == Handle(Run(setup, initial, events), setup, e)
  {
    assert (events + [e])[..|events|] == events;
  }

  /** A sandbox that is found ready settles the run with status 0, and says so in the output. */
  lemma ReadySettles(setup: Setup, initial: Phase, events: seq<Event>, now: int)
    requires forall e :: e in events ==> StillRunning(e)
    ensures var st := Run(setup, initial, events + [ReadyEvent(Yes, now)]);
            && st.settled && st.resolutions == [Result(0, Join(st.lines, '\n'), true, true)]
            && EndsWith(TextOf(events), [READY_DETAIL], st.lines)
  {
    var st := Run(setup, initial, events);
    var d := Printed(InPhase(st.display, setup, Ready), setup, "  " + READY_DETAIL).(sawProgress := true);
    LastHandled(setup, initial, events, ReadyEvent(Yes, now));
    RunningState(setup, initial, events);
    FinishedIs(st.(lines := st.lines + [READY_DETAIL], display := d), setup, 0, true, now);
    PiecesEnd(TextOf(events), [READY_DETAIL]);
  }

  /** A process that fails to start settles it with status 1 and the reason in the output. */
  lemma ErrorSettles(setup: Setup, initial: Phase, events: seq<Event>, detail: string, now: int)
    requires forall e :: e in events ==> StillRunning(e)
    ensures var st := Run(setup, initial, events + [ErrorEvent(detail, now)]);
            && st.settled && st.resolutions == [Result(1, Join(st.lines, '\n'), st.display.sawProgress, false)]
            && EndsWith(TextOf(events), [detail], st.lines)
  {
    var st := Run(setup, initial, events);
    LastHandled(setup, initial, events, ErrorEvent(detail, now));
    RunningState(setup, initial, events);
    FinishedIs(st.(lines := st.lines + [detail]), setup, 1, false, now);
    PiecesEnd(TextOf(events), [detail]);
  }

  /** Silence is counted from the last chunk line that was not all white space. */
  lemma LastOutput(st: State, setup: Setup, raw: string, now: int)
    ensures Flushed(st, setup, raw, now).lastOutputAt == if AllSpace(raw) then st.lastOutputAt else now
  {
    CleanIs(raw);
  }
}

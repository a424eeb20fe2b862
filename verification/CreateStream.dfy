/** Following one sandbox-create process: chunks of output, two timers, and one settlement. */
module CreateStream {
  import opened Text

  datatype Phase = Pull | Build | Upload | Create | Ready

  /** What the progress patterns say about one cleaned line. */
  datatype LineKind = LineKind(build: bool, pull: bool, upload: bool, created: bool, visible: bool)

  datatype Result = Result(status: int, output: string, sawProgress: bool, forcedReady: bool)

  /** What does not change during a run: the line patterns, the width of the terminal (0 when
      unknown), the starting time and the silence after which heartbeats begin. */
  datatype Setup = Setup(kind: string -> LineKind, columns: nat, startedAt: int, silentPhaseMs: int)

  /** The closure's variables that decide what is shown, and every line logged. */
  datatype Display = Display(
    lastPrintedLine: string,
    sawProgress: bool,
    currentPhase: Option<Phase>,
    lastHeartbeatPhase: Option<Phase>,
    lastHeartbeatBucket: int,
    logged: seq<string>)

  /** The closure's variables, and every resolution of the promise. */
  datatype State = State(
    lines: seq<string>,
    pending: string,
    settled: bool,
    lastOutputAt: int,
    display: Display,
    resolutions: seq<Result>)

  // ----- Lines -----

  function Max(a: int, b: int): int
  {
    if a >= b then a else b
  }

  function TrimDisplayLine(line: string, columns: nat): string
  {
    var width := Max(60, if columns == 0 then 100 else columns);
    var maxLen := Max(40, width - 4);
    if |line| <= maxLen then line else line[..maxLen - 3] + "..."
  }

  function Clean(raw: string): string
  {
    TrimEnd(DropReturns(raw))
  }

  const READY_DETAIL := "Sandbox reported Ready before create stream exited; continuing."

  function PhaseLine(p: Phase): string
  {
    match p
    case Pull => "  Pulling base image from registry..."
    case Build => "  Building sandbox image..."
    case Upload => "  Uploading image into OpenShell gateway..."
    case Create => "  Creating sandbox in gateway..."
    case Ready => "  Waiting for sandbox to become ready..."
  }

  /** Whole seconds since the start, never negative. */
  function Elapsed(setup: Setup, now: int): nat
  {
    Max(0, (now - setup.startedAt) / 1000)
  }

  function HeartbeatLine(p: Option<Phase>, elapsed: nat): string
  {
    (match p
     case Some(Pull) => "  Still pulling base image from registry... ("
     case Some(Upload) => "  Still uploading image into OpenShell gateway... ("
     case Some(Create) => "  Still creating sandbox in gateway... ("
     case Some(Ready) => "  Still waiting for sandbox to become ready... ("
     case _ => "  Still building sandbox image... (") + Decimal(elapsed) + "s elapsed)"
  }

  // ----- What each handler does to the state -----

  function Printed(d: Display, setup: Setup, line: string): Display
  {
    var display := TrimDisplayLine(line, setup.columns);
    if display != d.lastPrintedLine then d.(logged := d.logged + [display], lastPrintedLine := display) else d
  }

  function InPhase(d: Display, setup: Setup, next: Phase): Display
  {
    if d.currentPhase == Some(next) then d
    else Printed(d.(currentPhase := Some(next), lastHeartbeatPhase := None, lastHeartbeatBucket := -1), setup,
                 PhaseLine(next))
  }

  function PhaseOf(k: LineKind): Option<Phase>
  {
    if k.build then Some(Build) else if k.pull then Some(Pull) else if k.upload then Some(Upload)
    else if k.created then Some(Create) else None
  }

  /** What one cleaned, nonempty line does to the display. */
  function Shown(d: Display, setup: Setup, line: string): Display
  {
    var k := setup.kind(line);
    var d := if PhaseOf(k).Some? then InPhase(d, setup, PhaseOf(k).value) else d;
    if k.visible && line != d.lastPrintedLine then Printed(d, setup, line).(sawProgress := true) else d
  }

  function Flushed(st: State, setup: Setup, raw: string, now: int): State
  {
    var line := Clean(raw);
    if line == "" then st
    else st.(lines := st.lines + [line], lastOutputAt := now, display := Shown(st.display, setup, line))
  }

  function FlushedAll(st: State, setup: Setup, parts: seq<string>, now: int): State
    decreases |parts|
  {
    if parts == [] then st else FlushedAll(Flushed(st, setup, parts[0], now), setup, parts[1..], now)
  }

  function Chunked(st: State, setup: Setup, chunk: string, now: int): State
  {
    var parts := Split(st.pending + chunk, '\n');
    FlushedAll(st.(pending := parts[|parts|-1]), setup, parts[..|parts|-1], now)
  }

  function Finished(st: State, setup: Setup, status: int, forcedReady: bool, now: int): State
  {
    if st.settled then st
    else
      var s := st.(settled := true);
      var s := if s.pending != "" then Flushed(s, setup, s.pending, now) else s;
      s.(resolutions := s.resolutions + [Result(status, Join(s.lines, '\n'), s.display.sawProgress, forcedReady)])
  }

  /** What one readiness check says; a check that throws counts as no. */
  datatype Answer = Yes | No | Threw

  function ReadyTicked(st: State, setup: Setup, answer: Answer, now: int): State
  {
    if st.settled || answer != Yes then st
    else
      var d := Printed(InPhase(st.display, setup, Ready), setup, "  " + READY_DETAIL).(sawProgress := true);
      Finished(st.(lines := st.lines + [READY_DETAIL], display := d), setup, 0, true, now)
  }

  /** At most one heartbeat per phase and quarter of a minute. */
  function Beaten(d: Display, setup: Setup, elapsed: nat): Display
  {
    var line := HeartbeatLine(d.currentPhase, elapsed);
    if (d.currentPhase == d.lastHeartbeatPhase && elapsed / 15 == d.lastHeartbeatBucket)
       || TrimDisplayLine(line, setup.columns) == d.lastPrintedLine
    then d
    else Printed(d, setup, line).(lastHeartbeatPhase := d.currentPhase, lastHeartbeatBucket := elapsed / 15)
  }

  function HeartbeatTicked(st: State, setup: Setup, now: int): State
  {
    if st.settled || now - st.lastOutputAt < setup.silentPhaseMs then st
    else st.(display := Beaten(st.display, setup, Elapsed(setup, now)))
  }

  function Failed(st: State, setup: Setup, detail: string, now: int): State
  {
    Finished(st.(lines := st.lines + [detail]), setup, 1, false, now)
  }

  /** code is None for a process that a signal ended; check is None without a readiness check. */
  function Closed(st: State, setup: Setup, code: Option<int>, check: Option<Answer>, now: int): State
  {
    if code.Some? && code.value != 0 && check == Some(Yes) then Finished(st, setup, 0, true, now)
    else Finished(st, setup, if code.Some? then code.value else 1, false, now)
  }

  const BLANK := Display("", false, None, None, -1, [])

  function Started(setup: Setup, initial: Phase): State
  {
    State([], "", false, setup.startedAt, InPhase(BLANK, setup, initial), [])
  }

  // ----- The closure -----

  class SandboxStream {
    const setup: Setup
    var lines: seq<string>
    var pending: string
    var lastPrintedLine: string
    var sawProgress: bool
    var settled: bool
    var lastOutputAt: int
    var currentPhase: Option<Phase>
    var lastHeartbeatPhase: Option<Phase>
    var lastHeartbeatBucket: int
    var logged: seq<string>
    var resolutions: seq<Result>

    ghost function Showing(): Display
      reads this
    {
      Display(lastPrintedLine, sawProgress, currentPhase, lastHeartbeatPhase, lastHeartbeatBucket, logged)
    }

    ghost function Now(): State
      reads this
    {
      State(lines, pending, settled, lastOutputAt, Showing(), resolutions)
    }

    constructor (setup: Setup, initial: Phase)
      ensures Now() == Started(setup, initial) && this.setup == setup
    {
      this.setup := setup;
      lines, pending, lastPrintedLine, sawProgress, settled := [], "", "", false, false;
      lastOutputAt, currentPhase, lastHeartbeatPhase, lastHeartbeatBucket := setup.startedAt, None, None, -1;
      logged, resolutions := [], [];
      new;
      SetPhase(initial);
    }

    method PrintProgressLine(line: string)
      modifies this
      ensures Now() == old(Now()).(display := Printed(old(Showing()), setup, line))
    {
      var display := TrimDisplayLine(line, setup.columns);
      if display != lastPrintedLine {
        logged := logged + [display];
        lastPrintedLine := display;
      }
    }

    method SetPhase(next: Phase)
      modifies this
      ensures Now() == old(Now()).(display := InPhase(old(Showing()), setup, next))
    {
      if currentPhase == Some(next) { return; }
      currentPhase := Some(next);
      lastHeartbeatPhase := None;
      lastHeartbeatBucket := -1;
      PrintProgressLine(PhaseLine(next));
    }

    method FlushLine(raw: string, now: int)
      modifies this
      ensures Now() == Flushed(old(Now()), setup, raw, now)
    {
      var line := Clean(raw);
      if line == "" { return; }
      lines := lines + [line];
      lastOutputAt := now;
      var kind := setup.kind(line);
      if kind.build {
        SetPhase(Build);
      } else if kind.pull {
        SetPhase(Pull);
      } else if kind.upload {
        SetPhase(Upload);
      } else if kind.created {
        SetPhase(Create);
      }
      if kind.visible && line != lastPrintedLine {
        PrintProgressLine(line);
        sawProgress := true;
      }
    }

    method OnChunk(chunk: string, now: int)
      modifies this
      ensures Now() == Chunked(old(Now()), setup, chunk, now)
    {
      pending := pending + chunk;
      var parts := Split(pending, '\n');
      pending := parts[|parts|-1];
      parts := parts[..|parts|-1];
      ghost var before := Now();
      for i := 0 to |parts|
        invariant FlushedAll(Now(), setup, parts[i..], now) == FlushedAll(before, setup, parts, now)
      {
        assert parts[i..][0] == parts[i] && parts[i..][1..] == parts[i+1..];
        FlushLine(parts[i], now);
      }
    }

    method Finish(status: int, forcedReady: bool, now: int)
      modifies this
      ensures Now() == Finished(old(Now()), setup, status, forcedReady, now)
    {
      if settled { return; }
      settled := true;
      if pending != "" { FlushLine(pending, now); }
      resolutions := resolutions + [Result(status, Join(lines, '\n'), sawProgress, forcedReady)];
    }

    method OnReadyTimer(answer: Answer, now: int)
      modifies this
      ensures Now() == ReadyTicked(old(Now()), setup, answer, now)
    {
      if settled { return; }
      if answer != Yes { return; }
      SetPhase(Ready);
      lines := lines + [READY_DETAIL];
      PrintProgressLine("  " + READY_DETAIL);
      sawProgress := true;
      Finish(0, true, now);
    }

    method OnHeartbeat(now: int)
      modifies this
      ensures Now() == HeartbeatTicked(old(Now()), setup, now)
    {
      if settled { return; }
      if now - lastOutputAt < setup.silentPhaseMs { return; }
      var elapsed := Elapsed(setup, now);
      var bucket := elapsed / 15;
      if currentPhase == lastHeartbeatPhase && bucket == lastHeartbeatBucket { return; }
      var line := HeartbeatLine(currentPhase, elapsed);
      if TrimDisplayLine(line, setup.columns) != lastPrintedLine {
        PrintProgressLine(line);
        lastHeartbeatPhase := currentPhase;
        lastHeartbeatBucket := bucket;
      }
    }

    method OnError(detail: string, now: int)
      modifies this
      ensures Now() == Failed(old(Now()), setup, detail, now)
    {
      lines := lines + [detail];
      Finish(1, false, now);
    }

    method OnClose(code: Option<int>, check: Option<Answer>, now: int)
      modifies this
      ensures Now() == Closed(old(Now()), setup, code, check, now)
    {
      if code.Some? && code.value != 0 && check == Some(Yes) {
        Finish(0, true, now);
        return;
      }
      Finish(if code.Some? then code.value else 1, false, now);
    }
  }

  // ----- Runs -----

  datatype Event =
    | ChunkEvent(chunk: string, now: int)
    | ReadyEvent(answer: Answer, now: int)
    | HeartbeatEvent(now: int)
    | ErrorEvent(detail: string, now: int)
    | CloseEvent(code: Option<int>, check: Option<Answer>, now: int)

  function Handle(st: State, setup: Setup, e: Event): State
  {
    match e
    case ChunkEvent(chunk, now) => Chunked(st, setup, chunk, now)
    case ReadyEvent(answer, now) => ReadyTicked(st, setup, answer, now)
    case HeartbeatEvent(now) => HeartbeatTicked(st, setup, now)
    case ErrorEvent(detail, now) => Failed(st, setup, detail, now)
    case CloseEvent(code, check, now) => Closed(st, setup, code, check, now)
  }

  function Run(setup: Setup, initial: Phase, events: seq<Event>): State
  {
    if events == [] then Started(setup, initial)
    else Handle(Run(setup, initial, events[..|events|-1]), setup, events[|events|-1])
  }

  // ----- One settlement, no repeated line -----

  ghost predicate NoRepeats(logged: seq<string>)
  {
    forall i :: 0 <= i < |logged| - 1 ==> logged[i] != logged[i+1]
  }

  ghost predicate Tidy(d: Display)
  {
    NoRepeats(d.logged) && (d.logged != [] ==> d.logged[|d.logged|-1] == d.lastPrintedLine)
  }

  ghost predicate Sound(st: State)
  {
    && |st.resolutions| == (if st.settled then 1 else 0)
    && (forall r :: r in st.resolutions && r.forcedReady ==> r.status == 0)
    && Tidy(st.display)
    && '\n' !in st.pending
  }

  lemma PrintedTidy(d: Display, setup: Setup, line: string)
    requires Tidy(d)
    ensures Tidy(Printed(d, setup, line))
  {
  }

  lemma InPhaseTidy(d: Display, setup: Setup, next: Phase)
    requires Tidy(d)
    ensures Tidy(InPhase(d, setup, next))
  {
    PrintedTidy(d.(currentPhase := Some(next), lastHeartbeatPhase := None, lastHeartbeatBucket := -1), setup,
                PhaseLine(next));
  }

  lemma ShownTidy(d: Display, setup: Setup, line: string)
    requires Tidy(d)
    ensures Tidy(Shown(d, setup, line))
  {
    var phase := PhaseOf(setup.kind(line));
    var after := if phase.Some? then InPhase(d, setup, phase.value) else d;
    if phase.Some? { InPhaseTidy(d, setup, phase.value); }
    PrintedTidy(after, setup, line);
  }

  /** The nonempty cleaned lines, in order. */
  function CleanLines(parts: seq<string>): seq<string>
  {
    if parts == [] then []
    else (if Clean(parts[0]) == "" then [] else [Clean(parts[0])]) + CleanLines(parts[1..])
  }

  function ShownAll(d: Display, setup: Setup, lines: seq<string>): Display
    decreases |lines|
  {
    if lines == [] then d else ShownAll(Shown(d, setup, lines[0]), setup, lines[1..])
  }

  /** Flushing in closed form; only the time depends on when it happens. */
  function FlushedLines(st: State, setup: Setup, lines: seq<string>, now: int): State
  {
    st.(lines := st.lines + lines, display := ShownAll(st.display, setup, lines),
        lastOutputAt := if lines == [] then st.lastOutputAt else now)
  }

  lemma FlushOneMore(st: State, setup: Setup, line: string, lines: seq<string>, now: int)
    ensures var first := st.(lines := st.lines + [line], lastOutputAt := now,
                             display := Shown(st.display, setup, line));
            FlushedLines(first, setup, lines, now) == FlushedLines(st, setup, [line] + lines, now)
  {
    assert ([line] + lines)[1..] == lines;
    assert st.lines + [line] + lines == st.lines + ([line] + lines);
  }

  lemma {:induction false} FlushedAllIs(st: State, setup: Setup, parts: seq<string>, now: int)
    ensures FlushedAll(st, setup, parts, now) == FlushedLines(st, setup, CleanLines(parts), now)
    decreases |parts|
  {
    if parts == [] {
      assert st.lines + [] == st.lines;
    } else {
      FlushedAllIs(Flushed(st, setup, parts[0], now), setup, parts[1..], now);
      if Clean(parts[0]) == "" {
        assert [] + CleanLines(parts[1..]) == CleanLines(parts[1..]);
      } else {
        FlushOneMore(st, setup, Clean(parts[0]), CleanLines(parts[1..]), now);
      }
    }
  }

  lemma {:induction false} ShownAllTidy(d: Display, setup: Setup, lines: seq<string>)
    requires Tidy(d)
    ensures Tidy(ShownAll(d, setup, lines))
    decreases |lines|
  {
    if lines != [] {
      ShownTidy(d, setup, lines[0]);
      ShownAllTidy(Shown(d, setup, lines[0]), setup, lines[1..]);
    }
  }

  lemma FinishedSound(st: State, setup: Setup, status: int, forcedReady: bool, now: int)
    requires Sound(st) && (forcedReady ==> status == 0)
    ensures var end := Finished(st, setup, status, forcedReady, now);
            Sound(end) && end.settled && (st.settled ==> end.resolutions == st.resolutions)
  {
    ShownTidy(st.display, setup, Clean(st.pending));
  }

  lemma HandleSound(st: State, setup: Setup, e: Event)
    requires Sound(st)
    ensures var next := Handle(st, setup, e);
            Sound(next) && (st.settled ==> next.settled && next.resolutions == st.resolutions)
  {
    match e {
      case ChunkEvent(chunk, now) =>
        var parts := Split(st.pending + chunk, '\n');
        var last, front := parts[|parts|-1], parts[..|parts|-1];
        assert last in parts;
        FlushedAllIs(st.(pending := last), setup, front, now);
        ShownAllTidy(st.display, setup, CleanLines(front));
      case ReadyEvent(answer, now) =>
        if !st.settled && answer == Yes {
          var d := Printed(InPhase(st.display, setup, Ready), setup, "  " + READY_DETAIL).(sawProgress := true);
          InPhaseTidy(st.display, setup, Ready);
          PrintedTidy(InPhase(st.display, setup, Ready), setup, "  " + READY_DETAIL);
          FinishedSound(st.(lines := st.lines + [READY_DETAIL], display := d), setup, 0, true, now);
        }
      case HeartbeatEvent(now) =>
        PrintedTidy(st.display, setup, HeartbeatLine(st.display.currentPhase, Elapsed(setup, now)));
      case ErrorEvent(detail, now) =>
        FinishedSound(st.(lines := st.lines + [detail]), setup, 1, false, now);
      case CloseEvent(code, check, now) =>
        FinishedSound(st, setup, 0, true, now);
        FinishedSound(st, setup, if code.Some? then code.value else 1, false, now);
    }
  }

  /** In every interleaving of chunks, timers, errors and closes the promise resolves at most
      once, a forced-ready resolution has status 0, and no two adjacent logged lines are equal. */
  lemma {:induction false} RunSound(setup: Setup, initial: Phase, events: seq<Event>)
    ensures Sound(Run(setup, initial, events))
  {
    if events == [] {
      InPhaseTidy(BLANK, setup, initial);
    } else {
      RunSound(setup, initial, events[..|events|-1]);
      HandleSound(Run(setup, initial, events[..|events|-1]), setup, events[|events|-1]);
    }
  }

  lemma SettledOneMore(setup: Setup, initial: Phase, events: seq<Event>, e: Event)
    requires Run(setup, initial, events).settled
    ensures Run(setup, initial, events + [e]).settled
    ensures Run(setup, initial, events + [e]).resolutions == Run(setup, initial, events).resolutions
  {
    assert (events + [e])[..|events|] == events;
    RunSound(setup, initial, events);
    HandleSound(Run(setup, initial, events), setup, e);
  }

  /** Whatever happens after the promise resolved, it keeps that one resolution. */
  lemma {:induction false} SettledForGood(setup: Setup, initial: Phase, events: seq<Event>, more: seq<Event>)
    requires Run(setup, initial, events).settled
    ensures Run(setup, initial, events + more).settled
    ensures Run(setup, initial, events + more).resolutions == Run(setup, initial, events).resolutions
    decreases |more|
  {
    if more == [] {
      AddNothing(events);
    } else {
      var most, last := more[..|more|-1], more[|more|-1];
      SettledForGood(setup, initial, events, most);
      SplitLast(more);
      Associative(events, most, [last]);
      SettledOneMore(setup, initial, events + most, last);
    }
  }

  // ----- How the output is cut into chunks does not matter -----

  lemma {:induction false} SplitConcat(a: string, b: string)
    ensures var parts := Split(a, '\n');
            Split(a + b, '\n') == parts[..|parts|-1] + Split(parts[|parts|-1] + b, '\n')
  {
    if a == "" {
      assert a + b == b;
      var parts := Split(a, '\n');
      assert parts == [""] && parts[..0] == [];
      assert parts[0] + b == b && [] + Split(b, '\n') == Split(b, '\n');
    } else {
      var c, rest := a[0], a[1..];
      SplitConcat(rest, b);
      SplitStep(c, rest, b);
      assert a == [c] + rest && a + b == [c] + (rest + b);
    }
  }

  /** Adding a character in front changes only the first piece. */
  function Cons(c: char, parts: seq<string>): seq<string>
    requires parts != []
  {
    if c == '\n' then [""] + parts else [[c] + parts[0]] + parts[1..]
  }

  lemma SplitStep(c: char, a: string, b: string)
    requires var rest := Split(a, '\n');
             Split(a + b, '\n') == rest[..|rest|-1] + Split(rest[|rest|-1] + b, '\n')
    ensures var parts := Split([c] + a, '\n');
            Split([c] + (a + b), '\n') == parts[..|parts|-1] + Split(parts[|parts|-1] + b, '\n')
  {
    var rest := Split(a, '\n');
    var n := |rest| - 1;
    var tail := Split(rest[n] + b, '\n');
    assert ([c] + a)[1..] == a && ([c] + (a + b))[1..] == a + b;
    assert Split([c] + a, '\n') == Cons(c, rest);
    assert Split([c] + (a + b), '\n') == Cons(c, rest[..n] + tail);
    if c == '\n' {
      ConsFeed(rest, tail);
    } else if n == 0 {
      assert rest == [rest[0]] && rest[..0] + tail == tail;
      assert [c] + rest[0] + b == [c] + (rest[0] + b);
      assert ([c] + (rest[0] + b))[1..] == rest[0] + b;
      var parts := [[c] + rest[0]];
      assert parts[..0] + Cons(c, tail) == Cons(c, tail);
    } else {
      ConsOther(c, rest, tail);
    }
  }

  lemma ConsFeed(rest: seq<string>, tail: seq<string>)
    requires rest != []
    ensures var parts := Cons('\n', rest);
            && parts[|parts|-1] == rest[|rest|-1]
            && parts[..|parts|-1] + tail == [""] + (rest[..|rest|-1] + tail)
  {
  }

  lemma ConsOther(c: char, rest: seq<string>, tail: seq<string>)
    requires |rest| > 1 && c != '\n'
    ensures var parts := Cons(c, rest);
            && parts[|parts|-1] == rest[|rest|-1]
            && parts[..|parts|-1] + tail == Cons(c, rest[..|rest|-1] + tail)
  {
    var n := |rest| - 1;
    var whole := rest[..n] + tail;
    var head := [c] + rest[0];
    assert whole[0] == rest[0] && whole[1..] == rest[1..n] + tail;
    assert Cons(c, rest)[..n] == [head] + rest[1..n];
    assert [head] + rest[1..n] + tail == [head] + (rest[1..n] + tail);
  }

  lemma {:induction false} CleanLinesConcat(a: seq<string>, b: seq<string>)
    ensures CleanLines(a + b) == CleanLines(a) + CleanLines(b)
  {
    if a == [] {
      assert a + b == b;
    } else {
      assert (a + b)[1..] == a[1..] + b;
      CleanLinesConcat(a[1..], b);
    }
  }

  lemma {:induction false} ShownAllConcat(d: Display, setup: Setup, a: seq<string>, b: seq<string>)
    ensures ShownAll(d, setup, a + b) == ShownAll(ShownAll(d, setup, a), setup, b)
    decreases |a|
  {
    if a == [] {
      assert a + b == b;
    } else {
      assert (a + b)[1..] == a[1..] + b;
      ShownAllConcat(Shown(d, setup, a[0]), setup, a[1..], b);
    }
  }

  /** The complete lines of a text, cleaned, and what follows its last line feed. */
  function Complete(text: string): seq<string>
  {
    var parts := Split(text, '\n');
    CleanLines(parts[..|parts|-1])
  }

  function Rest(text: string): string
  {
    var parts := Split(text, '\n');
    parts[|parts|-1]
  }

  lemma RestConcat(a: string, b: string)
    ensures Rest(a + b) == Rest(Rest(a) + b)
    ensures Complete(a + b) == Complete(a) + Complete(Rest(a) + b)
  {
    SplitConcat(a, b);
    var first, second := Split(a, '\n'), Split(Rest(a) + b, '\n');
    var whole := first[..|first|-1] + second;
    assert whole[..|whole|-1] == first[..|first|-1] + second[..|second|-1];
    CleanLinesConcat(first[..|first|-1], second[..|second|-1]);
  }

  /** A chunk in closed form. */
  lemma ChunkedIs(st: State, setup: Setup, chunk: string, now: int)
    ensures var text := st.pending + chunk;
            Chunked(st, setup, chunk, now) == FlushedLines(st.(pending := Rest(text)), setup, Complete(text), now)
  {
    var parts := Split(st.pending + chunk, '\n');
    FlushedAllIs(st.(pending := parts[|parts|-1]), setup, parts[..|parts|-1], now);
  }

  /** All the text that the events' chunks carry, in order. */
  function TextOf(events: seq<Event>): string
  {
    if events == [] then ""
    else
      var e := events[|events|-1];
      TextOf(events[..|events|-1]) + (if e.ChunkEvent? then e.chunk else "")
  }

  /** Chunks, heartbeats and readiness checks that do not say yes. */
  predicate StillRunning(e: Event)
  {
    e.ChunkEvent? || e.HeartbeatEvent? || (e.ReadyEvent? && e.answer != Yes)
  }

  lemma {:induction false} RunningState(setup: Setup, initial: Phase, events: seq<Event>)
    requires forall e :: e in events ==> StillRunning(e)
    ensures var st := Run(setup, initial, events);
            !st.settled && st.resolutions == [] && st.lines == Complete(TextOf(events)) &&
            st.pending == Rest(TextOf(events))
  {
    if events == [] {
      assert Split("", '\n') == [""];
    } else {
      var before, e := events[..|events|-1], events[|events|-1];
      RunningState(setup, initial, before);
      var st := Run(setup, initial, before);
      assert e in events;
      if e.ChunkEvent? {
        ChunkedIs(st, setup, e.chunk, e.now);
        RestConcat(TextOf(before), e.chunk);
      } else {
        assert TextOf(before) + "" == TextOf(before);
      }
    }
  }

  /** The cleaned, nonempty lines of a whole text. */
  function AllLines(text: string): seq<string>
  {
    CleanLines(Split(text, '\n'))
  }

  lemma AllLinesAre(text: string)
    ensures AllLines(text) == Complete(text) + (if Clean(Rest(text)) == "" then [] else [Clean(Rest(text))])
  {
    var parts := Split(text, '\n');
    var front := parts[..|parts|-1];
    assert parts == front + [Rest(text)];
    CleanLinesConcat(front, [Rest(text)]);
    assert [Rest(text)][1..] == [];
  }

  /** A piece of the text without its returns, and without the white space at its end. */
  predicate IsLineOf(piece: string, line: string)
  {
    var whole := DropReturns(piece);
    line != "" && line <= whole && !IsJsSpace(line[|line|-1]) && AllSpace(whole[|line|..])
  }

  /** One line for every piece that is not all white space, in order. */
  predicate OutputOf(pieces: seq<string>, lines: seq<string>)
  {
    if pieces == [] then lines == []
    else if AllSpace(pieces[0]) then OutputOf(pieces[1..], lines)
    else lines != [] && IsLineOf(pieces[0], lines[0]) && OutputOf(pieces[1..], lines[1..])
  }

  lemma SpaceParts(a: string, b: string)
    ensures AllSpace(a + b) <==> AllSpace(a) && AllSpace(b)
  {
    var s := a + b;
    assert forall i :: 0 <= i < |a| ==> a[i] == s[i];
    assert forall i :: 0 <= i < |b| ==> b[i] == s[|a| + i];
    assert s[|a|..] == b;
    if AllSpace(a) && AllSpace(b) {
      forall i | 0 <= i < |s| ensures IsJsSpace(s[i]) {
        if i >= |a| { assert s[i] == b[i-|a|]; }
      }
    }
  }

  lemma {:induction false} ReturnsAside(s: string)
    ensures AllSpace(DropReturns(s)) <==> AllSpace(s)
  {
    if s != "" {
      var first := if s[0] == '\r' then "" else [s[0]];
      ReturnsAside(s[1..]);
      SpaceParts(first, DropReturns(s[1..]));
      SpaceParts([s[0]], s[1..]);
      assert s == [s[0]] + s[1..] && DropReturns(s) == first + DropReturns(s[1..]);
    }
  }

  lemma CleanIs(raw: string)
    ensures if AllSpace(raw) then Clean(raw) == "" else IsLineOf(raw, Clean(raw))
  {
    var whole := DropReturns(raw);
    ReturnsAside(raw);
    TrimEndIs(whole);
    assert forall i :: 0 <= i < |Clean(raw)| ==> Clean(raw)[i] == whole[i];
    assert whole[0..] == whole;
  }

  lemma OutputMore(piece: string, rest: seq<string>, line: string, lines: seq<string>)
    requires OutputOf(rest, lines) && if AllSpace(piece) then line == "" else IsLineOf(piece, line)
    ensures OutputOf([piece] + rest, (if line == "" then [] else [line]) + lines)
  {
    assert ([piece] + rest)[1..] == rest;
    if line == "" { AddNothing(lines); } else { assert ([line] + lines)[1..] == lines; }
  }

  lemma {:induction false} CleanLinesAre(pieces: seq<string>)
    ensures OutputOf(pieces, CleanLines(pieces))
  {
    if pieces != [] {
      CleanIs(pieces[0]);
      CleanLinesAre(pieces[1..]);
      OutputMore(pieces[0], pieces[1..], Clean(pieces[0]), CleanLines(pieces[1..]));
      assert pieces == [pieces[0]] + pieces[1..];
    }
  }

  /** A run that the process's end settles has exactly the text's lines as its output, without
      returns and without white space at their ends, however the text was cut into chunks and
      whatever timers fired in between. */
  lemma OutputIgnoresChunks(setup: Setup, initial: Phase, events: seq<Event>, code: Option<int>,
                            check: Option<Answer>, now: int)
    requires forall e :: e in events ==> StillRunning(e)
    ensures var st := Run(setup, initial, events + [CloseEvent(code, check, now)]);
            && |st.resolutions| == 1
            && st.resolutions[0].output == Join(AllLines(TextOf(events)), '\n')
            && OutputOf(Split(TextOf(events), '\n'), AllLines(TextOf(events)))
            && st.resolutions[0].forcedReady == (code.Some? && code.value != 0 && check == Some(Yes))
            && st.resolutions[0].status ==
                (if st.resolutions[0].forcedReady then 0 else if code.Some? then code.value else 1)
  {
    var all := events + [CloseEvent(code, check, now)];
    assert all[..|all|-1] == events;
    RunningState(setup, initial, events);
    CleanLinesAre(Split(TextOf(events), '\n'));
    AllLinesAre(TextOf(events));
    var lines := Complete(TextOf(events));
    assert lines + [] == lines;
    assert Clean("") == "";
  }

  /** Chunks only: the display depends on the text alone as well. */
  lemma {:induction false} ChunksOnly(setup: Setup, initial: Phase, events: seq<Event>)
    requires forall e :: e in events ==> e.ChunkEvent?
    ensures Run(setup, initial, events).display ==
        ShownAll(Started(setup, initial).display, setup, Complete(TextOf(events)))
  {
    if events == [] {
      assert Split("", '\n') == [""];
    } else {
      var before, e := events[..|events|-1], events[|events|-1];
      ChunksOnly(setup, initial, before);
      RunningState(setup, initial, before);
      ChunkedIs(Run(setup, initial, before), setup, e.chunk, e.now);
      RestConcat(TextOf(before), e.chunk);
      ShownAllConcat(Started(setup, initial).display, setup, Complete(TextOf(before)),
                     Complete(Rest(TextOf(before)) + e.chunk));
    }
  }

  lemma SameFinish(st: State, other: State, setup: Setup, close: Event)
    requires close.CloseEvent? && st.(lastOutputAt := 0) == other.(lastOutputAt := 0)
    ensures Handle(st, setup, close).resolutions == Handle(other, setup, close).resolutions
    ensures Handle(st, setup, close).display == Handle(other, setup, close).display
  {
    assert st == other.(lastOutputAt := st.lastOutputAt);
  }

  /** Two ways to cut the same text, ended by the same close, resolve alike and log the same lines. */
  lemma {:induction false} ChunkIndependence(setup: Setup, initial: Phase, a: seq<Event>, b: seq<Event>, close: Event)
    requires forall e :: e in a + b ==> e.ChunkEvent?
    requires TextOf(a) == TextOf(b) && close.CloseEvent?
    ensures Run(setup, initial, a + [close]).resolutions == Run(setup, initial, b + [close]).resolutions
    ensures Run(setup, initial, a + [close]).display == Run(setup, initial, b + [close]).display
  {
    assert (forall e :: e in a ==> e in a + b) && forall e :: e in b ==> e in a + b;
    ChunksOnly(setup, initial, a);
    ChunksOnly(setup, initial, b);
    RunningState(setup, initial, a);
    RunningState(setup, initial, b);
    assert (a + [close])[..|a|] == a && (b + [close])[..|b|] == b;
    SameFinish(Run(setup, initial, a), Run(setup, initial, b), setup, close);
  }
}

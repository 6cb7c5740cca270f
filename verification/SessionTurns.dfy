// What a session says, turn by turn: in every run, exactly what the lines its task read
// say one after the other, and how the turn came out.
module SessionTurns {
  import opened Prelude
  import opened Json
  import opened Events
  import opened Stream
  import opened StreamLines
  import opened Session

  // ---- Lines read and events said ----

  function LinesIn(turn: seq<Entry>): seq<Option<Value>> {
    if turn == [] then []
    else LinesIn(Init(turn)) + if Last(turn).LineRead? then [Last(turn).line] else []
  }

  /** What the turn's task said, but for session ids. */
  function SaidIn(turn: seq<Entry>): seq<AgentEvent> {
    if turn == [] then []
    else SaidIn(Init(turn)) + if IsSaid(Last(turn)) then [Last(turn).event] else []
  }

  predicate IsSaid(e: Entry) {
    e.FromTask? && !e.event.SessionStarted?
  }

  lemma {:induction false} InConcat(a: seq<Entry>, b: seq<Entry>)
    ensures LinesIn(a + b) == LinesIn(a) + LinesIn(b)
    ensures SaidIn(a + b) == SaidIn(a) + SaidIn(b)
    decreases |b|
  {
    if b == [] {
      assert a + b == a;
    } else {
      InConcat(a, Init(b));
      assert Init(a + b) == a + Init(b) && Last(a + b) == Last(b);
    }
  }

  /** One entry more. */
  lemma InMore(a: seq<Entry>, e: Entry)
    ensures LinesIn(a + [e]) == if e.LineRead? then LinesIn(a) + [e.line] else LinesIn(a)
    ensures SaidIn(a + [e]) == if IsSaid(e) then SaidIn(a) + [e.event] else SaidIn(a)
  {
    assert Init(a + [e]) == a && Last(a + [e]) == e;
  }

  lemma TaggedInit(turn: nat, events: seq<AgentEvent>)
    requires events != []
    ensures Tagged(turn, events) == Tagged(turn, Init(events)) + [FromTask(turn, Last(events))]
  {
  }

  lemma TaggedConcat(turn: nat, a: seq<AgentEvent>, b: seq<AgentEvent>)
    ensures Tagged(turn, a + b) == Tagged(turn, a) + Tagged(turn, b)
  {
  }

  lemma OneMoreIn(some: seq<Entry>, turn: nat, e: AgentEvent, all: seq<Entry>)
    requires !e.SessionStarted? && all == some + [FromTask(turn, e)]
    ensures LinesIn(all) == LinesIn(some) && SaidIn(all) == SaidIn(some) + [e]
  {
    InMore(some, FromTask(turn, e));
  }

  lemma {:induction false} InTagged(turn: nat, events: seq<AgentEvent>)
    requires forall e :: e in events ==> !e.SessionStarted?
    ensures LinesIn(Tagged(turn, events)) == [] && SaidIn(Tagged(turn, events)) == events
    decreases |events|
  {
    if events == [] {
      assert Tagged(turn, events) == [];
    } else {
      var some, e := Init(events), Last(events);
      assert events == some + [e];
      InTagged(turn, some);
      TaggedInit(turn, events);
      OneMoreIn(Tagged(turn, some), turn, e, Tagged(turn, events));
    }
  }

  lemma InNews(turn: nat, news: seq<AgentEvent>)
    requires |news| <= 1 && forall e :: e in news ==> e.SessionStarted?
    ensures LinesIn(Tagged(turn, news)) == [] && SaidIn(Tagged(turn, news)) == []
  {
    if news != [] {
      assert news[0] in news && Init(news) == [];
      TaggedInit(turn, news);
      InMore([], FromTask(turn, news[0]));
    }
  }

  // ---- A turn that said its lines ----

  predicate HasResult(lines: seq<Option<Value>>) {
    exists line :: line in lines && IsResultLine(line)
  }

  /** What the lines say; and if none was a `result`, one failure more. */
  predicate SaidItsLines(turn: seq<Entry>, show: Rendering) {
    var said, heard := ParseAll(FRESH, LinesIn(turn), show).1, SaidIn(turn);
    if HasResult(LinesIn(turn)) then heard == said
    else heard != [] && Init(heard) == said && Last(heard).TurnFailed?
  }

  /** The same parser, but for a session id it holds. */
  predicate SameParser(p: ParserState, q: ParserState) {
    p.(sessionId := None) == q.(sessionId := None)
  }

  lemma ParsesTheSame(p: ParserState, q: ParserState, line: Option<Value>, show: Rendering)
    requires SameParser(p, q)
    ensures SameParser(Parse(p, line, show).0, Parse(q, line, show).0)
    ensures Parse(p, line, show).1 == Parse(q, line, show).1
  {
  }

  /** The task is at the end of the turn's lines, and has said what they say. */
  predicate IsAt(task: Task, turn: seq<Entry>, show: Rendering) {
    && task.parser.sessionId.None?
    && SameParser(task.parser, ParseAll(FRESH, LinesIn(turn), show).0)
    && if task.phase in {Reading, Exiting} then SaidIn(turn) == ParseAll(FRESH, LinesIn(turn), show).1
       else SaidItsLines(turn, show)
  }

  predicate PastTurnsSaid(log: seq<Entry>, show: Rendering) {
    log != [] ==>
      && PastTurnsSaid(Init(log), show)
      && (Starts(Last(log)) && TurnsStarted(Init(log)) > 0 ==> SaidItsLines(Since(Init(log)), show))
  }

  predicate Says(s: State, show: Rendering) {
    && PastTurnsSaid(s.log, show)
    && (s.tasks != [] ==> IsAt(Last(s.tasks), Since(s.log), show))
  }

  // ---- Every step ----

  lemma {:induction false} QuietKeepsPast(log: seq<Entry>, more: seq<Entry>, show: Rendering)
    requires Quiet(more) && PastTurnsSaid(log, show)
    ensures PastTurnsSaid(log + more, show)
    decreases |more|
  {
    if more == [] {
      assert log + more == log;
    } else {
      assert Last(more) in more && forall e :: e in Init(more) ==> e in more;
      QuietKeepsPast(log, Init(more), show);
      assert Init(log + more) == log + Init(more) && Last(log + more) == Last(more);
    }
  }

  lemma {:induction false} FinishedByResult(lines: seq<Option<Value>>, show: Rendering)
    ensures ParseAll(FRESH, lines, show).0.finished <==> HasResult(lines)
    decreases |lines|
  {
    if lines != [] {
      FinishedByResult(Init(lines), show);
      ResultLinesEndTurns(ParseAll(FRESH, Init(lines), show).0, Last(lines), show);
      assert lines == Init(lines) + [Last(lines)];
      assert HasResult(lines) <==> HasResult(Init(lines)) || IsResultLine(Last(lines));
    }
  }

  lemma TaggedAfter(turn: seq<Entry>, number: nat, said: seq<AgentEvent>)
    requires forall e :: e in said ==> !e.SessionStarted?
    ensures LinesIn(turn + Tagged(number, said)) == LinesIn(turn)
    ensures SaidIn(turn + Tagged(number, said)) == SaidIn(turn) + said
  {
    InTagged(number, said);
    InConcat(turn, Tagged(number, said));
  }

  lemma NewsAfter(turn: seq<Entry>, number: nat, news: seq<AgentEvent>)
    requires |news| <= 1 && forall e :: e in news ==> e.SessionStarted?
    ensures LinesIn(turn + Tagged(number, news)) == LinesIn(turn) && SaidIn(turn + Tagged(number, news)) == SaidIn(turn)
  {
    InNews(number, news);
    InConcat(turn, Tagged(number, news));
  }

  /** A line and what is said of it, at the end of a turn. */
  lemma LineIn(turn: seq<Entry>, t: nat, line: Option<Value>, said: seq<AgentEvent>, news: seq<AgentEvent>)
    requires forall e :: e in said ==> !e.SessionStarted?
    requires |news| <= 1 && forall e :: e in news ==> e.SessionStarted?
    ensures LinesIn(turn + LineEntries(t, line, said + news)) == LinesIn(turn) + [line]
    ensures SaidIn(turn + LineEntries(t, line, said + news)) == SaidIn(turn) + said
  {
    var marked := turn + [LineRead(t + 1, line)];
    InMore(turn, LineRead(t + 1, line));
    TaggedAfter(marked, t + 1, said);
    NewsAfter(marked + Tagged(t + 1, said), t + 1, news);
    TaggedConcat(t + 1, said, news);
    FourParts(turn, [LineRead(t + 1, line)], Tagged(t + 1, said), Tagged(t + 1, news));
  }

  lemma FourParts(a: seq<Entry>, b: seq<Entry>, c: seq<Entry>, d: seq<Entry>)
    ensures a + (b + (c + d)) == a + b + c + d
  {
  }

  lemma LineIsAt(task: Task, turn: seq<Entry>, t: nat, line: Option<Value>, news: seq<AgentEvent>, show: Rendering)
    requires task.phase.Reading? && IsAt(task, turn, show)
    requires |news| <= 1 && forall e :: e in news ==> e.SessionStarted?
    ensures var (parser, events) := Parse(task.parser, line, show);
            IsAt(task.(parser := parser.(sessionId := None)), turn + LineEntries(t, line, events + news), show)
  {
    var (parser, events) := Parse(task.parser, line, show);
    ResultLinesEndTurns(task.parser, line, show);
    LineIn(turn, t, line, events, news);
    var lines := LinesIn(turn) + [line];
    assert Init(lines) == LinesIn(turn) && Last(lines) == line;
    ParsesTheSame(task.parser, ParseAll(FRESH, LinesIn(turn), show).0, line, show);
  }

  lemma MoreSays(s: State, after: State, more: seq<Entry>, show: Rendering)
    requires Says(s, show) && after.log == s.log + more && Quiet(more)
    requires after.tasks != [] && IsAt(Last(after.tasks), Since(s.log) + more, show)
    ensures Says(after, show)
  {
    QuietKeepsPast(s.log, more, show);
    QuietSince(s.log, more);
  }

  lemma LineSays(s: State, t: nat, line: Option<Value>, show: Rendering)
    requires Inv(s) && Says(s, show) && Enabled(s, ReadLine(t, line))
    ensures Says(After(s, ReadLine(t, line), show), show)
  {
    var said := Said(s, t, line, show);
    var (parser, events) := Parse(s.tasks[t].parser, line, show);
    var news := if IsNews(s, parser.sessionId) then [SessionStarted(parser.sessionId)] else [];
    var task := s.tasks[t].(parser := parser.(sessionId := None));
    OnlyLastAlive(s, t);
    LineEntriesOwn(t, line, said);
    LineIsAt(s.tasks[t], Since(s.log), t, line, news, show);
    var after := AfterLine(s, t, line, show);
    assert after.log == s.log + LineEntries(t, line, said) && Last(after.tasks) == task;
    MoreSays(s, after, LineEntries(t, line, said), show);
  }

  /** A turn that has said its lines and then fails, none of them being a `result`. */
  lemma FailsAfter(turn: seq<Entry>, t: nat, message: string, show: Rendering)
    requires SaidIn(turn) == ParseAll(FRESH, LinesIn(turn), show).1 && !HasResult(LinesIn(turn))
    ensures SaidItsLines(turn + [FromTask(t, TurnFailed(message))], show)
    ensures LinesIn(turn + [FromTask(t, TurnFailed(message))]) == LinesIn(turn)
  {
    InMore(turn, FromTask(t, TurnFailed(message)));
    assert Init(SaidIn(turn) + [TurnFailed(message)]) == SaidIn(turn);
  }

  lemma ExitSays(s: State, t: nat, message: string, show: Rendering)
    requires Inv(s) && Says(s, show) && Enabled(s, Exit(t, message))
    ensures Says(After(s, Exit(t, message), show), show)
  {
    OnlyLastAlive(s, t);
    FinishedByResult(LinesIn(Since(s.log)), show);
    if s.tasks[t].parser.finished {
      assert s.log + [] == s.log;
    } else {
      var e := FromTask(t + 1, TurnFailed(message));
      FailureTagged(t, Since(s.log), message);
      QuietKeepsPast(s.log, [e], show);
      QuietSince(s.log, [e]);
      FailsAfter(Since(s.log), t + 1, message, show);
    }
  }

  lemma SendSays(s: State, spawns: bool, show: Rendering)
    requires Inv(s) && Says(s, show)
    ensures Says(After(s, Send(spawns), show), show)
  {
    if !s.running && spawns {
      LogWith(s.log, Own(TurnStarted));
      var after := After(s, Send(spawns), show);
      assert Last(after.tasks) == Task(Reading, FRESH);
    }
  }

  lemma PhaseSays(s: State, t: nat, phase: Phase, show: Rendering)
    requires Inv(s) && Says(s, show) && t < |s.tasks|
    requires (s.tasks[t].phase.Reading? && phase.Exiting?) || (s.tasks[t].phase.Releasing? && phase.Done?)
    ensures Says(WithPhase(s, t, phase).(running := !phase.Done?), show)
  {
    OnlyLastAlive(s, t);
  }

  lemma CloseSays(s: State, show: Rendering)
    requires Inv(s) && Says(s, show)
    ensures Says(After(s, Close, show), show)
  {
    var e, turn := Own(SessionEnded), Since(s.log);
    QuietKeepsPast(s.log, [e], show);
    QuietSince(s.log, [e]);
    InMore(turn, e);
  }

  lemma StepSays(s: State, step: Step, show: Rendering)
    requires Inv(s) && Says(s, show) && Enabled(s, step)
    ensures Says(After(s, step, show), show)
  {
    match step
    case Send(spawns) => SendSays(s, spawns, show);
    case ReadLine(t, line) => LineSays(s, t, line, show);
    case StopReading(t) =>
      OnlyLastAlive(s, t);
      PhaseSays(s, t, Exiting, show);
    case Exit(t, message) => ExitSays(s, t, message, show);
    case Release(t) => PhaseSays(s, t, Done, show);
    case Cancel =>
    case Close => CloseSays(s, show);
  }

  // ---- Every run ----

  lemma {:induction false} RunSays(s: State, steps: seq<Step>, show: Rendering)
    requires Inv(s) && Says(s, show) && CanRun(s, steps, show)
    ensures Says(Run(s, steps, show), show)
    decreases |steps|
  {
    if steps != [] {
      StepSays(s, steps[0], show);
      StepKeepsInv(s, steps[0], show);
      RunSays(After(s, steps[0], show), steps[1..], show);
    }
  }

  lemma {:induction false} PastTurnSaid(log: seq<Entry>, i: nat, j: nat, show: Rendering)
    requires PastTurnsSaid(log, show) && NextTurn(log, i, j)
    ensures SaidItsLines(log[i + 1..j], show)
    decreases |log|
  {
    if j == |log| - 1 {
      SinceIsTurn(Init(log), i);
      assert Init(log)[i + 1..] == log[i + 1..j];
    } else {
      PastTurnSaid(Init(log), i, j, show);
      assert Init(log)[i + 1..j] == log[i + 1..j];
    }
  }

  lemma OpenedSays(resume: Option<string>, show: Rendering)
    ensures Says(Opened(resume), show)
  {
  }

  /**
   * In every run, what a turn's task says, but for session ids, is what the lines it read say
   * one after the other; and if the turn has ended with none of them a `result`, one failure
   * more. So it is of every turn that another follows, and of the last one: while its task
   * reads, without that failure, and once the session is free, with it.
   */
  lemma EveryTurnSaysItsLines(resume: Option<string>, steps: seq<Step>, show: Rendering)
    requires CanRun(Opened(resume), steps, show)
    ensures var s := Run(Opened(resume), steps, show);
            && (forall i: nat, j: nat :: NextTurn(s.log, i, j) ==> SaidItsLines(s.log[i + 1..j], show))
            && (!s.running && s.tasks != [] ==> SaidItsLines(Since(s.log), show))
            && (s.tasks != [] && Last(s.tasks).phase.Reading? ==>
                 SaidIn(Since(s.log)) == ParseAll(FRESH, LinesIn(Since(s.log)), show).1)
  {
    OpenedHoldsInv(resume);
    OpenedSays(resume, show);
    RunSays(Opened(resume), steps, show);
    RunKeepsInv(Opened(resume), steps, show);
    var log := Run(Opened(resume), steps, show).log;
    forall i: nat, j: nat | NextTurn(log, i, j)
      ensures SaidItsLines(log[i + 1..j], show)
    {
      PastTurnSaid(log, i, j, show);
    }
  }

  // ---- How turns end ----

  function ResultsOf(lines: seq<Option<Value>>): seq<Option<Value>> {
    Filter(lines, IsResultLine)
  }

  function EndingsOf(events: seq<AgentEvent>): seq<AgentEvent> {
    Filter(events, EndsTurn)
  }

  /** One ending for each `result` line, in order, and as that line has it. */
  predicate EndsAs(endings: seq<AgentEvent>, results: seq<Option<Value>>) {
    && |endings| == |results|
    && forall i :: 0 <= i < |results| ==> results[i].Some? && EndsWith(results[i].value, endings[i])
  }

  lemma {:induction false} NoEndings(events: seq<AgentEvent>)
    requires forall e :: e in events ==> !EndsTurn(e)
    ensures EndingsOf(events) == []
  {
    if events != [] {
      assert Last(events) in events && forall e :: e in Init(events) ==> e in events;
      NoEndings(Init(events));
    }
  }

  lemma ResultsAreThere(lines: seq<Option<Value>>)
    ensures ResultsOf(lines) != [] <==> HasResult(lines)
  {
    if ResultsOf(lines) != [] {
      assert ResultsOf(lines)[0] in ResultsOf(lines);
    }
    if HasResult(lines) {
      var line :| line in lines && IsResultLine(line);
      assert line in ResultsOf(lines);
    }
  }

  lemma EndsAsBoth(a: seq<AgentEvent>, b: seq<AgentEvent>, x: seq<Option<Value>>, y: seq<Option<Value>>)
    requires EndsAs(a, x) && EndsAs(b, y)
    ensures EndsAs(a + b, x + y)
  {
  }

  lemma LineEndsAs(p: ParserState, line: Option<Value>, show: Rendering)
    ensures EndsAs(EndingsOf(Parse(p, line, show).1), ResultsOf([line]))
  {
    var events := Parse(p, line, show).1;
    assert Init([line]) == [];
    if IsResultLine(line) {
      ResultSays(p, line.value, show);
      assert Init(events) == [] && events == [events[0]];
      assert EndingsOf(events) == [events[0]];
    } else {
      if line.Some? {
        OtherLinesAreMidTurn(p, line.value, show);
      }
      NoEndings(events);
    }
  }

  lemma OneLineMore(some: seq<Option<Value>>, line: Option<Value>, said: seq<AgentEvent>, more: seq<AgentEvent>)
    ensures EndingsOf(said + more) == EndingsOf(said) + EndingsOf(more)
    ensures ResultsOf(some + [line]) == ResultsOf(some) + ResultsOf([line])
  {
    FilterConcat(said, more, EndsTurn);
    FilterConcat(some, [line], IsResultLine);
  }

  lemma SaidWithOneMore(lines: seq<Option<Value>>, show: Rendering)
    requires lines != []
    ensures var (before, said) := ParseAll(FRESH, Init(lines), show);
            ParseAll(FRESH, lines, show).1 == said + Parse(before, Last(lines), show).1
  {
  }

  /** Over a turn's lines, the endings said are those of its `result` lines. */
  lemma {:induction false} LinesEndAs(lines: seq<Option<Value>>, show: Rendering)
    ensures EndsAs(EndingsOf(ParseAll(FRESH, lines, show).1), ResultsOf(lines))
    decreases |lines|
  {
    if lines != [] {
      LinesEndAs(Init(lines), show);
      var (before, said) := ParseAll(FRESH, Init(lines), show);
      var line, more := Last(lines), Parse(before, Last(lines), show).1;
      assert lines == Init(lines) + [line];
      LineEndsAs(before, line, show);
      SaidWithOneMore(lines, show);
      OneLineMore(Init(lines), line, said, more);
      EndsAsBoth(EndingsOf(said), EndingsOf(more), ResultsOf(Init(lines)), ResultsOf([line]));
    }
  }

  /**
   * A turn that said its lines ends as its `result` lines have it, and with one failure if
   * it read none: with one that calls it a success and no other, it is completed, once.
   */
  lemma TurnEndsAsItsLines(turn: seq<Entry>, show: Rendering)
    requires SaidItsLines(turn, show)
    ensures var results, endings := ResultsOf(LinesIn(turn)), EndingsOf(SaidIn(turn));
            && (results != [] ==> EndsAs(endings, results))
            && (results == [] ==> |endings| == 1 && endings[0].TurnFailed?)
            && (|results| == 1 && results[0].Some? && !CallsItFailed(results[0].value) ==>
                 |endings| == 1 && endings[0].TurnCompleted?)
  {
    var lines, heard := LinesIn(turn), SaidIn(turn);
    var said := ParseAll(FRESH, lines, show).1;
    LinesEndAs(lines, show);
    ResultsAreThere(lines);
    if !HasResult(lines) {
      assert heard == said + [Last(heard)];
      FilterConcat(said, [Last(heard)], EndsTurn);
      assert Init([Last(heard)]) == [];
    }
  }

  // ---- Session ids ----

  /** The session's id is the one it said last. */
  function LastId(log: seq<Entry>): Option<string> {
    if log == [] then None
    else
      match Last(log)
      case Own(SessionStarted(id)) => id
      case FromTask(_, SessionStarted(id)) => id
      case _ => LastId(Init(log))
  }

  /** It says an id only when that is another than the last. */
  predicate SaysNews(log: seq<Entry>) {
    log != [] ==>
      && SaysNews(Init(log))
      && match Last(log)
         case FromTask(_, SessionStarted(id)) => id.Some? && id != LastId(Init(log))
         case _ => true
  }

  predicate IdHolds(s: State) {
    && s.externalId == LastId(s.log) && SaysNews(s.log)
    && forall t :: 0 <= t < |s.tasks| ==> s.tasks[t].parser.sessionId.None?
  }

  predicate NamesNone(e: Entry) {
    match e
    case Own(SessionStarted(_)) => false
    case FromTask(_, SessionStarted(_)) => false
    case _ => true
  }

  lemma IdAfterOne(log: seq<Entry>, e: Entry)
    requires SaysNews(log) && NamesNone(e)
    ensures SaysNews(log + [e]) && LastId(log + [e]) == LastId(log)
  {
    assert Init(log + [e]) == log && Last(log + [e]) == e;
  }

  lemma {:induction false} IdAfterTagged(log: seq<Entry>, turn: nat, events: seq<AgentEvent>)
    requires SaysNews(log) && forall e :: e in events ==> !e.SessionStarted?
    ensures SaysNews(log + Tagged(turn, events)) && LastId(log + Tagged(turn, events)) == LastId(log)
    decreases |events|
  {
    if events == [] {
      assert log + Tagged(turn, events) == log;
    } else {
      assert Last(events) in events && forall e :: e in Init(events) ==> e in events;
      IdAfterTagged(log, turn, Init(events));
      TaggedInit(turn, events);
      IdAfterOne(log + Tagged(turn, Init(events)), FromTask(turn, Last(events)));
      assert log + Tagged(turn, events) == log + Tagged(turn, Init(events)) + [FromTask(turn, Last(events))];
    }
  }

  lemma IdAfterNoNews(log: seq<Entry>, t: nat, line: Option<Value>, events: seq<AgentEvent>)
    requires SaysNews(log) && forall e :: e in events ==> !e.SessionStarted?
    ensures SaysNews(log + LineEntries(t, line, events)) && LastId(log + LineEntries(t, line, events)) == LastId(log)
  {
    var marked := log + [LineRead(t + 1, line)];
    IdAfterOne(log, LineRead(t + 1, line));
    IdAfterTagged(marked, t + 1, events);
    assert log + LineEntries(t, line, events) == marked + Tagged(t + 1, events);
  }

  lemma IdAfterNews(log: seq<Entry>, t: nat, line: Option<Value>, events: seq<AgentEvent>, id: Option<string>)
    requires SaysNews(log) && forall e :: e in events ==> !e.SessionStarted?
    requires id.Some? && id != LastId(log)
    ensures var after := log + LineEntries(t, line, events + [SessionStarted(id)]);
            SaysNews(after) && LastId(after) == id
  {
    var news := FromTask(t + 1, SessionStarted(id));
    IdAfterNoNews(log, t, line, events);
    TaggedConcat(t + 1, events, [SessionStarted(id)]);
    assert Tagged(t + 1, [SessionStarted(id)]) == [news];
    var before := log + LineEntries(t, line, events);
    assert log + LineEntries(t, line, events + [SessionStarted(id)]) == before + [news];
    assert Init(before + [news]) == before && Last(before + [news]) == news;
  }

  lemma IdAfterLine(s: State, t: nat, line: Option<Value>, show: Rendering)
    requires IdHolds(s) && Enabled(s, ReadLine(t, line))
    ensures IdHolds(After(s, ReadLine(t, line), show))
  {
    var (parser, events) := Parse(s.tasks[t].parser, line, show);
    ResultLinesEndTurns(s.tasks[t].parser, line, show);
    if IsNews(s, parser.sessionId) {
      IdAfterNews(s.log, t, line, events, parser.sessionId);
    } else {
      IdAfterNoNews(s.log, t, line, events);
      assert events + [] == events;
    }
  }

  lemma IdAfterStep(s: State, step: Step, show: Rendering)
    requires IdHolds(s) && Enabled(s, step)
    ensures IdHolds(After(s, step, show))
  {
    match step
    case ReadLine(t, line) => IdAfterLine(s, t, line, show);
    case Send(spawns) => IdAfterOne(s.log, Own(TurnStarted));
    case Exit(t, message) =>
      var events := if s.tasks[t].parser.finished then [] else [TurnFailed(message)];
      IdAfterTagged(s.log, t + 1, events);
      assert Tagged(t + 1, []) == [];
    case Close => IdAfterOne(s.log, Own(SessionEnded));
    case _ =>
  }

  lemma {:induction false} IdAfterRun(s: State, steps: seq<Step>, show: Rendering)
    requires IdHolds(s) && CanRun(s, steps, show)
    ensures IdHolds(Run(s, steps, show))
    decreases |steps|
  {
    if steps != [] {
      IdAfterStep(s, steps[0], show);
      IdAfterRun(After(s, steps[0], show), steps[1..], show);
    }
  }

  /**
   * In every run the session's id is the last it said, it says one only when that is news,
   * and a line that names one makes it the session's.
   */
  lemma SessionIdIsNamed(resume: Option<string>, steps: seq<Step>, t: nat, line: Value, show: Rendering)
    requires CanRun(Opened(resume), steps, show)
    ensures var s := Run(Opened(resume), steps, show);
            && s.externalId == LastId(s.log) && SaysNews(s.log)
            && (Enabled(s, ReadLine(t, Some(line))) ==>
                 After(s, ReadLine(t, Some(line)), show).externalId
                 == match line.At("session_id")
                    case String(id) =>
                      if line.At("type") == String("result") || IsInitLine(line) then Some(id) else s.externalId
                    case _ => s.externalId)
  {
    assert Init([Own(SessionStarted(resume))]) == [];
    IdAfterRun(Opened(resume), steps, show);
    var s := Run(Opened(resume), steps, show);
    if Enabled(s, ReadLine(t, Some(line))) {
      SessionIdSays(s.tasks[t].parser, line, show);
    }
  }
}

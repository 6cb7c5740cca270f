// A Claude session: one subprocess per turn, read by a task of its own while
// the session goes on taking calls (crates/agent-claude/src/session.rs).
//
// A `Step` is what one thread does between two points where another may run.
// `ClaudeSession` is the object; `After` says what each step leaves. The log
// is the event sink's, with a mark for every line read.
module Session {
  import opened Prelude
  import opened Json
  import opened Events
  import opened Stream

  /** A turn's task: reading lines, waiting for the process, about to free the session, gone. */
  datatype Phase = Reading | Exiting | Releasing | Done

  datatype Task = Task(phase: Phase, parser: ParserState)

  datatype Entry =
    | Own(event: AgentEvent)
    | FromTask(turn: nat, event: AgentEvent)
    | LineRead(turn: nat, line: Option<Value>)

  datatype State = State(
    running: bool, externalId: Option<string>, handle: Option<nat>, tasks: seq<Task>, log: seq<Entry>)

  datatype Step =
    | Send(spawns: bool)
    | ReadLine(task: nat, line: Option<Value>)
    | StopReading(task: nat)
    | Exit(task: nat, message: string)
    | Release(task: nat)
    | Cancel
    | Close

  datatype Refusal = Busy | Spawn

  function Tagged(turn: nat, events: seq<AgentEvent>): seq<Entry> {
    seq(|events|, i requires 0 <= i < |events| => FromTask(turn, events[i]))
  }

  predicate In(s: State, task: nat, phase: Phase) {
    task < |s.tasks| && s.tasks[task].phase == phase
  }

  /** Which steps can be next; a task takes its own in turn, a caller may send, cancel or close at any time. */
  predicate Enabled(s: State, step: Step) {
    match step
    case ReadLine(t, _) => In(s, t, Reading)
    case StopReading(t) => In(s, t, Reading)
    case Exit(t, _) => In(s, t, Exiting)
    case Release(t) => In(s, t, Releasing)
    case _ => true
  }

  function WithPhase(s: State, task: nat, phase: Phase): State
    requires task < |s.tasks|
  {
    s.(tasks := s.tasks[task := s.tasks[task].(phase := phase)])
  }

  /** What a line adds to the log: a mark and what is said about it. */
  function LineEntries(t: nat, line: Option<Value>, said: seq<AgentEvent>): seq<Entry> {
    [LineRead(t + 1, line)] + Tagged(t + 1, said)
  }

  predicate IsNews(s: State, id: Option<string>) {
    id.Some? && id != s.externalId
  }

  /** A line's events, and a session id that is news. */
  function Said(s: State, t: nat, line: Option<Value>, show: Rendering): seq<AgentEvent>
    requires t < |s.tasks|
  {
    var (parser, events) := Parse(s.tasks[t].parser, line, show);
    events + if IsNews(s, parser.sessionId) then [SessionStarted(parser.sessionId)] else []
  }

  function AfterLine(s: State, t: nat, line: Option<Value>, show: Rendering): State
    requires t < |s.tasks|
  {
    var parser := Parse(s.tasks[t].parser, line, show).0;
    s.(tasks := s.tasks[t := s.tasks[t].(parser := parser.(sessionId := None))],
       externalId := if IsNews(s, parser.sessionId) then parser.sessionId else s.externalId,
       log := s.log + LineEntries(t, line, Said(s, t, line, show)))
  }

  function After(s: State, step: Step, show: Rendering): State
    requires Enabled(s, step)
  {
    match step
    case Send(spawns) =>
      if s.running || !spawns then s
      else
        State(true, s.externalId, Some(|s.tasks|), s.tasks + [Task(Reading, FRESH)], s.log + [Own(TurnStarted)])
    case ReadLine(t, line) => AfterLine(s, t, line, show)
    case StopReading(t) => WithPhase(s, t, Exiting)
    case Exit(t, message) =>
      WithPhase(s, t, Releasing).(log := s.log
        + if s.tasks[t].parser.finished then [] else Tagged(t + 1, [TurnFailed(message)]))
    case Release(t) => WithPhase(s, t, Done).(running := false)
    case Cancel => s.(handle := None)
    case Close => s.(handle := None, log := s.log + [Own(SessionEnded)])
  }

  function Opened(resume: Option<string>): State {
    State(false, resume, None, [], [Own(SessionStarted(resume))])
  }

  class ClaudeSession {
    const show: Rendering
    var running: bool
    var externalId: Option<string>
    var handle: Option<nat>
    var tasks: seq<Task>
    var log: seq<Entry>

    function View(): State
      reads this
    {
      State(running, externalId, handle, tasks, log)
    }

    constructor (resume: Option<string>, show: Rendering)
      ensures View() == Opened(resume) && this.show == show
    {
      this.show := show;
      running, externalId, handle, tasks := false, resume, None, [];
      log := [Own(SessionStarted(resume))];
    }

    method SendTurn(spawns: bool) returns (answer: Result<(), Refusal>)
      modifies this
      ensures View() == After(old(View()), Send(spawns), show)
      ensures answer.Ok? <==> !old(running) && spawns
      ensures answer == Err(Busy) <==> old(running)
    {
      var busy := running;
      running := true;
      if busy {
        return Err(Busy);
      }
      if !spawns {
        running := false;
        return Err(Spawn);
      }
      log := log + [Own(TurnStarted)];
      handle := Some(|tasks|);
      tasks := tasks + [Task(Reading, FRESH)];
      return Ok(());
    }

    method TaskReadsLine(t: nat, line: Option<Value>)
      requires Enabled(View(), ReadLine(t, line))
      modifies this
      ensures View() == After(old(View()), ReadLine(t, line), show)
    {
      var (parser, events) := Parse(tasks[t].parser, line, show);
      log := log + [LineRead(t + 1, line)];
      log := log + Tagged(t + 1, events);
      var id := parser.sessionId;
      tasks := tasks[t := tasks[t].(parser := parser.(sessionId := None))];
      if id.Some? && id != externalId {
        externalId := id;
        log := log + Tagged(t + 1, [SessionStarted(id)]);
        assert Tagged(t + 1, events + [SessionStarted(id)])
            == Tagged(t + 1, events) + Tagged(t + 1, [SessionStarted(id)]);
      } else {
        assert events + [] == events;
      }
    }

    /** The output ends, cannot be read, or the turn is killed. */
    method TaskStopsReading(t: nat)
      requires Enabled(View(), StopReading(t))
      modifies this`tasks
      ensures View() == After(old(View()), StopReading(t), show)
    {
      tasks := tasks[t := tasks[t].(phase := Exiting)];
    }

    method ProcessExits(t: nat, message: string)
      requires Enabled(View(), Exit(t, message))
      modifies this`tasks, this`log
      ensures View() == After(old(View()), Exit(t, message), show)
    {
      if !tasks[t].parser.finished {
        log := log + [FromTask(t + 1, TurnFailed(message))];
        assert Tagged(t + 1, [TurnFailed(message)]) == [FromTask(t + 1, TurnFailed(message))];
      }
      tasks := tasks[t := tasks[t].(phase := Releasing)];
    }

    method TaskReleases(t: nat)
      requires Enabled(View(), Release(t))
      modifies this`tasks, this`running
      ensures View() == After(old(View()), Release(t), show)
    {
      running := false;
      tasks := tasks[t := tasks[t].(phase := Done)];
    }

    /** Signals the process and lets go of it; what it still says comes as steps of its task. */
    method CancelTurn()
      modifies this`handle
      ensures View() == After(old(View()), Cancel, show)
    {
      handle := None;
    }

    method CloseSession()
      modifies this`handle, this`log
      ensures View() == After(old(View()), Close, show)
    {
      CancelTurn();
      log := log + [Own(SessionEnded)];
    }
  }

  // ---- Reading the log ----

  predicate Starts(e: Entry) {
    e == Own(TurnStarted)
  }

  function TurnsStarted(log: seq<Entry>): nat {
    Tally(log, Starts)
  }

  /** The entries since the last turn started. */
  function Since(log: seq<Entry>): seq<Entry> {
    if log == [] || Starts(Last(log)) then [] else Since(Init(log)) + [Last(log)]
  }

  predicate IsEnd(e: Entry) {
    e.FromTask? && e.event.IsTerminal()
  }

  predicate IsResultRead(e: Entry) {
    e.LineRead? && IsResultLine(e.line)
  }

  function Ends(log: seq<Entry>): nat {
    Tally(log, IsEnd)
  }

  function ResultsRead(log: seq<Entry>): nat {
    Tally(log, IsResultRead)
  }

  /** As many ends as `result` lines, and one if there was none. */
  predicate EndedOnce(turn: seq<Entry>) {
    Ends(turn) == if ResultsRead(turn) == 0 then 1 else ResultsRead(turn)
  }

  predicate OfTurn(e: Entry, turn: nat) {
    (e.FromTask? ==> e.turn == turn) && (e.LineRead? ==> e.turn == turn)
  }

  /** Every turn but the last has ended. */
  predicate PastTurnsEnded(log: seq<Entry>) {
    log != [] ==>
      && PastTurnsEnded(Init(log))
      && (Starts(Last(log)) && TurnsStarted(Init(log)) > 0 ==> EndedOnce(Since(Init(log))))
  }

  /** What a task says or reads is its own turn's, while that turn is the latest. */
  predicate TurnsInOrder(log: seq<Entry>) {
    log != [] ==> TurnsInOrder(Init(log)) && OfTurn(Last(log), TurnsStarted(Init(log)))
  }

  predicate LastTurnFits(task: Task, turn: seq<Entry>) {
    if task.phase in {Releasing, Done} then EndedOnce(turn)
    else Ends(turn) == ResultsRead(turn) && (task.parser.finished <==> ResultsRead(turn) > 0)
  }

  predicate Alive(t: Task) {
    !t.phase.Done?
  }

  predicate OneAlive(s: State) {
    && (forall t :: 0 <= t < |s.tasks| - 1 ==> !Alive(s.tasks[t]))
    && (s.running <==> s.tasks != [] && Alive(Last(s.tasks)))
  }

  predicate Inv(s: State) {
    && OneAlive(s)
    && TurnsStarted(s.log) == |s.tasks|
    && PastTurnsEnded(s.log)
    && TurnsInOrder(s.log)
    && (s.tasks != [] ==> LastTurnFits(Last(s.tasks), Since(s.log)))
  }

  // ---- Adding to the log ----

  predicate Quiet(more: seq<Entry>) {
    forall e :: e in more ==> !Starts(e)
  }

  lemma LogWith(log: seq<Entry>, e: Entry)
    ensures Init(log + [e]) == log && Last(log + [e]) == e
    ensures TurnsStarted(log + [e]) == TurnsStarted(log) + (if Starts(e) then 1 else 0)
    ensures Ends(log + [e]) == Ends(log) + (if e.FromTask? && e.event.IsTerminal() then 1 else 0)
    ensures ResultsRead(log + [e]) == ResultsRead(log) + (if e.LineRead? && IsResultLine(e.line) then 1 else 0)
    ensures Since(log + [e]) == if Starts(e) then [] else Since(log) + [e]
  {
    assert Init(log + [e]) == log;
  }

  lemma QuietWith(log: seq<Entry>, e: Entry)
    requires !Starts(e) && PastTurnsEnded(log) && TurnsInOrder(log) && OfTurn(e, TurnsStarted(log))
    ensures PastTurnsEnded(log + [e]) && TurnsInOrder(log + [e])
  {
    LogWith(log, e);
  }

  lemma SinceWith(log: seq<Entry>, e: Entry)
    requires !Starts(e)
    ensures Since(log + [e]) == Since(log) + [e]
  {
    LogWith(log, e);
  }

  lemma {:induction false} QuietSince(log: seq<Entry>, more: seq<Entry>)
    requires Quiet(more)
    ensures Since(log + more) == Since(log) + more
    decreases |more|
  {
    if more == [] {
      assert log + more == log;
    } else {
      var e, before := Last(more), log + Init(more);
      assert e in more && forall e :: e in Init(more) ==> e in more;
      QuietSince(log, Init(more));
      SinceWith(before, e);
      assert log + more == before + [e];
      assert Since(log) + Init(more) + [e] == Since(log) + more;
    }
  }

  lemma QuietExtends(log: seq<Entry>, more: seq<Entry>)
    requires Quiet(more)
    ensures TurnsStarted(log + more) == TurnsStarted(log)
    ensures Since(log + more) == Since(log) + more
  {
    TallyConcat(log, more, Starts);
    TallyNone(more, Starts);
    QuietSince(log, more);
  }

  predicate AllOfTurn(more: seq<Entry>, turn: nat) {
    forall e :: e in more ==> OfTurn(e, turn)
  }

  lemma QuietInit(more: seq<Entry>, turn: nat)
    requires more != [] && Quiet(more) && AllOfTurn(more, turn)
    ensures Quiet(Init(more)) && AllOfTurn(Init(more), turn)
    ensures !Starts(Last(more)) && OfTurn(Last(more), turn)
  {
    assert Last(more) in more && forall e :: e in Init(more) ==> e in more;
  }

  lemma {:induction false} QuietKeepsTurns(log: seq<Entry>, more: seq<Entry>)
    requires Quiet(more) && PastTurnsEnded(log) && TurnsInOrder(log) && AllOfTurn(more, TurnsStarted(log))
    ensures PastTurnsEnded(log + more) && TurnsInOrder(log + more)
    decreases |more|
  {
    if more == [] {
      assert log + more == log;
    } else {
      var before := log + Init(more);
      QuietInit(more, TurnsStarted(log));
      QuietKeepsTurns(log, Init(more));
      QuietExtends(log, Init(more));
      QuietWith(before, Last(more));
      assert log + more == before + [Last(more)];
    }
  }

  lemma {:induction false} TaggedCounts(turn: nat, events: seq<AgentEvent>)
    ensures Ends(Tagged(turn, events)) == Terminals(events)
    ensures ResultsRead(Tagged(turn, events)) == 0
    ensures forall e :: e in Tagged(turn, events) ==> e.FromTask? && e.turn == turn
    decreases |events|
  {
    if events != [] {
      TaggedCounts(turn, Init(events));
      assert Tagged(turn, events) == Tagged(turn, Init(events)) + [FromTask(turn, Last(events))];
      LogWith(Tagged(turn, Init(events)), FromTask(turn, Last(events)));
    }
  }

  lemma CountsConcat(a: seq<Entry>, b: seq<Entry>)
    ensures Ends(a + b) == Ends(a) + Ends(b)
    ensures ResultsRead(a + b) == ResultsRead(a) + ResultsRead(b)
  {
    TallyConcat(a, b, IsEnd);
    TallyConcat(a, b, IsResultRead);
  }

  // ---- Every step keeps the invariant ----

  lemma OnlyLastAlive(s: State, t: nat)
    requires OneAlive(s) && t < |s.tasks| && Alive(s.tasks[t])
    ensures t == |s.tasks| - 1 && s.running
  {
  }

  lemma SendKeepsInv(s: State, spawns: bool, show: Rendering)
    requires Inv(s)
    ensures Inv(After(s, Send(spawns), show))
  {
    if !s.running && spawns {
      LogWith(s.log, Own(TurnStarted));
      var after := After(s, Send(spawns), show);
      assert Last(after.tasks) == Task(Reading, FRESH);
      assert OneAlive(after);
    }
  }

  /** A task's own step: it stays the last and, unless it is done, the one alive. */
  lemma TaskKeepsInv(s: State, after: State, t: nat, task: Task, more: seq<Entry>)
    requires Inv(s) && t < |s.tasks| && Alive(s.tasks[t])
    requires after.tasks == s.tasks[t := task] && after.running == Alive(task) && after.log == s.log + more
    requires Quiet(more) && AllOfTurn(more, t + 1)
    requires LastTurnFits(s.tasks[t], Since(s.log)) ==> LastTurnFits(task, Since(s.log) + more)
    ensures Inv(after)
  {
    OnlyLastAlive(s, t);
    assert Last(after.tasks) == task && Last(s.tasks) == s.tasks[t];
    QuietKeepsTurns(s.log, more);
    QuietExtends(s.log, more);
  }

  lemma LineEntriesOwn(t: nat, line: Option<Value>, said: seq<AgentEvent>)
    ensures Quiet(LineEntries(t, line, said)) && AllOfTurn(LineEntries(t, line, said), t + 1)
  {
    TaggedCounts(t + 1, said);
  }

  lemma LineEntriesCount(turn: seq<Entry>, t: nat, line: Option<Value>, said: seq<AgentEvent>)
    ensures var more := LineEntries(t, line, said);
            && Ends(turn + more) == Ends(turn) + Terminals(said)
            && ResultsRead(turn + more) == ResultsRead(turn) + (if IsResultLine(line) then 1 else 0)
  {
    var mark, tagged := LineRead(t + 1, line), Tagged(t + 1, said);
    TaggedCounts(t + 1, said);
    CountsConcat(turn, [mark] + tagged);
    CountsConcat([mark], tagged);
    TallyOne(mark, IsEnd);
    TallyOne(mark, IsResultRead);
  }

  /** A reading task stays one, and what it says ends the turn exactly on a `result` line. */
  predicate ReadsOn(was: Task, task: Task, line: Option<Value>, said: seq<AgentEvent>) {
    && was.phase.Reading? && task.phase.Reading?
    && Terminals(said) == (if IsResultLine(line) then 1 else 0)
    && task.parser.finished == (was.parser.finished || IsResultLine(line))
  }

  lemma LineFits(was: Task, task: Task, turn: seq<Entry>, t: nat, line: Option<Value>, said: seq<AgentEvent>)
    requires ReadsOn(was, task, line, said) && LastTurnFits(was, turn)
    ensures LastTurnFits(task, turn + LineEntries(t, line, said))
  {
    LineEntriesCount(turn, t, line, said);
  }

  lemma LineReadsOn(s: State, t: nat, line: Option<Value>, show: Rendering)
    requires Enabled(s, ReadLine(t, line))
    ensures ReadsOn(s.tasks[t], AfterLine(s, t, line, show).tasks[t], line, Said(s, t, line, show))
  {
    var (parser, events) := Parse(s.tasks[t].parser, line, show);
    ResultLinesEndTurns(s.tasks[t].parser, line, show);
    SaidTerminals(events, parser.sessionId, IsNews(s, parser.sessionId));
  }

  lemma LineKeepsInv(s: State, t: nat, line: Option<Value>, show: Rendering)
    requires Inv(s) && Enabled(s, ReadLine(t, line))
    ensures Inv(After(s, ReadLine(t, line), show))
  {
    var said, after := Said(s, t, line, show), AfterLine(s, t, line, show);
    LineReadsOn(s, t, line, show);
    LineEntriesOwn(t, line, said);
    OnlyLastAlive(s, t);
    if LastTurnFits(s.tasks[t], Since(s.log)) {
      LineFits(s.tasks[t], after.tasks[t], Since(s.log), t, line, said);
    }
    TaskKeepsInv(s, after, t, after.tasks[t], LineEntries(t, line, said));
  }

  lemma SaidTerminals(events: seq<AgentEvent>, id: Option<string>, news: bool)
    ensures Terminals(events + if news then [SessionStarted(id)] else []) == Terminals(events)
  {
    if news {
      assert Init(events + [SessionStarted(id)]) == events;
    } else {
      assert events + [] == events;
    }
  }

  lemma FailureTagged(t: nat, turn: seq<Entry>, message: string)
    ensures var e := FromTask(t + 1, TurnFailed(message));
            && Tagged(t + 1, [TurnFailed(message)]) == [e]
            && Ends(turn + [e]) == Ends(turn) + 1 && ResultsRead(turn + [e]) == ResultsRead(turn)
  {
    assert Init([TurnFailed(message)]) == [];
    LogWith(turn, FromTask(t + 1, TurnFailed(message)));
  }

  lemma ExitKeepsInv(s: State, t: nat, message: string, show: Rendering)
    requires Inv(s) && Enabled(s, Exit(t, message))
    ensures Inv(After(s, Exit(t, message), show))
  {
    OnlyLastAlive(s, t);
    var after := After(s, Exit(t, message), show);
    if s.tasks[t].parser.finished {
      assert s.log + [] == s.log && Since(s.log) + [] == Since(s.log);
      TaskKeepsInv(s, after, t, after.tasks[t], []);
    } else {
      FailureTagged(t, Since(s.log), message);
      TaskKeepsInv(s, after, t, after.tasks[t], [FromTask(t + 1, TurnFailed(message))]);
    }
  }

  lemma PhaseKeepsInv(s: State, t: nat, phase: Phase)
    requires Inv(s) && t < |s.tasks|
    requires (s.tasks[t].phase.Reading? && phase.Exiting?) || (s.tasks[t].phase.Releasing? && phase.Done?)
    ensures Inv(WithPhase(s, t, phase).(running := !phase.Done?))
  {
    var after := WithPhase(s, t, phase).(running := !phase.Done?);
    OnlyLastAlive(s, t);
    assert s.log + [] == s.log && Since(s.log) + [] == Since(s.log);
    TaskKeepsInv(s, after, t, after.tasks[t], []);
  }

  lemma CloseKeepsInv(s: State, show: Rendering)
    requires Inv(s)
    ensures Inv(After(s, Close, show))
  {
    QuietKeepsTurns(s.log, [Own(SessionEnded)]);
    QuietExtends(s.log, [Own(SessionEnded)]);
    LogWith(Since(s.log), Own(SessionEnded));
  }

  lemma StepKeepsInv(s: State, step: Step, show: Rendering)
    requires Inv(s) && Enabled(s, step)
    ensures Inv(After(s, step, show))
  {
    match step
    case Send(spawns) => SendKeepsInv(s, spawns, show);
    case ReadLine(t, line) => LineKeepsInv(s, t, line, show);
    case Exit(t, message) => ExitKeepsInv(s, t, message, show);
    case StopReading(t) =>
      OnlyLastAlive(s, t);
      PhaseKeepsInv(s, t, Exiting);
    case Release(t) => PhaseKeepsInv(s, t, Done);
    case Cancel =>
    case Close => CloseKeepsInv(s, show);
  }

  // ---- Whole runs ----

  predicate CanRun(s: State, steps: seq<Step>, show: Rendering)
    decreases |steps|
  {
    steps == [] || (Enabled(s, steps[0]) && CanRun(After(s, steps[0], show), steps[1..], show))
  }

  function Run(s: State, steps: seq<Step>, show: Rendering): State
    requires CanRun(s, steps, show)
    decreases |steps|
  {
    if steps == [] then s else Run(After(s, steps[0], show), steps[1..], show)
  }

  lemma {:induction false} RunKeepsInv(s: State, steps: seq<Step>, show: Rendering)
    requires Inv(s) && CanRun(s, steps, show)
    ensures Inv(Run(s, steps, show))
    decreases |steps|
  {
    if steps != [] {
      StepKeepsInv(s, steps[0], show);
      RunKeepsInv(After(s, steps[0], show), steps[1..], show);
    }
  }

  /** The entries of the turn started at `i` and before the one started at `j`. */
  predicate NextTurn(log: seq<Entry>, i: nat, j: nat) {
    && i < j < |log| && Starts(log[i]) && Starts(log[j])
    && forall k :: i < k < j ==> !Starts(log[k])
  }

  lemma {:induction false} SinceIsTurn(log: seq<Entry>, i: nat)
    requires i < |log| && Starts(log[i]) && forall k :: i < k < |log| ==> !Starts(log[k])
    ensures Since(log) == log[i + 1..] && TurnsStarted(log) > 0
    decreases |log|
  {
    if i < |log| - 1 {
      SinceIsTurn(Init(log), i);
      assert log[i + 1..] == Init(log)[i + 1..] + [Last(log)];
    }
  }

  lemma {:induction false} PastTurnEnded(log: seq<Entry>, i: nat, j: nat)
    requires PastTurnsEnded(log) && NextTurn(log, i, j)
    ensures EndedOnce(log[i + 1..j])
    decreases |log|
  {
    if j == |log| - 1 {
      SinceIsTurn(Init(log), i);
      assert Init(log)[i + 1..] == log[i + 1..j];
    } else {
      PastTurnEnded(Init(log), i, j);
      assert Init(log)[i + 1..j] == log[i + 1..j];
    }
  }

  /** The entry at `k` comes after the turn started at `i`, with no other started since. */
  predicate InTurn(log: seq<Entry>, i: nat, k: nat) {
    i < k < |log| && Starts(log[i]) && forall m :: i < m <= k ==> !Starts(log[m])
  }

  lemma {:induction false} OwnTurnBetween(log: seq<Entry>, i: nat, k: nat)
    requires TurnsInOrder(log) && InTurn(log, i, k)
    ensures OfTurn(log[k], TurnsStarted(log[..i + 1]))
    ensures TurnsStarted(log[..k + 1]) == TurnsStarted(log[..i + 1])
    decreases |log| + k
  {
    if k < |log| - 1 {
      OwnTurnBetween(Init(log), i, k);
      InitTakes(log, i + 1);
      InitTakes(log, k + 1);
    } else {
      assert log[..k + 1] == log && Init(log) == log[..k];
      if k > i + 1 {
        OwnTurnBetween(Init(log), i, k - 1);
        assert Init(log)[..i + 1] == log[..i + 1] && Init(log)[..k] == log[..k];
      }
    }
  }

  /**
   * In every run of a session, every turn that another follows has ended: with as many ends
   * as `result` lines were read in it, or one if there was none; and so has the last turn
   * once the session is free. All that is said and read after a turn is started and before
   * the next is, if there is a next, is that turn's own.
   */
  lemma EveryTurnEnds(resume: Option<string>, steps: seq<Step>, show: Rendering)
    requires CanRun(Opened(resume), steps, show)
    ensures var s := Run(Opened(resume), steps, show);
            && (forall i: nat, j: nat :: NextTurn(s.log, i, j) ==> EndedOnce(s.log[i + 1..j]))
            && (forall i: nat, k: nat :: InTurn(s.log, i, k) ==> OfTurn(s.log[k], TurnsStarted(s.log[..i + 1])))
            && (!s.running && TurnsStarted(s.log) > 0 ==> EndedOnce(Since(s.log)))
  {
    OpenedHoldsInv(resume);
    RunKeepsInv(Opened(resume), steps, show);
    var log := Run(Opened(resume), steps, show).log;
    forall i: nat, j: nat | NextTurn(log, i, j)
      ensures EndedOnce(log[i + 1..j])
    {
      PastTurnEnded(log, i, j);
    }
    forall i: nat, k: nat | InTurn(log, i, k)
      ensures OfTurn(log[k], TurnsStarted(log[..i + 1]))
    {
      OwnTurnBetween(log, i, k);
    }
  }

  lemma OpenedHoldsInv(resume: Option<string>)
    ensures Inv(Opened(resume))
  {
    LogWith([], Own(SessionStarted(resume)));
    assert [] + [Own(SessionStarted(resume))] == Opened(resume).log;
  }

  /** At most one task is alive, and exactly while the session is busy. */
  lemma AtMostOneTask(resume: Option<string>, steps: seq<Step>, show: Rendering)
    requires CanRun(Opened(resume), steps, show)
    ensures var s := Run(Opened(resume), steps, show);
            && (forall t, u :: 0 <= t < |s.tasks| && 0 <= u < |s.tasks| && Alive(s.tasks[t]) && Alive(s.tasks[u])
                 ==> t == u)
            && (s.running <==> exists t :: 0 <= t < |s.tasks| && Alive(s.tasks[t]))
  {
    OpenedHoldsInv(resume);
    RunKeepsInv(Opened(resume), steps, show);
    var s := Run(Opened(resume), steps, show);
    if s.running {
      assert Alive(s.tasks[|s.tasks| - 1]);
    }
  }
}

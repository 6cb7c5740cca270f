// What a session's callers see of it: which turn a cancel is for, and what opening and closing say.
module SessionCalls {
  import opened Prelude
  import opened Events
  import opened Stream
  import opened Session

  predicate LetsGo(step: Step) {
    step == Cancel || step == Close
  }

  /** The turn started last is the one held, if any was started; otherwise what was held before. */
  lemma {:induction false} HeldUnlessLetGo(s: State, steps: seq<Step>, show: Rendering)
    requires CanRun(s, steps, show) && forall step :: step in steps ==> !LetsGo(step)
    ensures var now := Run(s, steps, show);
            && |now.tasks| >= |s.tasks|
            && now.handle == if |now.tasks| > |s.tasks| then Some(|now.tasks| - 1) else s.handle
    decreases |steps|
  {
    if steps != [] {
      assert steps[0] in steps && forall step :: step in steps[1..] ==> step in steps;
      HeldUnlessLetGo(After(s, steps[0], show), steps[1..], show);
    }
  }

  /** A cancel is for the turn started last, and for none where that was cancelled or the session closed since. */
  lemma CancelsTheLatest(s: State, letGo: Step, since: seq<Step>, show: Rendering)
    requires LetsGo(letGo) && CanRun(After(s, letGo, show), since, show)
    requires forall step :: step in since ==> !LetsGo(step)
    ensures var now := Run(After(s, letGo, show), since, show);
            now.handle == if |now.tasks| > |s.tasks| then Some(|now.tasks| - 1) else None
  {
    HeldUnlessLetGo(After(s, letGo, show), since, show);
  }

  /** The process's end fails the turn with the process's message, exactly if the turn has read no `result` line. */
  lemma ExitFailsExactly(resume: Option<string>, steps: seq<Step>, t: nat, message: string, show: Rendering)
    requires CanRun(Opened(resume), steps, show)
    requires Enabled(Run(Opened(resume), steps, show), Exit(t, message))
    ensures var s := Run(Opened(resume), steps, show);
            After(s, Exit(t, message), show).log
            == s.log + if ResultsRead(Since(s.log)) > 0 then [] else [FromTask(t + 1, TurnFailed(message))]
  {
    var s := Run(Opened(resume), steps, show);
    OpenedHoldsInv(resume);
    RunKeepsInv(Opened(resume), steps, show);
    OnlyLastAlive(s, t);
    assert Tagged(t + 1, [TurnFailed(message)]) == [FromTask(t + 1, TurnFailed(message))];
    assert s.log + [] == s.log;
  }

  // ---- What is said of the session itself ----

  predicate IsClose(step: Step) {
    step == Close
  }

  predicate SaysClosed(e: Entry) {
    e == Own(SessionEnded)
  }

  /** Its start, its turns' starts and its ends are all a session says itself. */
  predicate IsOwn(e: Entry) {
    e.Own?
  }

  lemma {:induction false} NoneOwn(more: seq<Entry>)
    requires forall e :: e in more ==> !e.Own?
    ensures Tally(more, SaysClosed) == 0 && Tally(more, IsOwn) == 0
  {
    TallyNone(more, SaysClosed);
    TallyNone(more, IsOwn);
  }

  /** What a step adds to the log. */
  lemma StepAdds(s: State, step: Step, show: Rendering) returns (more: seq<Entry>)
    requires Enabled(s, step)
    ensures After(s, step, show).log == s.log + more
    ensures Tally(more, SaysClosed) == (if step == Close then 1 else 0)
    ensures Tally(more, IsOwn) == |After(s, step, show).tasks| - |s.tasks| + (if step == Close then 1 else 0)
  {
    match step
    case Send(spawns) =>
      more := if s.running || !spawns then [] else [Own(TurnStarted)];
      TallyOne(Own(TurnStarted), SaysClosed);
      TallyOne(Own(TurnStarted), IsOwn);
    case ReadLine(t, line) =>
      more := LineEntries(t, line, Said(s, t, line, show));
      NoneOwn(more);
    case Exit(t, message) =>
      more := if s.tasks[t].parser.finished then [] else Tagged(t + 1, [TurnFailed(message)]);
      NoneOwn(more);
    case Close =>
      more := [Own(SessionEnded)];
      TallyOne(Own(SessionEnded), SaysClosed);
      TallyOne(Own(SessionEnded), IsOwn);
    case _ => more := [];
  }

  lemma {:induction false} RunAdds(s: State, steps: seq<Step>, show: Rendering)
    requires CanRun(s, steps, show)
    ensures s.log <= Run(s, steps, show).log
    ensures var now := Run(s, steps, show);
            && Tally(now.log, SaysClosed) == Tally(s.log, SaysClosed) + Tally(steps, IsClose)
            && Tally(now.log, IsOwn) == Tally(s.log, IsOwn) + |now.tasks| - |s.tasks| + Tally(steps, IsClose)
    decreases |steps|
  {
    if steps != [] {
      var more := StepAdds(s, steps[0], show);
      TallyConcat(s.log, more, SaysClosed);
      TallyConcat(s.log, more, IsOwn);
      TallyConcat([steps[0]], steps[1..], IsClose);
      TallyOne(steps[0], IsClose);
      assert steps == [steps[0]] + steps[1..];
      RunAdds(After(s, steps[0], show), steps[1..], show);
    }
  }

  /**
   * Over any run a session first says which session it takes up, then that it ended as often as it
   * was closed, and besides only its turns' starts.
   */
  lemma OpensAndCloses(resume: Option<string>, steps: seq<Step>, show: Rendering)
    requires CanRun(Opened(resume), steps, show)
    ensures var s := Run(Opened(resume), steps, show);
            && s.log != [] && s.log[0] == Own(SessionStarted(resume))
            && Tally(s.log, SaysClosed) == Tally(steps, IsClose)
            && Tally(s.log, IsOwn) == 1 + |s.tasks| + Tally(steps, IsClose)
  {
    RunAdds(Opened(resume), steps, show);
    TallyOne(Own(SessionStarted(resume)), SaysClosed);
    TallyOne(Own(SessionStarted(resume)), IsOwn);
  }
}

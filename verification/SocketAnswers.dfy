// What a call returns, exactly: over every interleaving of one connection's tasks, by what
// happened to the call and nothing else.
module SocketAnswers {
  import opened Prelude
  import opened Json
  import opened Socket
  import opened SocketLaws

  // ---- What happened to a call ----

  /** Its write fails, or its caller drops it. */
  predicate GivesUp(step: Step, id: nat) {
    step == FailWrite(id) || step == Leave(id)
  }

  /** The reader has a reply for the call, whose frame went out whole and which is not back yet. */
  predicate BringsReply(s: System, step: Step, id: nat) {
    && step.Route? && s.replies != [] && s.replies[0].id == id
    && (At(s.client, id, Delivered) || At(s.client, id, Awaiting))
  }

  predicate GaveUp(steps: seq<Step>, id: nat) {
    exists step :: step in steps && GivesUp(step, id)
  }

  predicate ReplyCame(s: System, steps: seq<Step>, tools: set<string>, id: nat)
    requires CanRun(s, steps, tools)
    decreases |steps|
  {
    steps != [] && (BringsReply(s, steps[0], id) || ReplyCame(After(s, steps[0], tools), steps[1..], tools, id))
  }

  /** What the agent reads when the app is not there. */
  predicate SaysNotThere(o: Outcome) {
    o.Failure? && o.code == "app_unavailable" && o.message == "Kaluta is not running or closed this session"
  }

  predicate SaysNoSuchTool(o: Outcome, tool: string) {
    o.Failure? && o.code == "unknown_tool" && o.message == "there is no tool named " + tool
  }

  // ---- What it has come to ----

  /** A call's state by what happened so far: whether a reply came, and whether it gave up. */
  predicate Stands(s: System, id: nat, came: bool, gaveUp: bool) {
    if id !in s.client.calls then !came && !gaveUp
    else
      var call := s.client.calls[id];
      match call.phase
      case Numbered => !came && !gaveUp
      case Returned(outcome) =>
        if gaveUp then outcome == UNAVAILABLE
        else if came then Answered(s, id, outcome)
        else outcome == UNAVAILABLE && s.client.pending.None?
      case _ =>
        && !gaveUp
        && (if came then call.channel.Filled? && Answered(s, id, call.channel.outcome)
            else !call.channel.Filled? && (call.channel.Dropped? ==> s.client.pending.None?))
  }

  predicate IsCallStep(step: Step) {
    step.Register? || step.Deliver? || step.FinishWrite? || step.FailWrite? || step.Leave? || step.Wake?
  }

  lemma CallStepStands(s: System, step: Step, tools: set<string>, id: nat, came: bool, gaveUp: bool)
    requires Inv(s, tools) && Enabled(s, step) && Stands(s, id, came, gaveUp) && IsCallStep(step)
    ensures Stands(After(s, step, tools), id, came, gaveUp || GivesUp(step, id))
  {
    if id in s.client.calls {
      assert CallInv(s, id, s.client.calls[id]);
    }
  }

  lemma ServerStepStands(s: System, step: Step, tools: set<string>, id: nat, came: bool, gaveUp: bool)
    requires Inv(s, tools) && Enabled(s, step) && Stands(s, id, came, gaveUp)
    requires step.Accept? || step.Answer? || step.WriteReply? || step.StopWriting? || step.StopReading?
    ensures Stands(After(s, step, tools), id, came, gaveUp)
  {
    var after := After(s, step, tools);
    assert after.client == s.client;
    assert forall o :: Answered(s, id, o) ==> Answered(after, id, o);
  }

  lemma EndStands(s: System, tools: set<string>, id: nat, came: bool, gaveUp: bool)
    requires Inv(s, tools) && Stands(s, id, came, gaveUp)
    ensures Stands(After(s, EndReader, tools), id, came, gaveUp)
  {
    if id in s.client.calls {
      assert CallInv(s, id, s.client.calls[id]);
    }
  }

  lemma RouteStands(s: System, tools: set<string>, id: nat, came: bool, gaveUp: bool)
    requires Inv(s, tools) && Enabled(s, Route) && Stands(s, id, came, gaveUp)
    ensures Stands(After(s, Route, tools), id, came || BringsReply(s, Route, id), gaveUp)
  {
    var reply := s.replies[0];
    assert reply in s.replies;
    assert Answered(s, reply.id, reply.outcome);
    if id in s.client.calls {
      assert CallInv(s, id, s.client.calls[id]);
    }
  }

  lemma NumberStands(s: System, tool: string, arguments: Value, tools: set<string>, id: nat, came: bool, gaveUp: bool)
    requires Inv(s, tools) && Stands(s, id, came, gaveUp)
    ensures Stands(After(s, Number(tool, arguments), tools), id, came, gaveUp)
  {
    assert s.client.nextId !in s.client.calls;
  }

  lemma OtherStepStands(s: System, step: Step, tools: set<string>, id: nat, came: bool, gaveUp: bool)
    requires Inv(s, tools) && Enabled(s, step) && Stands(s, id, came, gaveUp) && !IsCallStep(step)
    ensures Stands(After(s, step, tools), id, came || BringsReply(s, step, id), gaveUp)
  {
    match step
    case Number(tool, arguments) => NumberStands(s, tool, arguments, tools, id, came, gaveUp);
    case Route => RouteStands(s, tools, id, came, gaveUp);
    case EndReader => EndStands(s, tools, id, came, gaveUp);
    case _ => ServerStepStands(s, step, tools, id, came, gaveUp);
  }

  lemma StandsStep(s: System, step: Step, tools: set<string>, id: nat, came: bool, gaveUp: bool)
    requires Inv(s, tools) && Enabled(s, step) && Stands(s, id, came, gaveUp)
    ensures Stands(After(s, step, tools), id, came || BringsReply(s, step, id), gaveUp || GivesUp(step, id))
  {
    if IsCallStep(step) {
      CallStepStands(s, step, tools, id, came, gaveUp);
    } else {
      OtherStepStands(s, step, tools, id, came, gaveUp);
    }
  }

  lemma GaveUpMore(steps: seq<Step>, id: nat)
    requires steps != []
    ensures GaveUp(steps, id) <==> GivesUp(steps[0], id) || GaveUp(steps[1..], id)
  {
    assert steps == [steps[0]] + steps[1..];
  }

  lemma {:induction false} StandsAfter(s: System, steps: seq<Step>, tools: set<string>, id: nat, came: bool,
      gaveUp: bool)
    requires Inv(s, tools) && CanRun(s, steps, tools) && Stands(s, id, came, gaveUp)
    ensures Stands(Run(s, steps, tools), id, came || ReplyCame(s, steps, tools, id), gaveUp || GaveUp(steps, id))
    decreases |steps|
  {
    if steps != [] {
      StandsStep(s, steps[0], tools, id, came, gaveUp);
      StepKeepsInv(s, steps[0], tools);
      StandsAfter(After(s, steps[0], tools), steps[1..], tools, id,
          came || BringsReply(s, steps[0], id), gaveUp || GivesUp(steps[0], id));
      GaveUpMore(steps, id);
    }
  }

  lemma {:induction false} ReaderEnds(s: System, steps: seq<Step>, tools: set<string>)
    requires CanRun(s, steps, tools) && s.client.pending.Some?
    ensures Run(s, steps, tools).client.pending.None? <==> EndReader in steps
    decreases |steps|
  {
    if steps != [] {
      assert steps == [steps[0]] + steps[1..];
      if steps[0] == EndReader {
        StaysEnded(After(s, steps[0], tools), steps[1..], tools);
      } else {
        ReaderEnds(After(s, steps[0], tools), steps[1..], tools);
      }
    }
  }

  lemma {:induction false} StaysEnded(s: System, steps: seq<Step>, tools: set<string>)
    requires CanRun(s, steps, tools) && s.client.pending.None?
    ensures Run(s, steps, tools).client.pending.None?
    decreases |steps|
  {
    if steps != [] {
      StaysEnded(After(s, steps[0], tools), steps[1..], tools);
    }
  }

  /**
   * In every interleaving, what a call returns is settled by what happened to it: if its
   * write failed or it was dropped, that the app is not there; else, if its reply came while
   * it was waiting, what the server answered; else that the app is not there, and then the
   * reader has ended.
   */
  lemma ReturnsExactly(steps: seq<Step>, tools: set<string>, id: nat)
    requires CanRun(START, steps, tools)
    requires id in Run(START, steps, tools).client.calls
    requires Run(START, steps, tools).client.calls[id].phase.Returned?
    ensures var s := Run(START, steps, tools); var outcome := s.client.calls[id].phase.outcome;
            if GaveUp(steps, id) then SaysNotThere(outcome)
            else if ReplyCame(START, steps, tools, id) then Answered(s, id, outcome)
            else SaysNotThere(outcome) && EndReader in steps
  {
    StandsAfter(START, steps, tools, id, false, false);
    ReaderEnds(START, steps, tools);
  }

  // ---- After the shim is gone ----

  /** Once the server has stopped reading, nothing it was serving is answered any more, in any run. */
  lemma {:induction false} StoppedAnswersNoMore(s: System, steps: seq<Step>, tools: set<string>)
    requires !s.server.reading && s.server.serving == {} && CanRun(s, steps, tools)
    ensures Run(s, steps, tools).server.answered == s.server.answered
    decreases |steps|
  {
    if steps != [] {
      StoppedAnswersNoMore(After(s, steps[0], tools), steps[1..], tools);
    }
  }

  lemma StopsServing(s: System, steps: seq<Step>, tools: set<string>)
    requires CanRun(After(s, StopReading, tools), steps, tools)
    ensures Run(After(s, StopReading, tools), steps, tools).server.answered == s.server.answered
  {
    StoppedAnswersNoMore(After(s, StopReading, tools), steps, tools);
  }

  /** Once the writer has stopped, no further reply is written, in any run. */
  lemma {:induction false} StoppedWritesNoMore(s: System, steps: seq<Step>, tools: set<string>)
    requires !s.server.writing && CanRun(s, steps, tools)
    ensures forall reply :: reply in Run(s, steps, tools).replies ==> reply in s.replies
    decreases |steps|
  {
    if steps != [] {
      StoppedWritesNoMore(After(s, steps[0], tools), steps[1..], tools);
    }
  }

  lemma StopsWriting(s: System, steps: seq<Step>, tools: set<string>)
    requires CanRun(After(s, StopWriting, tools), steps, tools)
    ensures forall reply :: reply in Run(After(s, StopWriting, tools), steps, tools).replies ==> reply in s.replies
  {
    StoppedWritesNoMore(After(s, StopWriting, tools), steps, tools);
  }

  /** The call is not under way: not begun, or back with the answer that the app is not there. */
  predicate IsRefused(s: System, id: nat, begun: bool) {
    && id in s.client.calls && id < s.client.nextId && s.client.pending.None?
    && match s.client.calls[id].phase
       case Numbered => !begun
       case Returned(outcome) => begun && SaysNotThere(outcome)
       case _ => false
  }

  lemma LateStep(s: System, step: Step, tools: set<string>, id: nat, begun: bool)
    requires IsRefused(s, id, begun) && Enabled(s, step)
    ensures IsRefused(After(s, step, tools), id, begun || step == Register(id))
  {
  }

  /** A call begun after the reader's end is back at once, in any run: nothing of it is ever sent. */
  lemma {:induction false} LateCallIsRefused(s: System, steps: seq<Step>, tools: set<string>, id: nat, begun: bool)
    requires IsRefused(s, id, begun) && CanRun(s, steps, tools)
    ensures IsRefused(Run(s, steps, tools), id, begun || Register(id) in steps)
    decreases |steps|
  {
    if steps != [] {
      assert steps == [steps[0]] + steps[1..];
      LateStep(s, steps[0], tools, id, begun);
      LateCallIsRefused(After(s, steps[0], tools), steps[1..], tools, id, begun || steps[0] == Register(id));
    }
  }

  // ---- A call that is served ----

  lemma StepThen(s: System, step: Step, rest: seq<Step>, tools: set<string>)
    requires Enabled(s, step) && CanRun(After(s, step, tools), rest, tools)
    ensures CanRun(s, [step] + rest, tools)
    ensures Run(s, [step] + rest, tools) == Run(After(s, step, tools), rest, tools)
  {
    assert ([step] + rest)[1..] == rest;
  }

  /** A connection with one call, with its request or its reply where it has got to. */
  function Serving(r: Request, phase: Phase, channel: Channel, server: Server, requests: seq<Request>,
      replies: seq<Reply>): System {
    System(Client(2, Some(if channel.Open? then {1} else {}), map[1 := Call(r, phase, channel)]),
           server, requests, replies)
  }

  function ToServer(tool: string, arguments: Value): seq<Step> {
    [Number(tool, arguments)] + ([Register(1)] + ([Deliver(1)] + ([FinishWrite(1)] + [Accept])))
  }

  function FromServer(r: Request, handled: Outcome): seq<Step> {
    [Answer(r, handled)] + ([WriteReply] + ([Route] + [Wake(1)]))
  }

  lemma ToServerRuns(tool: string, arguments: Value, tools: set<string>)
    ensures var r := Request(1, tool, arguments);
            && CanRun(START, ToServer(tool, arguments), tools)
            && Run(START, ToServer(tool, arguments), tools)
               == Serving(r, Awaiting, Open, SERVING.(serving := {r}), [], [])
  {
    var r := Request(1, tool, arguments);
    var registered := Serving(r, Registered, Open, SERVING, [], []);
    var delivered := Serving(r, Delivered, Open, SERVING, [r], []);
    var awaiting := Serving(r, Awaiting, Open, SERVING, [r], []);
    var numbered := After(START, Number(tool, arguments), tools);
    var none: set<nat> := {};
    assert none + {1} == {1};
    assert After(numbered, Register(1), tools) == registered;
    assert After(registered, Deliver(1), tools) == delivered;
    assert After(delivered, FinishWrite(1), tools) == awaiting;
    assert After(awaiting, Accept, tools) == Serving(r, Awaiting, Open, SERVING.(serving := {r}), [], []);
    OneStep(awaiting, Accept, tools);
    StepThen(delivered, FinishWrite(1), [Accept], tools);
    StepThen(registered, Deliver(1), [FinishWrite(1)] + [Accept], tools);
    StepThen(numbered, Register(1), [Deliver(1)] + ([FinishWrite(1)] + [Accept]), tools);
    StepThen(START, Number(tool, arguments), [Register(1)] + ([Deliver(1)] + ([FinishWrite(1)] + [Accept])), tools);
  }

  lemma FromServerRuns(r: Request, handled: Outcome, tools: set<string>)
    requires r.id == 1
    ensures var s := Serving(r, Awaiting, Open, SERVING.(serving := {r}), [], []);
            && CanRun(s, FromServer(r, handled), tools)
            && At(Run(s, FromServer(r, handled), tools).client, 1,
                 Returned(if r.tool in tools then handled else UnknownTool(r.tool)))
  {
    var outcome := if r.tool in tools then handled else UnknownTool(r.tool);
    var reply, done := Reply(1, outcome), Server(true, true, {}, map[1 := outcome], []);
    var serving := Serving(r, Awaiting, Open, SERVING.(serving := {r}), [], []);
    var answered := Serving(r, Awaiting, Open, done.(outbox := [reply]), [], []);
    var written := Serving(r, Awaiting, Open, done, [], [reply]);
    var routed := Serving(r, Awaiting, Filled(outcome), done, [], []);
    assert After(serving, Answer(r, handled), tools) == answered;
    assert After(answered, WriteReply, tools) == written;
    var one: set<nat> := {1};
    assert one - {1} == {};
    assert After(written, Route, tools) == routed;
    OneStep(routed, Wake(1), tools);
    StepThen(written, Route, [Wake(1)], tools);
    StepThen(answered, WriteReply, [Route] + [Wake(1)], tools);
    StepThen(serving, Answer(r, handled), [WriteReply] + ([Route] + [Wake(1)]), tools);
  }

  /** A call nothing happens to returns what the handler gave, or the one answer for a tool there is not. */
  lemma ServedReturns(tool: string, arguments: Value, handled: Outcome, tools: set<string>)
    ensures var steps := ToServer(tool, arguments) + FromServer(Request(1, tool, arguments), handled);
            && CanRun(START, steps, tools)
            && 1 in Run(START, steps, tools).client.calls
            && Run(START, steps, tools).client.calls[1].phase.Returned?
            && var outcome := Run(START, steps, tools).client.calls[1].phase.outcome;
               if tool in tools then outcome == handled else SaysNoSuchTool(outcome, tool)
  {
    ToServerRuns(tool, arguments, tools);
    FromServerRuns(Request(1, tool, arguments), handled, tools);
    RunOn(START, ToServer(tool, arguments), FromServer(Request(1, tool, arguments), handled), tools);
  }
}

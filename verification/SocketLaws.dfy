// What holds in every interleaving of one connection's tasks.
module SocketLaws {
  import opened Socket

  /** Calls are never forgotten, never change their request and never go back to before their frame was out. */
  predicate CallsStay(c: Client, after: Client) {
    forall id :: id in c.calls ==>
      && id in after.calls
      && after.calls[id].request == c.calls[id].request
      && (SentBy(c, c.calls[id].request) ==> SentBy(after, c.calls[id].request))
  }

  lemma CallsStayStep(s: System, step: Step, tools: set<string>)
    requires CallsInv(s) && Enabled(s, step)
    ensures CallsStay(s.client, After(s, step, tools).client)
  {
    match step {
      case Number(_, _) => assert s.client.nextId !in s.client.calls;
      case _ =>
    }
  }

  lemma DeliverKeepsRequests(s: System, id: nat, tools: set<string>)
    requires RequestsInv(s) && CallsInv(s) && Enabled(s, Deliver(id))
    requires CallsStay(s.client, After(s, Deliver(id), tools).client)
    ensures RequestsInv(After(s, Deliver(id), tools))
  {
    var r := s.client.calls[id].request;
    assert forall q :: q in s.requests + [r] <==> q in s.requests || q == r;
  }

  lemma AcceptKeepsRequests(s: System, tools: set<string>)
    requires RequestsInv(s) && Enabled(s, Accept)
    ensures RequestsInv(After(s, Accept, tools))
  {
    assert s.requests == [s.requests[0]] + s.requests[1..];
  }

  /** Requests under way move from the calls to the stream, into their tasks and out as answers. */
  lemma RequestsMove(s: System, step: Step, tools: set<string>)
    requires RequestsInv(s) && CallsInv(s) && Enabled(s, step)
    requires step.Deliver? || step.Accept? || step.Answer? || step.StopReading?
    requires CallsStay(s.client, After(s, step, tools).client)
    ensures RequestsInv(After(s, step, tools))
  {
    match step {
      case Deliver(id) => DeliverKeepsRequests(s, id, tools);
      case Accept => AcceptKeepsRequests(s, tools);
      case _ =>
    }
  }

  lemma RequestsStep(s: System, step: Step, tools: set<string>)
    requires RequestsInv(s) && CallsInv(s) && Enabled(s, step)
    ensures RequestsInv(After(s, step, tools))
  {
    CallsStayStep(s, step, tools);
    if step.Deliver? || step.Accept? || step.Answer? || step.StopReading? {
      RequestsMove(s, step, tools);
    } else {
      var after := After(s, step, tools);
      assert after.requests == s.requests;
      assert after.server.serving == s.server.serving && after.server.answered == s.server.answered;
    }
  }

  lemma RepliesStep(s: System, step: Step, tools: set<string>)
    requires RequestsInv(s) && RepliesInv(s) && Enabled(s, step)
    ensures RepliesInv(After(s, step, tools))
  {
    match step {
      case WriteReply =>
        assert s.server.outbox[0] in s.server.outbox;
        assert forall q :: q in s.server.outbox[1..] ==> q in s.server.outbox;
      case Route => assert forall q :: q in s.replies[1..] ==> q in s.replies;
      case _ =>
    }
  }

  lemma AnswerKeepsCalls(s: System, step: Step, tools: set<string>)
    requires RequestsInv(s) && RepliesInv(s) && CallsInv(s) && Enabled(s, step) && step.Answer?
    ensures CallsInv(After(s, step, tools))
  {
    var after := After(s, step, tools);
    assert forall id, o :: Answered(s, id, o) ==> Answered(after, id, o);
  }

  lemma RouteKeepsCalls(s: System, step: Step, tools: set<string>)
    requires RequestsInv(s) && RepliesInv(s) && CallsInv(s) && Enabled(s, step) && step.Route?
    ensures CallsInv(After(s, step, tools))
  {
    assert s.replies[0] in s.replies;
  }

  lemma CallMovesKeepCalls(s: System, step: Step, tools: set<string>)
    requires CallsInv(s) && Enabled(s, step)
    requires step.Deliver? || step.FinishWrite? || step.FailWrite? || step.Leave? || step.Wake?
    ensures CallsInv(After(s, step, tools))
  {
  }

  lemma CallsStep(s: System, step: Step, tools: set<string>)
    requires RequestsInv(s) && RepliesInv(s) && CallsInv(s) && Enabled(s, step)
    ensures CallsInv(After(s, step, tools))
  {
    match step {
      case Number(_, _) =>
      case Register(id) =>
      case Answer(r, handled) => AnswerKeepsCalls(s, step, tools);
      case Route => RouteKeepsCalls(s, step, tools);
      case EndReader =>
      case Accept =>
      case WriteReply =>
      case StopWriting =>
      case StopReading =>
      case _ => CallMovesKeepCalls(s, step, tools);
    }
  }

  lemma ToolsStep(s: System, step: Step, tools: set<string>)
    requires RequestsInv(s) && CallsInv(s) && ToolsInv(s, tools) && Enabled(s, step)
    ensures ToolsInv(After(s, step, tools), tools)
  {
  }

  lemma StepKeepsInv(s: System, step: Step, tools: set<string>)
    requires Inv(s, tools) && Enabled(s, step)
    ensures Inv(After(s, step, tools), tools)
  {
    RequestsStep(s, step, tools);
    RepliesStep(s, step, tools);
    CallsStep(s, step, tools);
    ToolsStep(s, step, tools);
  }

  // ---- Runs ----

  predicate CanRun(s: System, steps: seq<Step>, tools: set<string>)
    decreases |steps|
  {
    steps == [] || (Enabled(s, steps[0]) && CanRun(After(s, steps[0], tools), steps[1..], tools))
  }

  function Run(s: System, steps: seq<Step>, tools: set<string>): System
    requires CanRun(s, steps, tools)
    decreases |steps|
  {
    if steps == [] then s else Run(After(s, steps[0], tools), steps[1..], tools)
  }

  lemma OneStep(s: System, step: Step, tools: set<string>)
    requires Enabled(s, step)
    ensures CanRun(s, [step], tools) && Run(s, [step], tools) == After(s, step, tools)
  {
    assert [step][1..] == [];
  }

  lemma {:induction false} RunOn(s: System, a: seq<Step>, b: seq<Step>, tools: set<string>)
    requires CanRun(s, a, tools) && CanRun(Run(s, a, tools), b, tools)
    ensures CanRun(s, a + b, tools) && Run(s, a + b, tools) == Run(Run(s, a, tools), b, tools)
    decreases |a|
  {
    if a == [] {
      assert a + b == b;
    } else {
      RunOn(After(s, a[0], tools), a[1..], b, tools);
      assert (a + b)[1..] == a[1..] + b;
    }
  }

  lemma {:induction false} RunKeepsInv(s: System, steps: seq<Step>, tools: set<string>)
    requires Inv(s, tools) && CanRun(s, steps, tools)
    ensures Inv(Run(s, steps, tools), tools)
    decreases |steps|
  {
    if steps != [] {
      StepKeepsInv(s, steps[0], tools);
      RunKeepsInv(After(s, steps[0], tools), steps[1..], tools);
    }
  }

  /**
   * In every interleaving, a call returns what the handler gave for that call's own
   * request, the one answer there is for a tool that does not exist, or that the app is
   * not there; and once the reader has ended, no call's channel can keep it waiting.
   */
  lemma CallsReturnTheirOwn(steps: seq<Step>, tools: set<string>, id: nat)
    requires CanRun(START, steps, tools)
    requires id in Run(START, steps, tools).client.calls
    ensures var s := Run(START, steps, tools); var call := s.client.calls[id];
            && call.request.id == id
            && (call.phase.Returned? && call.phase.outcome != UNAVAILABLE ==>
                && Answered(s, id, call.phase.outcome)
                && SentBy(s.client, call.request)
                && (call.request.tool !in tools ==> call.phase.outcome == UnknownTool(call.request.tool)))
            && (s.client.pending.None? && !call.phase.Numbered? ==> !call.channel.Open?)
  {
    RunKeepsInv(START, steps, tools);
    var s := Run(START, steps, tools);
    assert CallInv(s, id, s.client.calls[id]);
  }

  // ---- Once only ----

  /** A channel that spoke or closed, and a call that returned, stay so. */
  predicate Resolved(c: Client, after: Client) {
    forall id :: id in c.calls ==>
      && id in after.calls
      && (!c.calls[id].channel.Open? ==> after.calls[id].channel == c.calls[id].channel)
      && (c.calls[id].phase.Returned? ==> after.calls[id].phase == c.calls[id].phase)
  }

  predicate Settles(s: System, after: System) {
    && CallsStay(s.client, after.client)
    && Resolved(s.client, after.client)
    && (forall id :: id in s.server.answered ==> Answered(after, id, s.server.answered[id]))
    && (s.client.pending.None? ==> after.client.pending.None?)
  }

  lemma StepResolves(s: System, step: Step, tools: set<string>)
    requires CallsInv(s) && Enabled(s, step)
    ensures Resolved(s.client, After(s, step, tools).client)
  {
    match step {
      case Number(_, _) => assert s.client.nextId !in s.client.calls;
      case _ =>
    }
  }

  lemma StepSettles(s: System, step: Step, tools: set<string>)
    requires Inv(s, tools) && Enabled(s, step)
    ensures Settles(s, After(s, step, tools))
  {
    CallsStayStep(s, step, tools);
    StepResolves(s, step, tools);
  }

  /** Each waiter is resolved at most once, each request answered at most once, and a closed connection stays closed. */
  lemma {:induction false} RunSettles(s: System, steps: seq<Step>, tools: set<string>)
    requires Inv(s, tools) && CanRun(s, steps, tools)
    ensures Settles(s, Run(s, steps, tools))
    decreases |steps|
  {
    if steps != [] {
      StepSettles(s, steps[0], tools);
      StepKeepsInv(s, steps[0], tools);
      RunSettles(After(s, steps[0], tools), steps[1..], tools);
    }
  }

  // ---- Nobody hangs ----

  /** How many steps of its own a call has before it at most. */
  function Ahead(call: Call): nat {
    match call.phase
    case Numbered => 4
    case Registered => 3
    case Delivered => 2
    case Awaiting => 1
    case Returned(_) => 0
  }

  /** What a call does next when nothing else happens. */
  function OwnStep(c: Client, id: nat): Step
    requires id in c.calls
  {
    match c.calls[id].phase
    case Numbered => Register(id)
    case Registered => Deliver(id)
    case Delivered => FinishWrite(id)
    case _ => Wake(id)
  }

  /** Once the reader has ended, every call not yet back can take a step of its own, and comes nearer to returning. */
  lemma ClosedCallsMoveOn(s: System, tools: set<string>, id: nat)
    requires Inv(s, tools) && s.client.pending.None?
    requires id in s.client.calls && !s.client.calls[id].phase.Returned?
    ensures Enabled(s, OwnStep(s.client, id))
    ensures Ahead(After(s, OwnStep(s.client, id), tools).client.calls[id]) < Ahead(s.client.calls[id])
  {
    assert CallInv(s, id, s.client.calls[id]);
  }

  /** Nobody's step takes a call of a closed connection back, and each step of its own takes it on. */
  lemma ClosedStepMovesOn(s: System, step: Step, tools: set<string>, id: nat)
    requires Inv(s, tools) && Enabled(s, step) && s.client.pending.None? && id in s.client.calls
    ensures var after := After(s, step, tools);
            && after.client.pending.None? && id in after.client.calls
            && Ahead(after.client.calls[id]) + (if IsOwn(step, id) then 1 else 0) <= Ahead(s.client.calls[id])
  {
    StepSettles(s, step, tools);
    assert CallInv(s, id, s.client.calls[id]);
  }

  predicate IsOwn(step: Step, id: nat) {
    step in {Register(id), Deliver(id), FinishWrite(id), FailWrite(id), Leave(id), Wake(id)}
  }

  function OwnSteps(steps: seq<Step>, id: nat): nat {
    if steps == [] then 0 else (if IsOwn(steps[0], id) then 1 else 0) + OwnSteps(steps[1..], id)
  }

  /**
   * Once the reader has ended, every call returns with at most four steps of its own,
   * whatever else happens between them; and until it has, it can take the next.
   */
  lemma {:induction false} ClosedCallsReturn(s: System, steps: seq<Step>, tools: set<string>, id: nat)
    requires Inv(s, tools) && s.client.pending.None? && id in s.client.calls && CanRun(s, steps, tools)
    ensures var after := Run(s, steps, tools);
            && id in after.client.calls
            && OwnSteps(steps, id) + Ahead(after.client.calls[id]) <= Ahead(s.client.calls[id]) <= 4
            && (OwnSteps(steps, id) >= Ahead(s.client.calls[id]) ==> after.client.calls[id].phase.Returned?)
            && (!after.client.calls[id].phase.Returned? ==> Enabled(after, OwnStep(after.client, id)))
    decreases |steps|
  {
    if steps == [] {
      if !s.client.calls[id].phase.Returned? {
        ClosedCallsMoveOn(s, tools, id);
      }
    } else {
      ClosedStepMovesOn(s, steps[0], tools, id);
      StepKeepsInv(s, steps[0], tools);
      ClosedCallsReturn(After(s, steps[0], tools), steps[1..], tools, id);
    }
  }
}

// Concurrent calls over one shim connection: the shim's end
// (crates/agent-mcp/src/client.rs) and the core's
// (crates/agent-mcp/src/server.rs).
//
// `ShimClient` and `Connection` are the two ends' objects; `Client` and
// `Server` are their states, with a function for every step a task takes
// between two points where another may run. `System` puts them together with
// the frames under way in both directions.
module Socket {
  import opened Prelude
  import opened Json

  datatype Outcome = Success(text: string, structured: Option<Value>) | Failure(code: string, message: string)

  const UNAVAILABLE := Failure("app_unavailable", "Kaluta is not running or closed this session")

  datatype Request = Request(id: nat, tool: string, arguments: Value)

  datatype Reply = Reply(id: nat, outcome: Outcome)

  function UnknownTool(tool: string): Outcome {
    Failure("unknown_tool", "there is no tool named " + tool)
  }

  // ---- The shim's end ----

  /** Where a call is: its id taken, its waiter in the map, its frame out whole, waiting for the reply, back. */
  datatype Phase = Numbered | Registered | Delivered | Awaiting | Returned(outcome: Outcome)

  /** A call's one-shot channel: its sender may still speak, has spoken, or is gone. */
  datatype Channel = Open | Filled(outcome: Outcome) | Dropped

  datatype Call = Call(request: Request, phase: Phase, channel: Channel)

  /** `pending` holds the ids whose senders wait for replies; none once the reader has ended. */
  datatype Client = Client(nextId: nat, pending: Option<set<nat>>, calls: map<nat, Call>)

  const CONNECTED := Client(1, Some({}), map[])

  predicate At(c: Client, id: nat, phase: Phase) {
    id in c.calls && c.calls[id].phase == phase
  }

  function WithCall(c: Client, id: nat, call: Call): Client {
    c.(calls := c.calls[id := call])
  }

  function Numbering(c: Client, tool: string, arguments: Value): Client {
    WithCall(c, c.nextId, Call(Request(c.nextId, tool, arguments), Numbered, Open)).(nextId := c.nextId + 1)
  }

  function Registering(c: Client, id: nat): Client
    requires id in c.calls
  {
    if c.pending.Some? then
      WithCall(c, id, c.calls[id].(phase := Registered)).(pending := Some(c.pending.value + {id}))
    else WithCall(c, id, c.calls[id].(phase := Returned(UNAVAILABLE), channel := Dropped))
  }

  function Moved(c: Client, id: nat, phase: Phase): Client
    requires id in c.calls
  {
    WithCall(c, id, c.calls[id].(phase := phase))
  }

  /** The reader takes a reply's waiter from the map and sends it the outcome; nobody may be waiting any more. */
  function Routing(c: Client, reply: Reply): Client {
    if c.pending.Some? && reply.id in c.pending.value && reply.id in c.calls then
      var call := c.calls[reply.id];
      WithCall(c, reply.id, call.(channel := if call.phase.Returned? then Dropped else Filled(reply.outcome)))
        .(pending := Some(c.pending.value - {reply.id}))
    else c
  }

  /** The reader ends: the map goes, and with it every sender still in it. */
  function Closing(c: Client): Client {
    Client(c.nextId, None, map id | id in c.calls ::
      if c.pending.Some? && id in c.pending.value then c.calls[id].(channel := Dropped) else c.calls[id])
  }

  function Waking(c: Client, id: nat): Client
    requires id in c.calls
  {
    Moved(c, id, Returned(if c.calls[id].channel.Filled? then c.calls[id].channel.outcome else UNAVAILABLE))
  }

  class ShimClient {
    var nextId: nat
    var pending: Option<set<nat>>
    var calls: map<nat, Call>

    function View(): Client
      reads this
    {
      Client(nextId, pending, calls)
    }

    constructor ()
      ensures View() == CONNECTED
    {
      nextId, pending, calls := 1, Some({}), map[];
    }

    method IsClosed() returns (closed: bool)
      ensures closed <==> View().pending.None?
    {
      closed := pending.None?;
    }

    /** `call`, up to its id. */
    method Number(tool: string, arguments: Value) returns (id: nat)
      modifies this`nextId, this`calls
      ensures id == old(nextId) && View() == Numbering(old(View()), tool, arguments)
    {
      id := nextId;
      nextId := nextId + 1;
      calls := calls[id := Call(Request(id, tool, arguments), Numbered, Open)];
    }

    /** `call`, under the map's lock. */
    method Register(id: nat)
      requires At(View(), id, Numbered)
      modifies this`pending, this`calls
      ensures View() == Registering(old(View()), id)
    {
      match pending
      case Some(waiters) =>
        pending := Some(waiters + {id});
        calls := calls[id := calls[id].(phase := Registered)];
      case None =>
        calls := calls[id := calls[id].(phase := Returned(UNAVAILABLE), channel := Dropped)];
    }

    /** The reader task with a reply. */
    method Route(reply: Reply)
      modifies this`pending, this`calls
      ensures View() == Routing(old(View()), reply)
    {
      if pending.None? || reply.id !in pending.value || reply.id !in calls {
        return;
      }
      pending := Some(pending.value - {reply.id});
      var call := calls[reply.id];
      calls := calls[reply.id := call.(channel := if call.phase.Returned? then Dropped else Filled(reply.outcome))];
    }

    /** The reader task's end. */
    method EndReader()
      modifies this`pending, this`calls
      ensures View() == Closing(old(View()))
    {
      var dropped := if pending.Some? then pending.value else {};
      pending := None;
      calls := map id | id in calls :: if id in dropped then calls[id].(channel := Dropped) else calls[id];
    }

    /** `call` hears from its channel and returns. */
    method Wake(id: nat) returns (outcome: Outcome)
      requires At(View(), id, Awaiting) && !calls[id].channel.Open?
      modifies this`calls
      ensures View() == Waking(old(View()), id) && At(View(), id, Returned(outcome))
    {
      outcome := if calls[id].channel.Filled? then calls[id].channel.outcome else UNAVAILABLE;
      calls := calls[id := calls[id].(phase := Returned(outcome))];
    }
  }

  // ---- The core's end ----

  /** `answered` keeps what the handler gave for each request. */
  datatype Server = Server(
    reading: bool, writing: bool, serving: set<Request>, answered: map<nat, Outcome>, outbox: seq<Reply>)

  const SERVING := Server(true, true, {}, map[], [])

  function Accepting(s: Server, r: Request): Server {
    s.(serving := s.serving + {r})
  }

  function Answering(s: Server, r: Request, outcome: Outcome): Server {
    s.(serving := s.serving - {r}, answered := s.answered[r.id := outcome], outbox := s.outbox + [Reply(r.id, outcome)])
  }

  function Stopping(s: Server): Server {
    s.(reading := false, serving := {})
  }

  class Connection {
    const tools: set<string>
    var reading: bool
    var writing: bool
    var serving: set<Request>
    var answered: map<nat, Outcome>
    var outbox: seq<Reply>

    function View(): Server
      reads this
    {
      Server(reading, writing, serving, answered, outbox)
    }

    constructor (tools: set<string>)
      ensures View() == SERVING && this.tools == tools
    {
      this.tools := tools;
      reading, writing, serving, answered, outbox := true, true, {}, map[], [];
    }

    /** A request read: its call runs in a task of its own. */
    method Accept(r: Request)
      requires reading
      modifies this`serving
      ensures View() == Accepting(old(View()), r)
    {
      serving := serving + {r};
    }

    /** A call's task ends; `handled` is what the handler gives for a tool there is. */
    method Answer(r: Request, handled: Outcome)
      requires r in serving
      modifies this`serving, this`answered, this`outbox
      ensures View() == Answering(old(View()), r, if r.tool in tools then handled else UnknownTool(r.tool))
    {
      var outcome := if r.tool in tools then handled else UnknownTool(r.tool);
      serving := serving - {r};
      answered := answered[r.id := outcome];
      outbox := outbox + [Reply(r.id, outcome)];
    }

    /** The shim is gone: calls under way are aborted. */
    method StopReading()
      modifies this`reading, this`serving
      ensures View() == Stopping(old(View()))
    {
      reading := false;
      serving := {};
    }
  }

  // ---- Together ----

  datatype System = System(client: Client, server: Server, requests: seq<Request>, replies: seq<Reply>)

  const START := System(CONNECTED, SERVING, [], [])

  datatype Step =
    | Number(tool: string, arguments: Value)
    | Register(id: nat)
    | Deliver(id: nat)
    | FinishWrite(id: nat)
    | FailWrite(id: nat)
    | Leave(id: nat)
    | Wake(id: nat)
    | Accept
    | Answer(request: Request, handled: Outcome)
    | WriteReply
    | StopWriting
    | StopReading
    | Route
    | EndReader

  predicate Enabled(s: System, step: Step) {
    match step
    case Number(_, _) => true
    case Register(id) => At(s.client, id, Numbered)
    case Deliver(id) => At(s.client, id, Registered)
    case FinishWrite(id) => At(s.client, id, Delivered)
    case FailWrite(id) => At(s.client, id, Registered) || At(s.client, id, Delivered)
    case Leave(id) => At(s.client, id, Registered) || At(s.client, id, Delivered) || At(s.client, id, Awaiting)
    case Wake(id) => At(s.client, id, Awaiting) && !s.client.calls[id].channel.Open?
    case Accept => s.server.reading && s.requests != []
    case Answer(r, _) => r in s.server.serving
    case WriteReply => s.server.writing && s.server.outbox != []
    case StopWriting => true
    case StopReading => true
    case Route => s.client.pending.Some? && s.replies != []
    case EndReader => true
  }

  function After(s: System, step: Step, tools: set<string>): System
    requires Enabled(s, step)
  {
    match step
    case Number(tool, arguments) => s.(client := Numbering(s.client, tool, arguments))
    case Register(id) => s.(client := Registering(s.client, id))
    case Deliver(id) =>
      s.(client := Moved(s.client, id, Delivered), requests := s.requests + [s.client.calls[id].request])
    case FinishWrite(id) => s.(client := Moved(s.client, id, Awaiting))
    case FailWrite(id) => s.(client := Moved(s.client, id, Returned(UNAVAILABLE)))
    // The caller drops the call where it waits: nobody hears what it would return.
    case Leave(id) => s.(client := Moved(s.client, id, Returned(UNAVAILABLE)))
    case Wake(id) => s.(client := Waking(s.client, id))
    case Accept => s.(server := Accepting(s.server, s.requests[0]), requests := s.requests[1..])
    case Answer(r, handled) =>
      s.(server := Answering(s.server, r, if r.tool in tools then handled else UnknownTool(r.tool)))
    case WriteReply =>
      s.(server := s.server.(outbox := s.server.outbox[1..]), replies := s.replies + [s.server.outbox[0]])
    case StopWriting => s.(server := s.server.(writing := false))
    case StopReading => s.(server := Stopping(s.server))
    case Route => s.(client := Routing(s.client, s.replies[0]), replies := s.replies[1..])
    case EndReader => s.(client := Closing(s.client))
  }

  // ---- The invariant ----

  /** The request is a call's own, and its frame went out whole. */
  predicate SentBy(c: Client, r: Request) {
    r.id in c.calls && c.calls[r.id].request == r && !c.calls[r.id].phase.Numbered? && !c.calls[r.id].phase.Registered?
  }

  predicate RequestsInv(s: System) {
    && (forall r :: r in s.requests ==> SentBy(s.client, r) && r !in s.server.serving && r.id !in s.server.answered)
    && (forall i, j :: 0 <= i < j < |s.requests| ==> s.requests[i] != s.requests[j])
    && (forall r :: r in s.server.serving ==> SentBy(s.client, r) && r.id !in s.server.answered)
    && (forall id :: id in s.server.answered ==> id in s.client.calls && SentBy(s.client, s.client.calls[id].request))
  }

  predicate Answered(s: System, id: nat, outcome: Outcome) {
    id in s.server.answered && s.server.answered[id] == outcome
  }

  predicate RepliesInv(s: System) {
    && (forall r :: r in s.server.outbox ==> Answered(s, r.id, r.outcome))
    && (forall r :: r in s.replies ==> Answered(s, r.id, r.outcome))
  }

  predicate CallInv(s: System, id: nat, call: Call) {
    && 0 < id < s.client.nextId
    && call.request.id == id
    && (call.phase.Numbered? ==> call.channel.Open?)
    && (call.phase.Returned? ==> call.phase.outcome == UNAVAILABLE || Answered(s, id, call.phase.outcome))
    && (call.channel.Filled? ==> Answered(s, id, call.channel.outcome))
    && (call.channel.Open? && !call.phase.Numbered? ==> s.client.pending.Some? && id in s.client.pending.value)
  }

  predicate CallsInv(s: System) {
    && 0 < s.client.nextId
    && (forall id :: id in s.client.calls ==> CallInv(s, id, s.client.calls[id]))
    && (s.client.pending.Some? ==> forall id :: id in s.client.pending.value ==>
        id in s.client.calls && s.client.calls[id].channel.Open? && !s.client.calls[id].phase.Numbered?)
  }

  /** What the handler gives for a tool there is not, is settled. */
  predicate ToolsInv(s: System, tools: set<string>) {
    forall id :: id in s.server.answered && id in s.client.calls && s.client.calls[id].request.tool !in tools ==>
      s.server.answered[id] == UnknownTool(s.client.calls[id].request.tool)
  }

  predicate Inv(s: System, tools: set<string>) {
    RequestsInv(s) && RepliesInv(s) && CallsInv(s) && ToolsInv(s, tools)
  }
}

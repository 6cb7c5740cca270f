// `claude -p --output-format stream-json` lines as agent events
// (crates/agent-claude/src/stream.rs). `StreamParser` is the object of the
// source; `Parse` says what a line gives and leaves.
module Stream {
  import opened Prelude
  import opened Json
  import opened Events
  import opened Transcript

  const TOOL_PREFIX: string := "mcp__kaluta__"
  const WARNING: string := "\U{26A0}\U{FE0E} "

  /** How arguments and results are shortened for display. */
  datatype Rendering = Rendering(summarizeArgs: Value -> string, shorten: string -> string)

  datatype ParserState = ParserState(
    sessionId: Option<string>, startedTools: set<string>, finished: bool, mcpChecked: bool)

  const FRESH := ParserState(None, {}, false, false)

  function ToolName(name: string): string {
    if TOOL_PREFIX <= name then name[|TOOL_PREFIX|..] else name
  }

  // ---- What a line says ----

  predicate IsInit(line: Value) {
    line.At("type") == String("system") && line.At("subtype") == String("init")
  }

  predicate IsResult(line: Value) {
    line.At("type") == String("result")
  }

  predicate Failed(line: Value) {
    line.At("is_error") == Bool(true) || (line.At("subtype").String? && line.At("subtype").s != "success")
  }

  function SessionNamed(known: Option<string>, line: Value): Option<string> {
    if line.At("session_id").String? then Some(line.At("session_id").s) else known
  }

  function ServerNotice(line: Value): seq<AgentEvent> {
    match First(line.At("mcp_servers").Items(), (s: Value) => s.At("name") == String("kaluta"))
    case None => [TextDelta(WARNING + "Kaluta's mail tools are not available. ")]
    case Some(ours) =>
      match ours.At("status").AsString()
      case None => []
      case Some(status) =>
        if status == "connected" then []
            else [TextDelta(WARNING + "Kaluta's mail tools did not start (" + status + "). ")]
  }

  function Delta(event: Value): seq<AgentEvent> {
    var delta := event.At("delta");
    if event.At("type") != String("content_block_delta") then []
    else if delta.At("type") == String("text_delta") then
      var text := delta.At("text").StringOr("");
      if text == "" then [] else [TextDelta(text)]
    else if delta.At("type") == String("thinking_delta") then
      var text := delta.At("thinking").StringOr("");
      if text == "" then [] else [ThinkingDelta(text)]
    else []
  }

  predicate IsToolUse(block: Value) {
    block.At("type") == String("tool_use")
  }

  function CallId(block: Value): string {
    block.At("id").StringOr("")
  }

  function Started(block: Value, show: Rendering): AgentEvent {
    ToolCallStarted(CallId(block), ToolName(block.At("name").StringOr("")), show.summarizeArgs(block.At("input")))
  }

  /** The tool calls of a message that were not announced before. */
  function NewCalls(blocks: seq<Value>, known: set<string>, show: Rendering): (set<string>, seq<AgentEvent>) {
    if blocks == [] then (known, [])
    else
      var (before, out) := NewCalls(Init(blocks), known, show);
      var block := Last(blocks);
      if IsToolUse(block) && CallId(block) !in before then (before + {CallId(block)}, out + [Started(block, show)])
      else (before, out)
  }

  function ResultText(content: Value): string {
    if content.String? then content.s
    else JoinTexts(Filter(content.Items(), (p: Value) => p.At("text").String?))
  }

  function JoinTexts(parts: seq<Value>): string {
    if parts == [] then ""
    else if |parts| == 1 then parts[0].At("text").StringOr("")
    else parts[0].At("text").StringOr("") + " " + JoinTexts(parts[1..])
  }

  function ToolResults(blocks: seq<Value>, show: Rendering): seq<AgentEvent> {
    if blocks == [] then []
    else
      var block := Last(blocks);
      ToolResults(Init(blocks), show) +
      if block.At("type") != String("tool_result") then []
      else [ToolCallFinished(block.At("tool_use_id").StringOr(""), block.At("is_error") != Bool(true),
                             show.shorten(ResultText(block.At("content"))))]
  }

  function Ending(line: Value): AgentEvent {
    if Failed(line) then TurnFailed(FailureText(line))
    else TurnCompleted(UsageOf(line.At("usage")), line.At("total_cost_usd").AsF64())
  }

  function FailureText(line: Value): string {
    if line.At("subtype") == String("error_max_turns") then "The agent reached its turn limit."
    else if line.At("subtype") == String("error_max_budget_usd") then "The agent reached its spending limit."
    else if line.At("result").StringOr("") != "" then line.At("result").s
    else "The agent stopped with an error."
  }

  function UsageOf(usage: Value): Option<Usage> {
    if usage.Object? then
      Some(Usage(Count(usage.At("input_tokens")), Count(usage.At("output_tokens")),
          Count(usage.At("cache_read_input_tokens"))))
    else None
  }

  function Count(v: Value): int {
    if v.AsU64().Some? then v.AsU64().value else 0
  }

  /** The parser after a line, and the line's events; `None` is a line that is not JSON. */
  function Parse(p: ParserState, line: Option<Value>, show: Rendering): (ParserState, seq<AgentEvent>) {
    if line.None? then (p, [])
    else
      var v := line.value;
      if IsInit(v) then
        (p.(sessionId := SessionNamed(p.sessionId, v), mcpChecked := true),
            if p.mcpChecked then [] else ServerNotice(v))
      else if v.At("type") == String("stream_event") then (p, Delta(v.At("event")))
      else if v.At("type") == String("assistant") then
        var (known, events) := NewCalls(v.At("message").At("content").Items(), p.startedTools, show);
        (p.(startedTools := known), events)
      else if v.At("type") == String("user") then (p, ToolResults(v.At("message").At("content").Items(), show))
      else if IsResult(v) then (p.(finished := true, sessionId := SessionNamed(p.sessionId, v)), [Ending(v)])
      else (p, [])
  }

  class StreamParser {
    var sessionId: Option<string>
    var startedTools: set<string>
    var finished: bool
    var mcpChecked: bool

    function State(): ParserState
      reads this
    {
      ParserState(sessionId, startedTools, finished, mcpChecked)
    }

    constructor ()
      ensures State() == FRESH
    {
      sessionId, startedTools, finished, mcpChecked := None, {}, false, false;
    }

    /** The session id, once, when first seen. */
    method TakeSessionId() returns (id: Option<string>)
      modifies this
      ensures id == old(sessionId) && State() == old(State()).(sessionId := None)
    {
      id := sessionId;
      sessionId := None;
    }

    method ParseLine(line: Option<Value>, show: Rendering) returns (events: seq<AgentEvent>)
      modifies this
      ensures (State(), events) == Parse(old(State()), line, show)
    {
      if line.None? {
        return [];
      }
      var v := line.value;
      if IsInit(v) {
        events := OnInit(v);
      } else if v.At("type") == String("stream_event") {
        events := Delta(v.At("event"));
      } else if v.At("type") == String("assistant") {
        events := OnAssistant(v.At("message"), show);
      } else if v.At("type") == String("user") {
        events := OnToolResults(v.At("message"), show);
      } else if IsResult(v) {
        finished := true;
        if v.At("session_id").String? {
          sessionId := Some(v.At("session_id").s);
        }
        events := [Ending(v)];
      } else {
        events := [];
      }
    }

    method OnInit(v: Value) returns (events: seq<AgentEvent>)
      modifies this
      ensures State() == old(State()).(sessionId := SessionNamed(old(sessionId), v), mcpChecked := true)
      ensures events == if old(mcpChecked) then [] else ServerNotice(v)
    {
      if v.At("session_id").String? {
        sessionId := Some(v.At("session_id").s);
      }
      if mcpChecked {
        return [];
      }
      mcpChecked := true;
      events := ServerNotice(v);
    }

    method OnAssistant(message: Value, show: Rendering) returns (out: seq<AgentEvent>)
      modifies this
      ensures (startedTools, out) == NewCalls(message.At("content").Items(), old(startedTools), show)
      ensures State() == old(State()).(startedTools := startedTools)
    {
      out := [];
      var blocks := message.At("content").Items();
      for i := 0 to |blocks|
        invariant (startedTools, out) == NewCalls(blocks[..i], old(startedTools), show)
        invariant State() == old(State()).(startedTools := startedTools)
      {
        assert Init(blocks[..i + 1]) == blocks[..i];
        var block := blocks[i];
        if IsToolUse(block) {
          var id := CallId(block);
          if id !in startedTools {
            startedTools := startedTools + {id};
            out := out + [Started(block, show)];
          }
        }
      }
      assert blocks[..|blocks|] == blocks;
    }

    method OnToolResults(message: Value, show: Rendering) returns (out: seq<AgentEvent>)
      ensures out == ToolResults(message.At("content").Items(), show)
    {
      out := [];
      var blocks := message.At("content").Items();
      for i := 0 to |blocks|
        invariant out == ToolResults(blocks[..i], show)
      {
        assert Init(blocks[..i + 1]) == blocks[..i];
        var block := blocks[i];
        if block.At("type") != String("tool_result") {
          continue;
        }
        out := out + [ToolCallFinished(block.At("tool_use_id").StringOr(""), block.At("is_error") != Bool(true),
                                       show.shorten(ResultText(block.At("content"))))];
      }
      assert blocks[..|blocks|] == blocks;
    }
  }

  // ---- Laws ----

  predicate EndsTurn(e: AgentEvent) {
    e.IsTerminal()
  }

  function Terminals(events: seq<AgentEvent>): nat {
    Tally(events, EndsTurn)
  }

  predicate IsResultLine(line: Option<Value>) {
    line.Some? && IsResult(line.value)
  }

  /** The parser speaks only for its turn, and says nothing empty. */
  predicate TurnOnly(events: seq<AgentEvent>) {
    && (forall e :: e in events ==> !e.TurnStarted? && !e.SessionStarted? && !e.SessionEnded?)
    && NoEmptyDelta(events)
  }

  lemma {:induction false} NewCallsOnly(blocks: seq<Value>, known: set<string>, show: Rendering)
    ensures forall e :: e in NewCalls(blocks, known, show).1 ==> e.ToolCallStarted?
    decreases |blocks|
  {
    if blocks != [] {
      NewCallsOnly(Init(blocks), known, show);
    }
  }

  lemma {:induction false} ToolResultsOnly(blocks: seq<Value>, show: Rendering)
    ensures forall e :: e in ToolResults(blocks, show) ==> e.ToolCallFinished?
    decreases |blocks|
  {
    if blocks != [] {
      ToolResultsOnly(Init(blocks), show);
    }
  }

  /** An event from the middle of a turn. */
  predicate MidTurn(e: AgentEvent) {
    && !e.IsTerminal() && !e.TurnStarted? && !e.SessionStarted? && !e.SessionEnded?
    && (e.IsDelta() ==> e.text != [])
  }

  lemma NoticesAreText(line: Value)
    ensures forall e :: e in ServerNotice(line) ==> e.TextDelta? && e.text != ""
  {
  }

  lemma DeltasAreText(event: Value)
    ensures forall e :: e in Delta(event) ==> e.IsDelta() && e.text != ""
  {
  }

  lemma OtherLinesAreMidTurn(p: ParserState, line: Value, show: Rendering)
    requires !IsResult(line)
    ensures forall e :: e in Parse(p, Some(line), show).1 ==> MidTurn(e)
  {
    var blocks := line.At("message").At("content").Items();
    forall e | e in Parse(p, Some(line), show).1
      ensures MidTurn(e)
    {
      if IsInit(line) {
        NoticesAreText(line);
      } else if line.At("type") == String("stream_event") {
        DeltasAreText(line.At("event"));
      } else if line.At("type") == String("assistant") {
        NewCallsOnly(blocks, p.startedTools, show);
      } else {
        ToolResultsOnly(blocks, show);
      }
    }
  }

  /** A line ends the turn exactly when it is a `result`, and then with exactly one event. */
  lemma ResultLinesEndTurns(p: ParserState, line: Option<Value>, show: Rendering)
    ensures var (after, events) := Parse(p, line, show);
            && Terminals(events) == (if IsResultLine(line) then 1 else 0)
            && after.finished == (p.finished || IsResultLine(line))
            && TurnOnly(events)
  {
    var events := Parse(p, line, show).1;
    if IsResultLine(line) {
      TallyOne(Ending(line.value), EndsTurn);
    } else {
      if line.Some? {
        OtherLinesAreMidTurn(p, line.value, show);
      }
      TallyNone(events, EndsTurn);
    }
  }

  /** A turn's lines, parsed one after the other. */
  function ParseAll(p: ParserState, lines: seq<Option<Value>>, show: Rendering): (ParserState, seq<AgentEvent>) {
    if lines == [] then (p, [])
    else
      var (before, events) := ParseAll(p, Init(lines), show);
      var (after, more) := Parse(before, Last(lines), show);
      (after, events + more)
  }

  predicate StartsOnce(events: seq<AgentEvent>) {
    forall i, j :: 0 <= i < j < |events| && events[i].ToolCallStarted? && events[j].ToolCallStarted? ==>
      events[i].callId != events[j].callId
  }

  predicate StartedIn(events: seq<AgentEvent>, known: set<string>) {
    forall e :: e in events && e.ToolCallStarted? ==> e.callId in known
  }

  lemma {:induction false} NewCallsStartOnce(blocks: seq<Value>, known: set<string>, show: Rendering)
    ensures var (after, out) := NewCalls(blocks, known, show);
            && known <= after
            && StartsOnce(out) && StartedIn(out, after)
            && forall e :: e in out && e.ToolCallStarted? ==> e.callId !in known
    decreases |blocks|
  {
    if blocks != [] {
      NewCallsStartOnce(Init(blocks), known, show);
    }
  }

  predicate NothingStarts(events: seq<AgentEvent>) {
    forall e :: e in events ==> !e.ToolCallStarted?
  }

  lemma NothingStartsOnce(events: seq<AgentEvent>, known: set<string>)
    requires NothingStarts(events)
    ensures StartsOnce(events) && StartedIn(events, known)
  {
    assert forall i :: 0 <= i < |events| ==> events[i] in events;
  }

  lemma OtherLinesStartNothing(p: ParserState, line: Value, show: Rendering)
    requires line.At("type") != String("assistant")
    ensures var (after, events) := Parse(p, Some(line), show);
            after.startedTools == p.startedTools && NothingStarts(events)
  {
    if IsInit(line) {
      NoticesAreText(line);
    } else if line.At("type") == String("stream_event") {
      DeltasAreText(line.At("event"));
    } else if line.At("type") == String("user") {
      ToolResultsOnly(line.At("message").At("content").Items(), show);
    }
  }

  lemma ParseStartsNew(p: ParserState, line: Option<Value>, show: Rendering)
    ensures var (after, events) := Parse(p, line, show);
            && p.startedTools <= after.startedTools
            && StartsOnce(events) && StartedIn(events, after.startedTools)
            && forall e :: e in events && e.ToolCallStarted? ==> e.callId !in p.startedTools
  {
    if line.Some? {
      if line.value.At("type") == String("assistant") {
        NewCallsStartOnce(line.value.At("message").At("content").Items(), p.startedTools, show);
      } else {
        OtherLinesStartNothing(p, line.value, show);
        NothingStartsOnce(Parse(p, line, show).1, p.startedTools);
      }
    }
  }

  /** Over a whole turn, a tool call is announced at most once, however often its message is repeated. */
  lemma {:induction false} ToolCallsStartOnce(p: ParserState, lines: seq<Option<Value>>, show: Rendering)
    ensures var (after, events) := ParseAll(p, lines, show);
            StartsOnce(events) && StartedIn(events, after.startedTools)
    decreases |lines|
  {
    if lines != [] {
      ToolCallsStartOnce(p, Init(lines), show);
      var (before, events) := ParseAll(p, Init(lines), show);
      ParseStartsNew(before, Last(lines), show);
      var more := Parse(before, Last(lines), show).1;
      forall i, j | 0 <= i < |events| <= j < |events + more| && events[i].ToolCallStarted?
          && (events + more)[j].ToolCallStarted?
        ensures events[i].callId != (events + more)[j].callId
      {
        assert events[i] in events && (events + more)[j] == more[j - |events|] && more[j - |events|] in more;
      }
    }
  }
}

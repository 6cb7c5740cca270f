// What each line of a Claude turn says, read off the JSON itself.
module StreamLines {
  import opened Prelude
  import opened Json
  import opened Events
  import opened Stream
  import Text

  // ---- `result` lines ----

  /** The line calls the turn a failure: by its flag, or by a subtype that is not success. */
  predicate CallsItFailed(line: Value) {
    || line.At("is_error") == Bool(true)
    || match line.At("subtype")
       case String(s) => s != "success"
       case _ => false
  }

  /** Why, in the words shown. */
  predicate SaysWhy(line: Value, message: string) {
    var subtype, text := line.At("subtype"), line.At("result");
    && (subtype == String("error_max_turns") ==> message == "The agent reached its turn limit.")
    && (subtype == String("error_max_budget_usd") ==> message == "The agent reached its spending limit.")
    && (subtype != String("error_max_turns") && subtype != String("error_max_budget_usd") ==>
         if text.String? && text.s != "" then message == text.s else message == "The agent stopped with an error.")
  }

  /** A count of tokens: a number of 64 bits, or 0. */
  predicate IsCount(n: int, given: Value) {
    if given.Integer? && 0 <= given.n <= 0xFFFF_FFFF_FFFF_FFFF then n == given.n else n == 0
  }

  predicate SaysUsage(line: Value, usage: Option<Usage>) {
    var given := line.At("usage");
    && (usage.Some? <==> given.Object?)
    && (usage.Some? ==>
         && IsCount(usage.value.inputTokens, given.At("input_tokens"))
         && IsCount(usage.value.outputTokens, given.At("output_tokens"))
         && IsCount(usage.value.cachedInputTokens, given.At("cache_read_input_tokens")))
  }

  predicate SaysCost(line: Value, cost: Option<real>) {
    match line.At("total_cost_usd")
    case Integer(n) => cost == Some(n as real)
    case Float(r) => cost == Some(r)
    case _ => cost == None
  }

  /** The one event a `result` line ends the turn with. */
  predicate EndsWith(line: Value, e: AgentEvent) {
    if CallsItFailed(line) then e.TurnFailed? && SaysWhy(line, e.message)
    else e.TurnCompleted? && SaysUsage(line, e.usage) && SaysCost(line, e.costUsd)
  }

  /** A `result` line fails the turn if and only if it calls it failed, and else completes it. */
  lemma ResultSays(p: ParserState, line: Value, show: Rendering)
    requires line.At("type") == String("result")
    ensures var events := Parse(p, Some(line), show).1;
            |events| == 1 && EndsWith(line, events[0])
  {
  }

  // ---- Text as it arrives ----

  /** A piece of the answer or of the thinking. */
  predicate GivesPiece(line: Value, kind: string, field: string, text: string) {
    var event := line.At("event");
    && line.At("type") == String("stream_event") && event.At("type") == String("content_block_delta")
    && event.At("delta").At("type") == String(kind) && event.At("delta").At(field) == String(text) && text != ""
  }

  /** Each piece is shown as it is, once, and nothing else is said of such a line. */
  lemma PiecesAreShown(p: ParserState, line: Value, show: Rendering, text: string)
    requires line.At("type") == String("stream_event")
    ensures var (after, events) := Parse(p, Some(line), show);
            && after == p
            && (events == [TextDelta(text)] <==> GivesPiece(line, "text_delta", "text", text))
            && (events == [ThinkingDelta(text)] <==> GivesPiece(line, "thinking_delta", "thinking", text))
            && (events == [] || (|events| == 1 && events[0].IsDelta()))
  {
    assert String("text_delta").s != "thinking_delta" by {
      assert "text_delta"[1] != "thinking_delta"[1];
    }
  }

  // ---- The mail tools ----

  /** The first of these servers named kaluta is the `i`th. */
  predicate OursIs(servers: seq<Value>, i: nat) {
    && i < |servers| && servers[i].At("name") == String("kaluta")
    && forall j :: 0 <= j < i ==> servers[j].At("name") != String("kaluta")
  }

  lemma {:induction false} FirstAt<T(!new)>(s: seq<T>, p: T -> bool, i: nat)
    requires i < |s| && p(s[i]) && forall j :: 0 <= j < i ==> !p(s[j])
    ensures First(s, p) == Some(s[i])
    decreases |s|
  {
    if i > 0 {
      assert !p(s[0]);
      FirstAt(s[1..], p, i - 1);
    }
  }

  /** What is said of our server's status. */
  predicate WarnsOf(status: Value, events: seq<AgentEvent>) {
    match status
    case String(s) =>
      events == (if s == "connected" then []
                 else [TextDelta(WARNING + "Kaluta's mail tools did not start (" + s + "). ")])
    case _ => events == []
  }

  predicate IsInitLine(line: Value) {
    line.At("type") == String("system") && line.At("subtype") == String("init")
  }

  /** The first `init` line of a turn warns if our server did not start, by what is said of the first so named. */
  lemma InitWarnsOf(p: ParserState, line: Value, i: nat, show: Rendering)
    requires IsInitLine(line) && !p.mcpChecked && OursIs(line.At("mcp_servers").Items(), i)
    ensures WarnsOf(line.At("mcp_servers").Items()[i].At("status"), Parse(p, Some(line), show).1)
  {
    FirstAt(line.At("mcp_servers").Items(), (s: Value) => s.At("name") == String("kaluta"), i);
    NoticeWarnsOf(line, line.At("mcp_servers").Items()[i]);
    InitGives(p, line, show);
  }

  lemma NoticeWarnsOf(line: Value, ours: Value)
    requires First(line.At("mcp_servers").Items(), (s: Value) => s.At("name") == String("kaluta")) == Some(ours)
    ensures WarnsOf(ours.At("status"), ServerNotice(line))
  {
  }

  lemma InitGives(p: ParserState, line: Value, show: Rendering)
    requires IsInitLine(line) && !p.mcpChecked
    ensures Parse(p, Some(line), show).1 == ServerNotice(line)
  {
  }

  /** Or if it is not there. */
  lemma InitWarnsOfNone(p: ParserState, line: Value, show: Rendering)
    requires IsInitLine(line) && !p.mcpChecked
    requires forall s :: s in line.At("mcp_servers").Items() ==> s.At("name") != String("kaluta")
    ensures Parse(p, Some(line), show).1 == [TextDelta(WARNING + "Kaluta's mail tools are not available. ")]
  {
  }

  /** No other says anything. */
  lemma InitWarnsOnce(p: ParserState, line: Value, show: Rendering)
    requires IsInitLine(line)
    ensures var (after, events) := Parse(p, Some(line), show);
            && after.mcpChecked && after.startedTools == p.startedTools && after.finished == p.finished
            && (p.mcpChecked ==> events == [])
  {
  }

  /** The session's id is the last one an `init` or `result` line names. */
  lemma SessionIdSays(p: ParserState, line: Value, show: Rendering)
    ensures var named := line.At("type") == String("result") || IsInitLine(line);
            Parse(p, Some(line), show).0.sessionId
            == match line.At("session_id")
               case String(id) => if named then Some(id) else p.sessionId
               case _ => p.sessionId
  {
  }

  // ---- Tool calls ----

  predicate IsCall(block: Value, id: string) {
    block.At("type") == String("tool_use") && (if block.At("id").String? then block.At("id").s == id else id == "")
  }

  /** The block is a call not known before, and the first of the message with its id. */
  predicate IsNewCall(blocks: seq<Value>, i: nat, known: set<string>, id: string) {
    i < |blocks| && IsCall(blocks[i], id) && id !in known && forall j :: 0 <= j < i ==> !IsCall(blocks[j], id)
  }

  /** The tool by its own name, without the server's. */
  predicate IsToolOf(tool: string, block: Value) {
    match block.At("name")
    case String(name) => if "mcp__kaluta__" <= name then name == "mcp__kaluta__" + tool else name == tool
    case _ => tool == ""
  }

  predicate Announces(e: AgentEvent, block: Value, show: Rendering) {
    && e.ToolCallStarted? && IsCall(block, e.callId) && IsToolOf(e.tool, block)
    && e.argsSummary == show.summarizeArgs(block.At("input"))
  }

  /** The events announce, in the order of the message, each new call and nothing else. */
  ghost predicate AnnouncesAll(events: seq<AgentEvent>, places: seq<nat>, blocks: seq<Value>, known: set<string>,
      show: Rendering) {
    && InOrder(places, |blocks|) && |events| == |places|
    && (forall k :: 0 <= k < |places| ==> AnnouncesAt(events[k], blocks, places[k], known, show))
    && NoneLeftOut(places, blocks, known)
  }

  predicate AnnouncesAt(e: AgentEvent, blocks: seq<Value>, i: nat, known: set<string>, show: Rendering)
    requires i < |blocks|
  {
    Announces(e, blocks[i], show) && IsNewCall(blocks, i, known, e.callId)
  }

  ghost predicate NoneLeftOut(places: seq<nat>, blocks: seq<Value>, known: set<string>) {
    forall i, id :: IsNewCall(blocks, i, known, id) ==> i in places
  }

  /** Which ids are known after a message: those before, and those of its calls. */
  ghost predicate KnowsCalls(after: set<string>, blocks: seq<Value>, known: set<string>) {
    forall id :: id in after <==> id in known || exists i :: 0 <= i < |blocks| && IsCall(blocks[i], id)
  }

  lemma StartedAnnounces(block: Value, show: Rendering)
    requires IsToolUse(block)
    ensures Announces(Started(block, show), block, show)
  {
    assert TOOL_PREFIX == "mcp__kaluta__";
  }

  lemma KnowsMore(blocks: seq<Value>, known: set<string>, before: set<string>, after: set<string>)
    requires blocks != [] && KnowsCalls(before, Init(blocks), known)
    requires forall id :: id in after <==> id in before || IsCall(Last(blocks), id)
    ensures KnowsCalls(after, blocks, known)
  {
    assert blocks == Init(blocks) + [Last(blocks)];
    forall id
      ensures (exists i :: 0 <= i < |blocks| && IsCall(blocks[i], id))
          <==> (exists i :: 0 <= i < |blocks| - 1 && IsCall(Init(blocks)[i], id)) || IsCall(Last(blocks), id)
    {
      assert forall i :: 0 <= i < |blocks| - 1 ==> blocks[i] == Init(blocks)[i];
      assert blocks[|blocks| - 1] == Last(blocks);
    }
  }

  lemma StillNew(blocks: seq<Value>, i: nat, known: set<string>, id: string)
    requires blocks != [] && i < |blocks| - 1
    ensures IsNewCall(blocks, i, known, id) <==> IsNewCall(Init(blocks), i, known, id)
  {
    assert forall j :: 0 <= j < |blocks| - 1 ==> blocks[j] == Init(blocks)[j];
  }

  lemma LastIsNew(blocks: seq<Value>, known: set<string>, before: set<string>, id: string)
    requires blocks != [] && KnowsCalls(before, Init(blocks), known)
    ensures IsNewCall(blocks, |blocks| - 1, known, id) <==> IsCall(Last(blocks), id) && id !in before
  {
    assert forall j :: 0 <= j < |blocks| - 1 ==> blocks[j] == Init(blocks)[j];
  }

  lemma StillAnnounces(e: AgentEvent, blocks: seq<Value>, i: nat, known: set<string>, show: Rendering)
    requires blocks != [] && i < |blocks| - 1 && AnnouncesAt(e, Init(blocks), i, known, show)
    ensures AnnouncesAt(e, blocks, i, known, show)
  {
    StillNew(blocks, i, known, e.callId);
  }

  lemma OneMoreAnnounced(blocks: seq<Value>, known: set<string>, before: set<string>, out: seq<AgentEvent>,
      some: seq<nat>, show: Rendering)
    requires blocks != [] && IsToolUse(Last(blocks)) && CallId(Last(blocks)) !in before
    requires KnowsCalls(before, Init(blocks), known) && AnnouncesAll(out, some, Init(blocks), known, show)
    ensures AnnouncesAll(out + [Started(Last(blocks), show)], some + [|blocks| - 1], blocks, known, show)
  {
    StartedAnnounces(Last(blocks), show);
    LastIsNew(blocks, known, before, CallId(Last(blocks)));
    assert AnnouncesAt(Started(Last(blocks), show), blocks, |blocks| - 1, known, show);
    forall k | 0 <= k < |some|
      ensures AnnouncesAt(out[k], blocks, some[k], known, show)
    {
      StillAnnounces(out[k], blocks, some[k], known, show);
    }
    NoneLeftOutWith(blocks, known, some);
  }

  lemma NoneLeftOutWith(blocks: seq<Value>, known: set<string>, some: seq<nat>)
    requires blocks != [] && NoneLeftOut(some, Init(blocks), known)
    ensures NoneLeftOut(some + [|blocks| - 1], blocks, known)
  {
    forall i: nat, id | IsNewCall(blocks, i, known, id)
      ensures i in some + [|blocks| - 1]
    {
      if i < |blocks| - 1 {
        StillNew(blocks, i, known, id);
      } else {
        assert (some + [|blocks| - 1])[|some|] == i;
      }
    }
  }

  lemma NoMoreAnnounced(blocks: seq<Value>, known: set<string>, before: set<string>, out: seq<AgentEvent>,
      some: seq<nat>, show: Rendering)
    requires blocks != [] && !(IsToolUse(Last(blocks)) && CallId(Last(blocks)) !in before)
    requires KnowsCalls(before, Init(blocks), known) && AnnouncesAll(out, some, Init(blocks), known, show)
    ensures AnnouncesAll(out, some, blocks, known, show)
  {
    forall k | 0 <= k < |some|
      ensures AnnouncesAt(out[k], blocks, some[k], known, show)
    {
      StillAnnounces(out[k], blocks, some[k], known, show);
    }
    forall i: nat, id | IsNewCall(blocks, i, known, id)
      ensures i in some
    {
      if i < |blocks| - 1 {
        StillNew(blocks, i, known, id);
      } else {
        LastIsNew(blocks, known, before, id);
      }
    }
  }

  lemma {:induction false} KnownAfter(blocks: seq<Value>, known: set<string>, show: Rendering)
    ensures KnowsCalls(NewCalls(blocks, known, show).0, blocks, known)
    decreases |blocks|
  {
    if blocks != [] {
      KnownAfter(Init(blocks), known, show);
      assert forall id :: IsCall(Last(blocks), id) <==> IsToolUse(Last(blocks)) && id == CallId(Last(blocks));
      KnowsMore(blocks, known, NewCalls(Init(blocks), known, show).0, NewCalls(blocks, known, show).0);
    }
  }

  lemma {:induction false} NewCallsAre(blocks: seq<Value>, known: set<string>, show: Rendering)
    returns (places: seq<nat>)
    ensures AnnouncesAll(NewCalls(blocks, known, show).1, places, blocks, known, show)
    decreases |blocks|
  {
    if blocks == [] {
      places := [];
    } else {
      var (before, out) := NewCalls(Init(blocks), known, show);
      places := NewCallsAre(Init(blocks), known, show);
      KnownAfter(Init(blocks), known, show);
      if IsToolUse(Last(blocks)) && CallId(Last(blocks)) !in before {
        OneMoreAnnounced(blocks, known, before, out, places, show);
        places := places + [|blocks| - 1];
      } else {
        NoMoreAnnounced(blocks, known, before, out, places, show);
      }
    }
  }

  /**
   * An assistant's message announces each of its calls that is not known, once and in order,
   * by its id, its own name and its arguments as shown.
   */
  lemma AssistantAnnounces(p: ParserState, line: Value, show: Rendering) returns (places: seq<nat>)
    requires line.At("type") == String("assistant")
    ensures var blocks := line.At("message").At("content").Items();
            var (after, events) := Parse(p, Some(line), show);
            && AnnouncesAll(events, places, blocks, p.startedTools, show)
            && KnowsCalls(after.startedTools, blocks, p.startedTools)
            && after == p.(startedTools := after.startedTools)
  {
    places := NewCallsAre(line.At("message").At("content").Items(), p.startedTools, show);
    KnownAfter(line.At("message").At("content").Items(), p.startedTools, show);
  }

  // ---- Tool results ----

  predicate IsToolResult(block: Value) {
    block.At("type") == String("tool_result")
  }

  /** The texts of a list's parts that have one. */
  function TextsOf(parts: seq<Value>): seq<string> {
    if parts == [] then []
    else (match parts[0].At("text") case String(s) => [s] case _ => []) + TextsOf(parts[1..])
  }

  /** What a result says: its text, or the texts of its parts with a space between. */
  function SaidBy(content: Value): string {
    match content
    case String(s) => s
    case Array(parts) => Text.Join(TextsOf(parts), " ")
    case _ => ""
  }

  predicate Reports(e: AgentEvent, block: Value, show: Rendering) {
    && e.ToolCallFinished?
    && (match block.At("tool_use_id") case String(id) => e.callId == id case _ => e.callId == "")
    && (e.ok <==> block.At("is_error") != Bool(true))
    && e.summary == show.shorten(SaidBy(block.At("content")))
  }

  /** The events report, in the order of the message, each tool result and nothing else. */
  ghost predicate ReportsAll(events: seq<AgentEvent>, places: seq<nat>, blocks: seq<Value>, show: Rendering) {
    && InOrder(places, |blocks|) && |events| == |places|
    && (forall k :: 0 <= k < |places| ==> IsToolResult(blocks[places[k]]))
    && (forall k :: 0 <= k < |places| ==> Reports(events[k], blocks[places[k]], show))
    && (forall i: nat :: i < |blocks| && IsToolResult(blocks[i]) ==> i in places)
  }

  predicate HasText(part: Value) {
    part.At("text").String?
  }

  lemma {:induction false} FilterKeepsTexts(parts: seq<Value>)
    ensures TextsOf(Filter(parts, HasText)) == TextsOf(parts)
    decreases |parts|
  {
    if parts != [] {
      FilterKeepsTexts(parts[1..]);
      FilterFirst(parts, HasText);
      var rest := Filter(parts[1..], HasText);
      if HasText(parts[0]) {
        assert ([parts[0]] + rest)[1..] == rest;
      } else {
        assert [] + rest == rest;
      }
    }
  }

  lemma {:induction false} TextsJoined(parts: seq<Value>)
    requires forall p :: p in parts ==> HasText(p)
    ensures JoinTexts(parts) == Text.Join(TextsOf(parts), " ") && |TextsOf(parts)| == |parts|
    decreases |parts|
  {
    if parts != [] {
      assert HasText(parts[0]);
      TextsJoined(parts[1..]);
      assert TextsOf(parts) == [parts[0].At("text").s] + TextsOf(parts[1..]);
      assert TextsOf(parts)[1..] == TextsOf(parts[1..]);
    }
  }

  lemma ResultTextIs(content: Value)
    ensures ResultText(content) == SaidBy(content)
  {
    TextsJoined(Filter(content.Items(), HasText));
    FilterKeepsTexts(content.Items());
    assert Filter(content.Items(), (p: Value) => p.At("text").String?) == Filter(content.Items(), HasText) by {
      SameFilter(content.Items(), (p: Value) => p.At("text").String?, HasText);
    }
  }

  lemma OneMoreReported(blocks: seq<Value>, out: seq<AgentEvent>, some: seq<nat>, e: AgentEvent, show: Rendering)
    requires blocks != [] && ReportsAll(out, some, Init(blocks), show)
    requires IsToolResult(Last(blocks)) && Reports(e, Last(blocks), show)
    ensures ReportsAll(out + [e], some + [|blocks| - 1], blocks, show)
  {
    var last := |blocks| - 1;
    assert forall k :: 0 <= k < |some| ==> blocks[some[k]] == Init(blocks)[some[k]];
    forall i: nat | i < |blocks| && IsToolResult(blocks[i])
      ensures i in some + [last]
    {
      if i < last {
        assert Init(blocks)[i] == blocks[i];
      } else {
        assert (some + [last])[|some|] == i;
      }
    }
  }

  lemma NoMoreReported(blocks: seq<Value>, out: seq<AgentEvent>, some: seq<nat>, show: Rendering)
    requires blocks != [] && ReportsAll(out, some, Init(blocks), show) && !IsToolResult(Last(blocks))
    ensures ReportsAll(out, some, blocks, show)
  {
    assert forall j :: 0 <= j < |blocks| - 1 ==> blocks[j] == Init(blocks)[j];
  }

  lemma {:induction false} ToolResultsAre(blocks: seq<Value>, show: Rendering) returns (places: seq<nat>)
    ensures ReportsAll(ToolResults(blocks, show), places, blocks, show)
    decreases |blocks|
  {
    if blocks == [] {
      places := [];
    } else {
      var before, last := ToolResults(Init(blocks), show), Last(blocks);
      places := ToolResultsAre(Init(blocks), show);
      if IsToolResult(last) {
        ResultTextIs(last.At("content"));
        var e := ToolCallFinished(last.At("tool_use_id").StringOr(""), last.At("is_error") != Bool(true),
                                  show.shorten(ResultText(last.At("content"))));
        OneMoreReported(blocks, before, places, e, show);
        places := places + [|blocks| - 1];
      } else {
        NoMoreReported(blocks, before, places, show);
        assert before + [] == before;
      }
    }
  }

  /** A user's message reports each of its tool results, in order: whether it failed, and what it says, shortened. */
  lemma UserReports(p: ParserState, line: Value, show: Rendering) returns (places: seq<nat>)
    requires line.At("type") == String("user")
    ensures var (after, events) := Parse(p, Some(line), show);
            ReportsAll(events, places, line.At("message").At("content").Items(), show) && after == p
  {
    places := ToolResultsAre(line.At("message").At("content").Items(), show);
  }

  /** A line of any other type, or that is not JSON, says nothing. */
  lemma OthersSayNothing(p: ParserState, line: Option<Value>, show: Rendering)
    requires line.Some? ==>
               && line.value.At("type") !in {String("stream_event"), String("assistant")}
               && line.value.At("type") !in {String("user"), String("result")}
               && !IsInitLine(line.value)
    ensures Parse(p, line, show) == (p, [])
  {
  }
}

// What an agent session reports (crates/agent-api/src/lib.rs).
module Events {
  import opened Prelude

  datatype Usage = Usage(inputTokens: int, outputTokens: int, cachedInputTokens: int)

  datatype AgentEvent =
    | SessionStarted(externalId: Option<string>)
    | TurnStarted
    | TextDelta(text: string)
    | ThinkingDelta(text: string)
    | ToolCallStarted(callId: string, tool: string, argsSummary: string)
    | ToolCallFinished(callId: string, ok: bool, summary: string)
    | ActionProposed(draftId: Option<int>, actionId: int, tool: string, summary: string)
    | ActionResolved(actionId: int, approved: bool)
    | ResultsAvailable(threadIds: seq<string>, title: Option<string>)
    | TurnCompleted(usage: Option<Usage>, costUsd: Option<real>)
    | TurnFailed(message: string)
    | SessionEnded
  {
    predicate IsDelta() {
      TextDelta? || ThinkingDelta?
    }

    /** The events that end a turn. */
    predicate IsTerminal() {
      TurnCompleted? || TurnFailed?
    }
  }
}

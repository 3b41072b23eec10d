/**
 The canonical Agent Events (crates/agent-runtime/src/run.rs) and the tool and
 model payloads they carry. JSON values are opaque: a `Json` is a canonical text.
 Every variant of the source enum carries `run_id`, `event_sequence` and
 `extensions`; they are factored into the envelope here.
 */
module Events {
  import opened Prelude

  type RunId = string
  type TurnId = string
  type ToolCallId = string
  type ModelToolCallId = string
  type Json = string
  type Extensions = map<string, Json>

  /** Reserved for the Agent Runtime's canonical denial result. */
  const APPROVAL_DENIED := "approval_denied"

  datatype ToolCall = ToolCall(id: ToolCallId, toolName: string, arguments: Json)

  datatype ToolError = ToolError(code: string, message: string, retryable: bool)

  datatype Content = Text(text: string) | JsonContent(value: Json)

  datatype ToolOutput =
    | ToolSuccess(content: seq<Content>, metadata: Extensions, extensions: Extensions)
    | ToolFailure(error: ToolError, extensions: Extensions)

  /** The output a reader takes for a denial by the user. */
  predicate ClaimsDenial(output: ToolOutput) {
    output.ToolFailure? && output.error.code == APPROVAL_DENIED
  }

  datatype ToolOutcome = ToolOutcome(callId: ToolCallId, output: ToolOutput)

  datatype ModelError = ModelError(code: string, message: string, retryable: bool)

  datatype ModelStreamEvent =
    | Started
    | TextDelta(delta: string)
    | ToolCallDelta(deltaId: ModelToolCallId, argumentsDelta: string)
    | ModelCall(id: ModelToolCallId, name: string, arguments: Json)
    | Usage(inputTokens: nat, outputTokens: nat)
    | StreamCompleted
    | StreamFailed(error: ModelError)

  /** A handler that was entered for a call, and whether its plan needed an approval. */
  datatype Execution = Execution(call: ToolCall, needsApproval: bool)

  datatype AgentError = AgentError(code: string, message: string, recoverable: bool)

  datatype ApprovalRequest = ApprovalRequest(id: string, call: ToolCall, reason: string)

  datatype ApprovalDecision = Approve | Deny(reason: string)

  datatype TerminalRunStatus =
    | Completed(finalMessage: string)
    | Failed(error: AgentError)
    | Interrupted(reason: string)
    | Cancelled(reason: string)
  {
    /** Chosen by a stop request rather than by the run itself. */
    predicate IsStop() {
      Interrupted? || Cancelled?
    }
  }

  datatype RunStatus =
    | Running
    | AwaitingApproval
    | RecoveryRequired(callIds: seq<ToolCallId>)
    | Finished(terminalStatus: TerminalRunStatus)

  datatype EventBody =
    | RunStarted
    | TurnStarted(turn: TurnId)
    | ModelOutput(turn: TurnId, event: ModelStreamEvent)
    | ToolCallRequested(turn: TurnId, modelCallId: ModelToolCallId, call: ToolCall)
    | ApprovalRequested(turn: TurnId, request: ApprovalRequest)
    | ApprovalResolved(turn: TurnId, approvalId: string, decision: ApprovalDecision)
    | ToolResult(turn: TurnId, result: ToolOutcome)
    | RunError(maybeTurn: Option<TurnId>, error: AgentError)
    | RunFinished(status: TerminalRunStatus)

  datatype AgentEvent = AgentEvent(
    runId: RunId,
    sequence: Option<nat>,
    extensions: Extensions,
    body: EventBody)
  {
    /** The turn an event must flow into; `TurnStarted` opens its own. */
    function InTurn(): Option<TurnId> {
      match body
      case ModelOutput(t, _) => Some(t)
      case ToolCallRequested(t, _, _) => Some(t)
      case ApprovalRequested(t, _) => Some(t)
      case ApprovalResolved(t, _, _) => Some(t)
      case ToolResult(t, _) => Some(t)
      case RunError(t, _) => t
      case _ => None
    }

    function WithSequence(s: nat): AgentEvent {
      this.(sequence := Some(s))
    }
  }

  type Log = seq<AgentEvent>
}

/**
 The Agent Runtime (crates/agent-runtime/src/runtime.rs) over the JSONL store and
 the Tool Runtime. Model streams, approval decisions, checkpoints, handler outputs,
 I/O failures and stop requests from other threads are arbitrary.
 */
module AgentRuntime {
  import opened Prelude
  import opened Events
  import opened Lifecycle
  import opened LogBytes
  import opened EventStore
  import opened Ids
  import opened Conversation
  import opened CrashSafety
  import opened RunLog
  import ToolGate
  import ApprovalReason

  const MAX_TURNS: nat := 128
  const EMPTY_APPROVAL_DENIAL_REASON := "approval denied without a reason"

  datatype RunControlFlow = Continue | Interrupt(reason: string) | Cancel(reason: string)

  datatype RuntimeError =
    | RuntimeAlreadyUsed(runId: RunId)
    | StopTokenAlreadyBound(runId: RunId)
    | EventPersistenceIndeterminate(sequence: nat, event: EventBody, durable: bool, cause: StoreError)
    | SequenceExhausted

  // ---- the stop latch --------------------------------------------------------------

  /** A one-run terminal latch; the first writer wins, on whatever thread it runs. */
  class RunStopToken {
    var cancellation: bool
    var boundRunId: Option<RunId>
    var terminalStatus: Option<TerminalRunStatus>

    ghost predicate Valid()
      reads this
    {
      && (cancellation ==> terminalStatus.Some? && terminalStatus.value.IsStop())
      && (boundRunId.None? ==> StopOnly())
    }

    /** Nothing but a stop request has been latched. */
    ghost predicate StopOnly()
      reads this
    {
      terminalStatus.Some? ==> terminalStatus.value.IsStop()
    }

    /** Bound to a run that has not finished yet. */
    ghost predicate Running()
      reads this
    {
      Valid() && StopOnly() && boundRunId.Some?
    }

    constructor ()
      ensures Valid() && StopOnly() && boundRunId.None?
    {
      cancellation, boundRunId, terminalStatus := false, None, None;
    }

    /** Other threads: a stop may be latched if nothing is, and a latched stop becomes visible. */
    method Interfere()
      requires Valid()
      modifies `cancellation, `terminalStatus
      ensures Valid()
      ensures old(terminalStatus).Some? ==> terminalStatus == old(terminalStatus)
      ensures old(StopOnly()) ==> StopOnly()
      ensures old(cancellation) ==> cancellation
    {
      var request: bool := *;
      if request && terminalStatus.None? {
        var reason: string := *;
        var interrupt: bool := *;
        terminalStatus := Some(if interrupt then Interrupted(reason) else Cancelled(reason));
      }
      var visible: bool := *;
      if visible && terminalStatus.Some? && terminalStatus.value.IsStop() {
        cancellation := true;
      }
    }

    method Bind(runId: RunId) returns (taken: Option<RunId>)
      requires Valid()
      modifies this
      ensures Valid()
      ensures taken.None? ==> old(boundRunId).None? && boundRunId == Some(runId) && StopOnly()
      ensures taken.Some? ==> taken == old(boundRunId) == boundRunId
    {
      Interfere();
      if boundRunId.Some? { return boundRunId; }
      boundRunId := Some(runId);
      return None;
    }

    /** The critical section that decides a run's terminal status. */
    method ResolveTerminal(proposed: TerminalRunStatus) returns (status: TerminalRunStatus)
      requires Valid() && boundRunId.Some?
      modifies `cancellation, `terminalStatus
      ensures Valid()
      ensures terminalStatus == Some(status)
      ensures old(terminalStatus).Some? ==> status == old(terminalStatus).value
      ensures old(StopOnly()) ==> status == proposed || status.IsStop()
    {
      Interfere();
      if terminalStatus.None? {
        terminalStatus := Some(proposed);
        if proposed.IsStop() {
          cancellation := true;
        }
      }
      return terminalStatus.value;
    }

    method Status() returns (status: Option<TerminalRunStatus>)
      requires Valid()
      modifies `cancellation, `terminalStatus
      ensures Valid() && (old(StopOnly()) ==> StopOnly())
      ensures old(terminalStatus).Some? ==> terminalStatus == old(terminalStatus)
      ensures status.Some? ==> status == terminalStatus && status.value.IsStop()
    {
      Interfere();
      if !cancellation { return None; }
      Interfere();
      return terminalStatus;
    }
  }

  // ---- pure helpers ------------------------------------------------------------------

  function NormalizeApprovalDecision(decision: ApprovalDecision): ApprovalDecision {
    match decision
    case Approve => Approve
    case Deny(reason) =>
      var bounded := ApprovalReason.Bound(reason);
      if ApprovalReason.Blank(bounded) then Deny(EMPTY_APPROVAL_DENIAL_REASON) else Deny(bounded)
  }

  function Denial(reason: string): ToolOutput {
    ToolFailure(ToolError(APPROVAL_DENIED, reason, false), map[])
  }

  method ToolResultContent(output: ToolOutput) returns (content: seq<Content>)
    ensures output.ToolSuccess? ==> content == output.content
    ensures output.ToolFailure? ==> |content| == 1 && content[0].JsonContent?
  {
    match output {
      case ToolSuccess(items, _, _) => content := items;
      case ToolFailure(_, _) =>
        var value: Json := *;
        content := [JsonContent(value)];
    }
  }

  datatype ModelTurnProgress =
    | Collected(turn: CollectedTurn)
    | TurnEnded(status: TerminalRunStatus)

  datatype ToolCallProgress = Answer(message: ModelMessage) | CallEnded(status: TerminalRunStatus)

  lemma SequencedSnoc(log: Log, e: AgentEvent)
    requires Sequenced(log) && |log| < U64_MAX && e.sequence == Some(|log| + 1)
    ensures Sequenced(log + [e])
  {
  }

  lemma LatestOnce(c: Codec, moments: seq<Moment>)
    requires SafeRun(c, moments)
    ensures OnceEach(Latest(moments).executed)
  {
    assert SafeMoment(c, moments[|moments| - 1]);
  }

  // ---- the runtime -----------------------------------------------------------------------

  class Runtime {
    const store: JsonlEventStore
    const dispatcher: ToolGate.ToolRuntime
    var nextEventSequence: nat
    var startedRunId: Option<RunId>

    /** Records known to be committed, how many are durable, every instant so far, and every model request. */
    ghost var log: Log
    ghost var durable: nat
    ghost var moments: seq<Moment>
    ghost var requests: seq<seq<ModelMessage>>

    ghost function Now(): Moment
      reads this, store, store.file, dispatcher`executed
    {
      Moment(log, durable, store.file.bytes, store.file.Durable(), dispatcher.executed)
    }

    /** Every instant from the empty log on was safe, one step after the last, and the present is the latest of them. */
    ghost predicate HistorySafe()
      reads this, store, store.file, dispatcher`executed
    {
      SafeRun(store.codec, moments) && Latest(moments) == Now()
    }

    /** The file holds exactly the committed records, and the durable ones durably. */
    ghost predicate Stored()
      reads this, store, store.file
    {
      && store.Valid() && store.codec.Lawful()
      && Holds(store.codec, store.file.bytes, log, [])
      && Sequenced(log)
      && durable <= |log|
      && |FrameAll(store.codec, log[..durable])| <= store.file.Durable()
    }

    ghost predicate Valid()
      reads this, store, store.file, dispatcher`executed
    {
      Stored() && 1 <= nextEventSequence == |log| + 1 <= U64_MAX && HistorySafe()
    }

    /** A runtime over a brand-new Event Log, the one a run owns. */
    constructor (store: JsonlEventStore, dispatcher: ToolGate.ToolRuntime)
      requires store.Valid() && store.codec.Lawful() && store.file.bytes == [] && dispatcher.executed == []
      ensures Valid() && log == [] && startedRunId.None? && requests == []
      ensures this.store == store && this.dispatcher == dispatcher
    {
      this.store, this.dispatcher := store, dispatcher;
      nextEventSequence, startedRunId := 1, None;
      log, durable, moments, requests := [], 0, [START], [];
      new;
      RunBegins(store.codec);
    }

    /** History grows, instant by instant, and the operating system's refusals are counted. */
    twostate predicate Proceeds()
      reads this, store, store.file, dispatcher`executed
    {
      HistorySafe() && old(moments) <= moments && old(store.file.faults) <= store.file.faults
    }

    /** A run fails only when the operating system refused an append, or the last sequence number is used. */
    twostate predicate Excused(error: RuntimeError)
      reads this, store.file
    {
      match error
      case EventPersistenceIndeterminate(_, _, _, cause) => IoFailure(cause) && store.file.faults > old(store.file.faults)
      case SequenceExhausted => nextEventSequence == U64_MAX
      case _ => false
    }

    ghost predicate CanEmit(e: AgentEvent)
      reads this, dispatcher`executed
    {
      Emittable(log, durable, dispatcher.executed, e)
    }

    /** One append, after which the ghost records say what reached the file. */
    method AppendRecord(run: RunId, body: EventBody, mustBeDurable: bool) returns (r: Result<(), StoreError>)
      requires Valid() && CanEmit(Emitted(run, nextEventSequence, body))
      modifies this`log, this`durable, this`moments, store, store.file
      ensures Proceeds()
      ensures log == old(log) || log == old(log) + [Emitted(run, nextEventSequence, body)]
      ensures r.Failure? ==> IoFailure(r.error) && store.file.faults > old(store.file.faults)
      ensures r.Success? ==>
                && Stored()
                && log == old(log) + [Emitted(run, nextEventSequence, body)]
                && durable == (if mustBeDurable then |log| else old(durable))
                && Timeline(log, Strict)
      ensures r.Success? && old(Settled(log, durable, dispatcher.executed)) ==> Settled(log, durable, dispatcher.executed)
    {
      hide SafeRun, Timeline, Settled, SafeLog, Holds, Sequenced, FrameAll, AppendEffect, Emittable;
      ghost var record := Emitted(run, nextEventSequence, body);
      SequencedSnoc(log, record);
      r := WriteRecord(run, body, mustBeDurable);
      ghost var written, after := AppendInstants(store.codec, moments, record, store.file.bytes, store.file.Durable(), mustBeDurable, r.Success?);
      log, durable := after.log, after.durable;
      moments := moments + [written] + [after];
      assert Now() == after;
    }

    /** The append itself: the file accepts the next number, so only the operating system can refuse it. */
    method WriteRecord(run: RunId, body: EventBody, mustBeDurable: bool) returns (r: Result<(), StoreError>)
      requires Stored() && 1 <= nextEventSequence == |log| + 1 <= U64_MAX
      modifies store, store.file
      ensures store.Valid() && old(store.file.Durable()) <= store.file.Durable() && old(store.file.faults) <= store.file.faults
      ensures AppendEffect(store.codec, old(store.file.bytes), store.file.bytes, Emitted(run, nextEventSequence, body), r.Success?)
      ensures r.Success? && mustBeDurable ==> store.file.Durable() == |store.file.bytes|
      ensures r.Failure? ==> IoFailure(r.error) && store.file.faults > old(store.file.faults)
    {
      hide AppendEffect, Sequenced, ReadLog, MayAppend, FrameAll, Codec.Lawful;
      var e := AgentEvent(run, None, map[], body);
      NextAccepted(store.codec, log);
      assert FrameAll(store.codec, log) + [] == FrameAll(store.codec, log);
      r := store.AppendWithDurability(Some(nextEventSequence), e, mustBeDurable);
      assert Stamped(Some(nextEventSequence), e) == Emitted(run, nextEventSequence, body);
    }

    /** `emit` and `emit_durable`: one append whose failure is ambiguous. Every outcome is a safe moment. */
    method Emit(run: RunId, body: EventBody, mustBeDurable: bool) returns (r: Result<(), RuntimeError>)
      requires Valid() && CanEmit(Emitted(run, nextEventSequence, body))
      modifies this`nextEventSequence, this`log, this`durable, this`moments, store, store.file
      ensures Proceeds() && (r.Failure? ==> Excused(r.error))
      ensures log == old(log) || log == old(log) + [Emitted(run, old(nextEventSequence), body)]
      ensures r.Success? ==>
                && Valid()
                && log == old(log) + [Emitted(run, old(nextEventSequence), body)]
                && durable == (if mustBeDurable then |log| else old(durable))
                && Timeline(log, Strict)
      ensures r.Success? && old(Settled(log, durable, dispatcher.executed)) ==> Settled(log, durable, dispatcher.executed)
    {
      hide SafeRun, Settled, Timeline, Holds, Sequenced, FrameAll, Emittable;
      var appended := AppendRecord(run, body, mustBeDurable);
      if appended.Failure? {
        return Failure(EventPersistenceIndeterminate(nextEventSequence, body, mustBeDurable, appended.error));
      }
      if nextEventSequence == U64_MAX {
        return Failure(SequenceExhausted);
      }
      nextEventSequence := nextEventSequence + 1;
      return Success(());
    }

    /** What the runtime knows when it hands a plan to the gate: the plan is its own, and its approval was obtained if it needs one. */
    ghost predicate Cleared(plan: ToolGate.PreparedToolCall, authorization: ToolGate.Authorization, decision: Option<ApprovalDecision>)
      reads dispatcher`plans
    {
      && plan in dispatcher.plans && plan.dispatcher == dispatcher.identity && ToolGate.Honest(plan)
      && decision == (if plan.disposition.NeedsApproval? then Some(Approve) else None)
      && authorization == (if decision.Some? then ToolGate.ApprovalGranted(plan.call.id) else ToolGate.NotRequired)
    }

    /** The prepared plan is run through the gate; the process may die at any point inside the handler. */
    method Execute(plan: ToolGate.PreparedToolCall, authorization: ToolGate.Authorization,
                   ghost run: RunId, ghost n: Counters, ghost turn: TurnId, ghost decision: Option<ApprovalDecision>)
      returns (output: ToolOutput, ghost raw: Option<ToolOutput>)
      requires Valid() && dispatcher.Valid() && Cleared(plan, authorization, decision)
      requires durable == |log| && Settled(log, durable, dispatcher.executed)
      requires InCall(log, run, n, turn, plan.call) && AllResolved(log)
      requires DecisionKnown(log, plan.call.id, decision)
      modifies this`moments, dispatcher`executed
      ensures Valid() && dispatcher.Valid() && Proceeds()
      ensures !ClaimsDenial(output)
      ensures SafeLog(log, durable, dispatcher.executed)
      ensures dispatcher.executed == old(dispatcher.executed) || dispatcher.executed == old(dispatcher.executed) + [ToolGate.ExecutionOf(plan)]
      ensures Originates(PassedOrigin(raw), plan, decision, output, old(dispatcher.executed), dispatcher.executed)
    {
      hide SafeRun, Timeline, Settled, SafeLog, Holds, Sequenced, FrameAll, InCall, AllResolved, DecisionKnown, ClaimsDenial, OnceEach;
      hide Codec.Lawful, Originates, ToolGate.Passed, ToolGate.Honest, ToolGate.FollowsPolicy, ToolGate.Admissible;
      LatestOnce(store.codec, moments);
      ExecuteSafe(log, dispatcher.executed, run, n, turn, ToolGate.ExecutionOf(plan), decision);
      ghost var before := dispatcher.executed;
      output, raw := dispatcher.ExecutePrepared(plan, authorization);
      PassedOriginates(output, raw, plan, decision, before, dispatcher.executed);
      ExecutionInstant(store.codec, moments, dispatcher.executed, ToolGate.ExecutionOf(plan));
      moments := moments + [Now()];
    }

    /** Between two tool calls of `turn`, with every execution settled. */
    ghost predicate Ready(run: RunId, n: Counters, turn: Option<TurnId>)
      reads this, store, store.file, dispatcher`executed
    {
      && Valid()
      && Between(log, run, n)
      && (turn.Some? ==> ActiveTurn(log) == turn)
      && Settled(log, durable, dispatcher.executed)
    }

    /** The run ended with `status` recorded as its last event. */
    ghost predicate EndedWith(run: RunId, stop: RunStopToken, status: TerminalRunStatus)
      reads this, stop
    {
      && Timeline(log, Strict) && log[0].runId == run
      && log[|log| - 1].body == RunFinished(status) && durable == |log|
      && stop.terminalStatus == Some(status)
    }

    /** Latches the terminal status, first writer wins, and records exactly that status. */
    method Finish(run: RunId, proposed: TerminalRunStatus, stop: RunStopToken, ghost n: Counters)
      returns (r: Result<TerminalRunStatus, RuntimeError>)
      requires Valid() && stop.Running()
      requires Ongoing(log, run, n) && Settled(log, durable, dispatcher.executed)
      requires proposed.IsStop() || AllAnswered(log)
      modifies this`nextEventSequence, this`log, this`durable, this`moments, store, store.file, stop`cancellation, stop`terminalStatus
      ensures Proceeds() && (r.Failure? ==> Excused(r.error)) && Silent(old(log), log)
      ensures r.Success? ==>
                && EndedWith(run, stop, r.value)
                && (r.value == proposed || r.value.IsStop())
    {
      hide SafeRun, Timeline, Settled, SafeLog, Holds, Sequenced, FrameAll;
      var status := stop.ResolveTerminal(proposed);
      var emitted := Emit(run, RunFinished(status), true);
      if emitted.Failure? { return Failure(emitted.error); }
      return Success(status);
    }

    /** A turn start, a model event or an error between two calls. */
    method EmitBetween(run: RunId, body: EventBody, ghost n: Counters, ghost n': Counters, ghost turn: Option<TurnId>)
      returns (r: Result<(), RuntimeError>)
      requires Ready(run, n, turn) && Counts(run, n, body, n')
      requires body.TurnStarted? || body.ModelOutput? || body.RunError?
      requires Emitted(run, 0, body).InTurn().Some? ==> Emitted(run, 0, body).InTurn() == turn
      modifies this`nextEventSequence, this`log, this`durable, this`moments, store, store.file
      ensures Proceeds() && (r.Failure? ==> Excused(r.error))
      ensures log == old(log) || log == old(log) + [Emitted(run, old(nextEventSequence), body)]
      ensures r.Success? ==> Ready(run, n', if body.TurnStarted? then Some(body.turn) else turn)
      ensures r.Success? ==> log == old(log) + [Emitted(run, old(nextEventSequence), body)]
    {
      hide SafeRun, Timeline, Settled, SafeLog, Holds, Sequenced, FrameAll;
      BetweenSnoc(log, Emitted(run, nextEventSequence, body), run, n, n');
      r := Emit(run, body, false);
    }

    /** Records an error, then finishes as failed unless a stop won the race. */
    method FinishAgentError(run: RunId, turn: Option<TurnId>, error: AgentError, stop: RunStopToken, ghost n: Counters)
      returns (r: Result<TerminalRunStatus, RuntimeError>)
      requires Ready(run, n, turn) && stop.Running()
      modifies this`nextEventSequence, this`log, this`durable, this`moments, store, store.file, stop`cancellation, stop`terminalStatus
      ensures Proceeds() && (r.Failure? ==> Excused(r.error)) && Silent(old(log), log)
      ensures r.Success? ==> EndedWith(run, stop, r.value) && (r.value == Failed(error) || r.value.IsStop())
    {
      hide SafeRun, Timeline, Ongoing, Settled, SafeLog, Holds, Sequenced, FrameAll;
      var emitted := EmitBetween(run, RunError(turn, error), n, n, turn);
      if emitted.Failure? { return Failure(emitted.error); }
      r := Finish(run, Failed(error), stop, n);
    }

    /** `stopped_status`: a checkpoint may itself request a stop. */
    method StoppedStatus(stop: RunStopToken) returns (status: Option<TerminalRunStatus>)
      requires stop.Running()
      modifies stop`cancellation, stop`terminalStatus
      ensures stop.Running()
      ensures status.Some? ==> status == stop.terminalStatus && status.value.IsStop()
    {
      var control: RunControlFlow := *;
      match control {
        case Continue =>
        case Interrupt(reason) => var _ := stop.ResolveTerminal(Interrupted(reason));
        case Cancel(reason) => var _ := stop.ResolveTerminal(Cancelled(reason));
      }
      status := stop.Status();
    }

    /** Records one stream event, then acts on it. */
    method RecordStreamEvent(run: RunId, turn: TurnId, event: ModelStreamEvent, partial: CollectedTurn, stop: RunStopToken, ghost n: Counters)
      returns (r: Result<StreamProgress, RuntimeError>)
      requires Ready(run, n, Some(turn)) && stop.Running()
      modifies this`nextEventSequence, this`log, this`durable, this`moments, store, store.file, stop`cancellation, stop`terminalStatus
      ensures Proceeds() && (r.Failure? ==> Excused(r.error)) && SpeaksIn(old(log), log, turn)
      ensures r.Success? && r.value.StreamEnded? ==> EndedWith(run, stop, r.value.status)
      ensures r.Success? && r.value.More? ==>
                && Ready(run, n, Some(turn)) && stop.Running()
                && Absorb(event, partial) == Absorbed(r.value.turn, r.value.completed)
                && log == old(log) + [Emitted(run, old(nextEventSequence), ModelOutput(turn, event))]
    {
      hide SafeRun, Timeline, Ongoing, Settled, SafeLog, Holds, Sequenced, FrameAll;
      var step := Absorb(event, partial);
      var emitted := EmitBetween(run, ModelOutput(turn, event), n, n, Some(turn));
      if emitted.Failure? { return Failure(emitted.error); }
      if step.Absorbed? { return Success(More(step.turn, step.completed)); }
      var ended := FinishAgentError(run, Some(turn), step.error, stop, n);
      if ended.Failure? { return Failure(ended.error); }
      return Success(StreamEnded(ended.value));
    }

    /** One stream event, after a checkpoint. */
    method StreamStep(run: RunId, turn: TurnId, event: ModelStreamEvent, partial: CollectedTurn, stop: RunStopToken, ghost n: Counters)
      returns (r: Result<StreamProgress, RuntimeError>)
      requires Ready(run, n, Some(turn)) && stop.Running()
      modifies this`nextEventSequence, this`log, this`durable, this`moments, store, store.file, stop`cancellation, stop`terminalStatus
      ensures Proceeds() && (r.Failure? ==> Excused(r.error)) && SpeaksIn(old(log), log, turn)
      ensures r.Success? && r.value.StreamEnded? ==> EndedWith(run, stop, r.value.status)
      ensures r.Success? && r.value.More? ==>
                && Ready(run, n, Some(turn)) && stop.Running()
                && Absorb(event, partial) == Absorbed(r.value.turn, r.value.completed)
                && log == old(log) + [Emitted(run, old(nextEventSequence), ModelOutput(turn, event))]
    {
      hide SafeRun, Timeline, Ongoing, Settled, SafeLog, Holds, Sequenced, FrameAll;
      var stopped := StoppedStatus(stop);
      if stopped.Some? {
        var ended := Finish(run, stopped.value, stop, n);
        if ended.Failure? { return Failure(ended.error); }
        return Success(StreamEnded(ended.value));
      }
      r := RecordStreamEvent(run, turn, event, partial, stop, n);
    }

    /** After the stream: a stop, an incomplete stream, or a collected turn. */
    method ConcludeStream(run: RunId, turn: TurnId, collected: CollectedTurn, completed: bool, stop: RunStopToken, ghost n: Counters)
      returns (r: Result<ModelTurnProgress, RuntimeError>)
      requires Ready(run, n, Some(turn)) && stop.Running()
      modifies this`nextEventSequence, this`log, this`durable, this`moments, store, store.file, stop`cancellation, stop`terminalStatus
      ensures Proceeds() && (r.Failure? ==> Excused(r.error)) && Silent(old(log), log)
      ensures r.Success? && r.value.TurnEnded? ==> EndedWith(run, stop, r.value.status)
      ensures r.Success? && r.value.Collected? ==>
                && Ready(run, n, Some(turn)) && stop.Running() && log == old(log)
                && r.value.turn == collected && completed
    {
      hide SafeRun, Timeline, Ongoing, Settled, SafeLog, Holds, Sequenced, FrameAll;
      var stopped := stop.Status();
      var ended: Result<TerminalRunStatus, RuntimeError>;
      if stopped.Some? {
        ended := Finish(run, stopped.value, stop, n);
      } else if !completed {
        ended := FinishAgentError(run, Some(turn),
          AgentError("model_stream_incomplete", "model stream ended without a completed event", false), stop, n);
      } else {
        return Success(Collected(collected));
      }
      if ended.Failure? { return Failure(ended.error); }
      return Success(TurnEnded(ended.value));
    }

    /** The client refused to start a stream. */
    method RefuseStream(run: RunId, turn: TurnId, error: ModelError, stop: RunStopToken, ghost n: Counters)
      returns (r: Result<ModelTurnProgress, RuntimeError>)
      requires Ready(run, n, Some(turn)) && stop.Running()
      modifies this`nextEventSequence, this`log, this`durable, this`moments, store, store.file, stop`cancellation, stop`terminalStatus
      ensures Proceeds() && (r.Failure? ==> Excused(r.error)) && Silent(old(log), log)
      ensures r.Success? ==> r.value.TurnEnded? && EndedWith(run, stop, r.value.status)
    {
      hide SafeRun, Timeline, Ongoing, Settled, SafeLog, Holds, Sequenced, FrameAll;
      var stopped := stop.Status();
      var ended: Result<TerminalRunStatus, RuntimeError>;
      if stopped.Some? {
        ended := Finish(run, stopped.value, stop, n);
      } else {
        ended := FinishAgentError(run, Some(turn), AgentError(error.code, error.message, false), stop, n);
      }
      if ended.Failure? { return Failure(ended.error); }
      return Success(TurnEnded(ended.value));
    }

    /**
     One model turn: a request with the conversation so far, and a stream that is read until it completes,
     ends, or ends the run. A collected turn is the text and the calls of the events read, every one of
     which is recorded, in order.
     */
    method CollectModelTurn(run: RunId, turn: TurnId, messages: seq<ModelMessage>, stop: RunStopToken, ghost n: Counters)
      returns (r: Result<ModelTurnProgress, RuntimeError>, ghost read: seq<ModelStreamEvent>)
      requires Ready(run, n, Some(turn)) && stop.Running()
      modifies this`nextEventSequence, this`log, this`durable, this`moments, this`requests, store, store.file, stop`cancellation, stop`terminalStatus
      ensures Proceeds() && (r.Failure? ==> Excused(r.error)) && SpeaksIn(old(log), log, turn)
      ensures requests == old(requests) + [messages]
      ensures r.Success? && r.value.TurnEnded? ==> EndedWith(run, stop, r.value.status)
      ensures r.Success? && r.value.Collected? ==>
                && Ready(run, n, Some(turn)) && stop.Running()
                && r.value.turn == CollectedTurn(Deltas(read), Calls(read)) && DistinctIds(Calls(read))
                && CompleteStream(read) && Records(old(log), log, turn, read)
    {
      hide SafeRun, Timeline, Ongoing, Settled, SafeLog, Holds, Sequenced, FrameAll, Ready;
      read := [];
      RequestModel(messages, run, n, turn);
      var refused: Option<ModelError> := *;
      if refused.Some? {
        r := RefuseStream(run, turn, refused.value, stop, n);
        return;
      }
      var stream: seq<ModelStreamEvent> := *;
      r, read := ReadStream(run, turn, stream, stop, n);
    }

    method ReadStream(run: RunId, turn: TurnId, stream: seq<ModelStreamEvent>, stop: RunStopToken, ghost n: Counters)
      returns (r: Result<ModelTurnProgress, RuntimeError>, ghost read: seq<ModelStreamEvent>)
      requires Ready(run, n, Some(turn)) && stop.Running()
      modifies this`nextEventSequence, this`log, this`durable, this`moments, store, store.file, stop`cancellation, stop`terminalStatus
      ensures Proceeds() && (r.Failure? ==> Excused(r.error)) && SpeaksIn(old(log), log, turn)
      ensures r.Success? && r.value.TurnEnded? ==> EndedWith(run, stop, r.value.status)
      ensures r.Success? && r.value.Collected? ==>
                && Ready(run, n, Some(turn)) && stop.Running()
                && r.value.turn == CollectedTurn(Deltas(read), Calls(read)) && DistinctIds(Calls(read))
                && CompleteStream(read) && Records(old(log), log, turn, read)
    {
      hide SafeRun, Timeline, Ongoing, Settled, SafeLog, Holds, Sequenced, FrameAll;
      hide Absorb, Deltas, Calls, DistinctIds, Unfailed, Records, Ready;
      read := [];
      NothingRead(log, turn);
      ReadyIsSafe(run, n, Some(turn));
      var collected, completed := CollectedTurn("", []), false;
      var position := 0;
      while position < |stream| && !completed
        invariant position <= |stream| && read == stream[..position]
        invariant Ready(run, n, Some(turn)) && stop.Running()
        invariant Proceeds() && SpeaksIn(old(log), log, turn)
        invariant collected == CollectedTurn(Deltas(read), Calls(read)) && DistinctIds(Calls(read))
        invariant Unfailed(read, completed) && Records(old(log), log, turn, read)
        decreases |stream| - position
      {
        var event := stream[position];
        ghost var sofar := log;
        var step := StreamStep(run, turn, event, collected, stop, n);
        if step.Failure? { return Failure(step.error), read; }
        if step.value.StreamEnded? { return Success(TurnEnded(step.value.status)), read; }
        AbsorbSays(event, read);
        assert log[..|log| - 1] == sofar;
        RecordsSnoc(old(log), log, turn, read, event);
        collected, completed := step.value.turn, step.value.completed;
        read := read + [event];
        position := position + 1;
      }
      r := ConcludeStream(run, turn, collected, completed, stop, n);
    }

    lemma ReadyIsSafe(run: RunId, n: Counters, turn: Option<TurnId>)
      requires Ready(run, n, turn)
      ensures HistorySafe()
    {
    }

    // ---- one tool call ------------------------------------------------------------------

    /** `call` is requested, every record is durable, and no other execution is waiting. */
    ghost predicate InFlight(run: RunId, n: Counters, turn: TurnId, call: ToolCall, decision: Option<ApprovalDecision>)
      reads this, store, store.file, dispatcher`executed
    {
      && Valid()
      && InCall(log, run, n, turn, call) && AllResolved(log) && DecisionKnown(log, call.id, decision)
      && durable == |log| && Settled(log, durable, dispatcher.executed)
    }

    /** As `InFlight`, but the handler of `call` may have been entered. */
    ghost predicate AwaitsResult(run: RunId, n: Counters, turn: TurnId, call: ToolCall, decision: Option<ApprovalDecision>)
      reads this, store, store.file, dispatcher`executed
    {
      && Valid()
      && InCall(log, run, n, turn, call) && AllResolved(log) && DecisionKnown(log, call.id, decision)
      && durable == |log| && SafeLog(log, durable, dispatcher.executed)
      && (forall x :: x in dispatcher.executed ==> x.call.id == call.id || Answered(log, x.call.id))
    }

    /** `call` waits for a decision on approval `approvalId`. */
    ghost predicate Asking(run: RunId, n: Counters, turn: TurnId, call: ToolCall, approvalId: string)
      reads this, store, store.file, dispatcher`executed
    {
      && Valid()
      && InCall(log, run, n, turn, call) && AsksOnly(log, turn, call, approvalId)
      && durable == |log| && Settled(log, durable, dispatcher.executed)
    }

    method RequestCall(run: RunId, turn: TurnId, modelCall: ModelToolCall, n: Counters)
      returns (r: Result<ToolCall, RuntimeError>)
      requires Ready(run, n, Some(turn))
      modifies this`nextEventSequence, this`log, this`durable, this`moments, store, store.file
      ensures Proceeds() && (r.Failure? ==> Excused(r.error)) && Silent(old(log), log)
      ensures r.Success? ==> r.value == ToolCall(ToolIdAt(run, n.calls + 1), modelCall.name, modelCall.arguments)
      ensures r.Success? ==> InFlight(run, n.(calls := n.calls + 1), turn, r.value, None)
    {
      hide SafeRun, Timeline, Settled, SafeLog, Holds, Sequenced, FrameAll;
      var call := ToolCall(ToolIdAt(run, n.calls + 1), modelCall.name, modelCall.arguments);
      var body := ToolCallRequested(turn, modelCall.id, call);
      RequestSnoc(log, Emitted(run, nextEventSequence, body), run, n, turn);
      var emitted := Emit(run, body, true);
      if emitted.Failure? { return Failure(emitted.error); }
      return Success(call);
    }

    method EmitAsk(run: RunId, turn: TurnId, approval: ApprovalRequest, ghost n: Counters)
      returns (r: Result<(), RuntimeError>)
      requires InFlight(run, n, turn, approval.call, None) && approval.id == ApprovalIdAt(run, n.approvals + 1)
      modifies this`nextEventSequence, this`log, this`durable, this`moments, store, store.file
      ensures Proceeds() && (r.Failure? ==> Excused(r.error)) && Silent(old(log), log)
      ensures r.Success? ==> Asking(run, n.(approvals := n.approvals + 1), turn, approval.call, approval.id)
    {
      hide SafeRun, Timeline, Settled, SafeLog, Holds, Sequenced, FrameAll;
      AskSnoc(log, Emitted(run, nextEventSequence, ApprovalRequested(turn, approval)), run, n, turn, approval.call);
      r := Emit(run, ApprovalRequested(turn, approval), true);
    }

    method EmitResolution(run: RunId, turn: TurnId, approvalId: string, decision: ApprovalDecision, ghost n: Counters, ghost call: ToolCall)
      returns (r: Result<(), RuntimeError>)
      requires Asking(run, n, turn, call, approvalId)
      modifies this`nextEventSequence, this`log, this`durable, this`moments, store, store.file
      ensures Proceeds() && (r.Failure? ==> Excused(r.error)) && Silent(old(log), log)
      ensures r.Success? ==> InFlight(run, n, turn, call, Some(decision))
    {
      hide SafeRun, Timeline, Settled, SafeLog, Holds, Sequenced, FrameAll;
      var body := ApprovalResolved(turn, approvalId, decision);
      ResolveSnoc(log, Emitted(run, nextEventSequence, body), run, n, turn, call);
      r := Emit(run, body, true);
    }

    /** Durably asks for approval, waits for a decision, and durably records it unless a stop came first. */
    method ObtainDecision(run: RunId, turn: TurnId, call: ToolCall, reason: string, stop: RunStopToken, n: Counters)
      returns (r: Result<DecisionProgress, RuntimeError>)
      requires InFlight(run, n, turn, call, None) && stop.Running()
      modifies this`nextEventSequence, this`log, this`durable, this`moments, store, store.file, stop`cancellation, stop`terminalStatus
      ensures Proceeds() && (r.Failure? ==> Excused(r.error)) && Silent(old(log), log)
      ensures r.Success? && r.value.DecisionEnded? ==> EndedWith(run, stop, r.value.status)
      ensures r.Success? && r.value.DecisionMade? ==>
                InFlight(run, n.(approvals := n.approvals + 1), turn, call, Some(r.value.decision)) && stop.Running()
    {
      hide SafeRun, Timeline, Ongoing, Settled, SafeLog, Holds, Sequenced, FrameAll;
      var approval := ApprovalRequest(ApprovalIdAt(run, n.approvals + 1), call, reason);
      var emitted := EmitAsk(run, turn, approval, n);
      if emitted.Failure? { return Failure(emitted.error); }
      var answer: ApprovalDecision := *;
      r := ResolveDecision(run, turn, call, approval.id, NormalizeApprovalDecision(answer), stop, n.(approvals := n.approvals + 1));
    }

    method ResolveDecision(run: RunId, turn: TurnId, call: ToolCall, approvalId: string, decision: ApprovalDecision, stop: RunStopToken, ghost n: Counters)
      returns (r: Result<DecisionProgress, RuntimeError>)
      requires Asking(run, n, turn, call, approvalId) && stop.Running()
      modifies this`nextEventSequence, this`log, this`durable, this`moments, store, store.file, stop`cancellation, stop`terminalStatus
      ensures Proceeds() && (r.Failure? ==> Excused(r.error)) && Silent(old(log), log)
      ensures r.Success? && r.value.DecisionEnded? ==> EndedWith(run, stop, r.value.status)
      ensures r.Success? && r.value.DecisionMade? ==>
                InFlight(run, n, turn, call, Some(r.value.decision)) && stop.Running()
    {
      hide SafeRun, Timeline, Ongoing, Settled, SafeLog, Holds, Sequenced, FrameAll;
      var stopped := stop.Status();
      if stopped.Some? {
        var ended := Finish(run, stopped.value, stop, n);
        if ended.Failure? { return Failure(ended.error); }
        return Success(DecisionEnded(ended.value));
      }
      var emitted := EmitResolution(run, turn, approvalId, decision, n, call);
      if emitted.Failure? { return Failure(emitted.error); }
      return Success(DecisionMade(decision));
    }

    /** Last checkpoint, then the handler. */
    method RunPlan(run: RunId, turn: TurnId, plan: ToolGate.PreparedToolCall, authorization: ToolGate.Authorization, stop: RunStopToken,
                   ghost n: Counters, ghost decision: Option<ApprovalDecision>)
      returns (r: Result<OutputProgress, RuntimeError>, ghost raw: Option<ToolOutput>)
      requires InFlight(run, n, turn, plan.call, decision) && stop.Running()
      requires dispatcher.Valid() && Cleared(plan, authorization, decision)
      modifies this`nextEventSequence, this`log, this`durable, this`moments, store, store.file, dispatcher`executed, stop`cancellation, stop`terminalStatus
      ensures dispatcher.Valid() && Proceeds() && (r.Failure? ==> Excused(r.error)) && Silent(old(log), log)
      ensures r.Success? && r.value.OutputEnded? ==> EndedWith(run, stop, r.value.status)
      ensures r.Success? && r.value.Output? ==>
                && AwaitsResult(run, n, turn, plan.call, decision) && stop.Running() && !ClaimsDenial(r.value.output)
                && Originates(PassedOrigin(raw), plan, decision, r.value.output, old(dispatcher.executed), dispatcher.executed)
    {
      hide SafeRun, Timeline, Ongoing, Holds, Sequenced, FrameAll;
      raw := None;
      var stopped := StoppedStatus(stop);
      if stopped.Some? {
        var ended := Finish(run, stopped.value, stop, n);
        if ended.Failure? { return Failure(ended.error), None; }
        return Success(OutputEnded(ended.value)), None;
      }
      assert log[..|log|] == log;
      var output;
      output, raw := Execute(plan, authorization, run, n, turn, decision);
      return Success(Output(output)), raw;
    }

    /** One durable append that leaves the run between two calls. */
    method EmitSettling(run: RunId, body: EventBody, ghost n: Counters, ghost turn: TurnId)
      returns (r: Result<(), RuntimeError>)
      requires Valid() && CanEmit(Emitted(run, nextEventSequence, body))
      requires var longer := log + [Emitted(run, nextEventSequence, body)];
        Between(longer, run, n) && ActiveTurn(longer) == Some(turn) && Settled(longer, |longer|, dispatcher.executed)
      requires !body.TurnStarted? && !body.ModelOutput?
      modifies this`nextEventSequence, this`log, this`durable, this`moments, store, store.file
      ensures Proceeds() && (r.Failure? ==> Excused(r.error)) && Silent(old(log), log)
      ensures r.Success? ==> Ready(run, n, Some(turn))
    {
      hide SafeRun, Timeline, Ongoing, Settled, SafeLog, Holds, Sequenced, FrameAll;
      r := Emit(run, body, true);
    }

    /** Records the result durably; the call is settled afterwards. */
    method RecordResult(run: RunId, turn: TurnId, call: ToolCall, output: ToolOutput, ghost n: Counters, ghost decision: Option<ApprovalDecision>)
      returns (r: Result<(), RuntimeError>)
      requires AwaitsResult(run, n, turn, call, decision)
      requires MayAnswer(log, turn, ToolOutcome(call.id, output), Strict)
      modifies this`nextEventSequence, this`log, this`durable, this`moments, store, store.file
      ensures Proceeds() && (r.Failure? ==> Excused(r.error)) && Silent(old(log), log)
      ensures r.Success? ==> Ready(run, n, Some(turn))
    {
      hide SafeRun, Timeline, Settled, SafeLog, Holds, Sequenced, FrameAll;
      var body := ToolResult(turn, ToolOutcome(call.id, output));
      ghost var record := Emitted(run, nextEventSequence, body);
      AnswerSnoc(log, record, run, n, turn, call);
      SettledAfterResult(log, dispatcher.executed, record, call);
      r := EmitSettling(run, body, n, turn);
    }

    /**
     The output to record for `call`, for which one plan was made: the handler's after one entry into it, the
     gate's refusal, or the canonical denial of the decision, the latter two without entering the handler.
     */
    method ProduceOutput(run: RunId, turn: TurnId, call: ToolCall, stop: RunStopToken, n: Counters)
      returns (r: Result<OutputProgress, RuntimeError>, n': Counters,
               ghost plan: ToolGate.PreparedToolCall, ghost decision: Option<ApprovalDecision>, ghost origin: Origin)
      requires InFlight(run, n, turn, call, None) && stop.Running() && dispatcher.Valid()
      modifies this`nextEventSequence, this`log, this`durable, this`moments, store, store.file, dispatcher`executed, dispatcher`plans, stop`cancellation, stop`terminalStatus
      ensures dispatcher.Valid() && Proceeds() && (r.Failure? ==> Excused(r.error)) && Silent(old(log), log)
      ensures dispatcher.plans == old(dispatcher.plans) + [plan] && plan.call == call
      ensures n' == n || n' == n.(approvals := n.approvals + 1)
      ensures r.Success? && r.value.OutputEnded? ==> EndedWith(run, stop, r.value.status)
      ensures r.Success? && r.value.Output? ==>
                && AwaitsResult(run, n', turn, call, decision) && stop.Running()
                && DecisionFits(decision, r.value.output)
                && Originates(origin, plan, decision, r.value.output, old(dispatcher.executed), dispatcher.executed)
    {
      hide SafeRun, Timeline, Ongoing, Settled, SafeLog, Holds, Sequenced, FrameAll;
      n', decision, origin := n, None, ByGate;
      var prepared := dispatcher.Prepare(call);
      plan := prepared;
      var reason := prepared.ApprovalReason();
      if reason.None? {
        ghost var raw;
        r, raw := RunPlan(run, turn, prepared, ToolGate.NotRequired, stop, n, None);
        origin := PassedOrigin(raw);
        return;
      }
      n' := n.(approvals := n.approvals + 1);
      r, decision, origin := ProduceDecided(run, turn, call, prepared, reason.value, stop, n, n');
    }

    /** The output of a call that needs approval: the handler's once approved, else the canonical denial. */
    method ProduceDecided(run: RunId, turn: TurnId, call: ToolCall, plan: ToolGate.PreparedToolCall, reason: string, stop: RunStopToken,
                          n: Counters, n': Counters)
      returns (r: Result<OutputProgress, RuntimeError>, ghost decision: Option<ApprovalDecision>, ghost origin: Origin)
      requires InFlight(run, n, turn, call, None) && stop.Running() && n' == n.(approvals := n.approvals + 1)
      requires dispatcher.Valid() && plan in dispatcher.plans && plan.disposition.NeedsApproval? && plan.call == call
      modifies this`nextEventSequence, this`log, this`durable, this`moments, store, store.file, dispatcher`executed, stop`cancellation, stop`terminalStatus
      ensures dispatcher.Valid() && Proceeds() && (r.Failure? ==> Excused(r.error)) && Silent(old(log), log)
      ensures r.Success? && r.value.OutputEnded? ==> EndedWith(run, stop, r.value.status)
      ensures r.Success? && r.value.Output? ==>
                && AwaitsResult(run, n', turn, call, decision) && stop.Running()
                && DecisionFits(decision, r.value.output)
                && Originates(origin, plan, decision, r.value.output, old(dispatcher.executed), dispatcher.executed)
    {
      hide SafeRun, Timeline, Ongoing, Holds, Sequenced, FrameAll;
      decision, origin := None, ByGate;
      var decided := ObtainDecision(run, turn, call, reason, stop, n);
      if decided.Failure? { return Failure(decided.error), decision, origin; }
      if decided.value.DecisionEnded? { return Success(OutputEnded(decided.value.status)), decision, origin; }
      decision := Some(decided.value.decision);
      match decided.value.decision {
        case Approve =>
          ghost var raw;
          r, raw := RunPlan(run, turn, plan, ToolGate.ApprovalGranted(call.id), stop, n', decision);
          origin := PassedOrigin(raw);
        case Deny(message) =>
          assert log[..|log|] == log;
          return Success(Output(Denial(message))), decision, ByUser(message);
      }
    }

    /** One model tool call, from its durable request to the message that answers it. */
    method DriveToolCall(run: RunId, turn: TurnId, modelCall: ModelToolCall, stop: RunStopToken, n: Counters)
      returns (r: Result<ToolCallProgress, RuntimeError>, n': Counters)
      requires Ready(run, n, Some(turn)) && stop.Running() && dispatcher.Valid()
      modifies this`nextEventSequence, this`log, this`durable, this`moments, store, store.file, dispatcher`executed, dispatcher`plans, stop`cancellation, stop`terminalStatus
      ensures dispatcher.Valid() && Proceeds() && (r.Failure? ==> Excused(r.error)) && Silent(old(log), log)
      ensures n'.turns == n.turns
      ensures r.Success? && r.value.CallEnded? ==> EndedWith(run, stop, r.value.status)
      ensures r.Success? && r.value.Answer? ==>
                && Ready(run, n', Some(turn)) && stop.Running()
                && r.value.message.ToolMessage?
                && r.value.message.name == modelCall.name && r.value.message.toolCallId == modelCall.id
    {
      hide SafeRun, Timeline, Ongoing, Settled, SafeLog, Holds, Sequenced, FrameAll;
      hide Originates, DecisionFits, AwaitsResult, Ready, InFlight;
      n' := n.(calls := n.calls + 1);
      var requested := RequestCall(run, turn, modelCall, n);
      if requested.Failure? { return Failure(requested.error), n'; }
      var call := requested.value;
      var produced, n'', _, decision, _ := ProduceOutput(run, turn, call, stop, n');
      n' := n'';
      if produced.Failure? { return Failure(produced.error), n'; }
      if produced.value.OutputEnded? { return Success(CallEnded(produced.value.status)), n'; }
      r := SettleCall(run, turn, modelCall, call, produced.value.output, stop, n', decision);
    }

    /** Records the result of a call and answers the model with it. */
    method SettleCall(run: RunId, turn: TurnId, modelCall: ModelToolCall, call: ToolCall, output: ToolOutput, stop: RunStopToken,
                      ghost n: Counters, ghost decision: Option<ApprovalDecision>)
      returns (r: Result<ToolCallProgress, RuntimeError>)
      requires AwaitsResult(run, n, turn, call, decision) && stop.Running() && DecisionFits(decision, output)
      modifies this`nextEventSequence, this`log, this`durable, this`moments, store, store.file, stop`cancellation, stop`terminalStatus
      ensures Proceeds() && (r.Failure? ==> Excused(r.error)) && Silent(old(log), log)
      ensures r.Success? && r.value.CallEnded? ==> EndedWith(run, stop, r.value.status)
      ensures r.Success? && r.value.Answer? ==>
                && Ready(run, n, Some(turn)) && stop.Running()
                && r.value.message.ToolMessage?
                && r.value.message.name == modelCall.name && r.value.message.toolCallId == modelCall.id
    {
      hide SafeRun, Timeline, Ongoing, Settled, SafeLog, Holds, Sequenced, FrameAll, Between, MayAnswer;
      AnswerAllowed(log, run, n, turn, call, output, decision);
      var recorded := RecordResult(run, turn, call, output, n, decision);
      if recorded.Failure? { return Failure(recorded.error); }
      r := ConcludeCall(run, turn, modelCall, output, stop, n);
    }

    /** The message that answers the model's call; a failure is also recorded as a recoverable error. */
    method AnswerModel(run: RunId, turn: TurnId, modelCall: ModelToolCall, output: ToolOutput, ghost n: Counters)
      returns (r: Result<ToolCallProgress, RuntimeError>)
      requires Ready(run, n, Some(turn))
      modifies this`nextEventSequence, this`log, this`durable, this`moments, store, store.file
      ensures Proceeds() && (r.Failure? ==> Excused(r.error)) && Silent(old(log), log)
      ensures r.Success? ==>
                && Ready(run, n, Some(turn))
                && r.value.Answer? && r.value.message.ToolMessage?
                && r.value.message.name == modelCall.name && r.value.message.toolCallId == modelCall.id
    {
      hide SafeRun, Timeline, Ongoing, Settled, SafeLog, Holds, Sequenced, FrameAll;
      if output.ToolFailure? {
        var error := AgentError(output.error.code, output.error.message, true);
        var emitted := EmitBetween(run, RunError(Some(turn), error), n, n, Some(turn));
        if emitted.Failure? { return Failure(emitted.error); }
      }
      var content := ToolResultContent(output);
      return Success(Answer(ToolMessage(content, modelCall.name, modelCall.id)));
    }

    /** After the result: a stop ends the run, otherwise the model is answered. */
    method ConcludeCall(run: RunId, turn: TurnId, modelCall: ModelToolCall, output: ToolOutput, stop: RunStopToken, ghost n: Counters)
      returns (r: Result<ToolCallProgress, RuntimeError>)
      requires Ready(run, n, Some(turn)) && stop.Running()
      modifies this`nextEventSequence, this`log, this`durable, this`moments, store, store.file, stop`cancellation, stop`terminalStatus
      ensures Proceeds() && (r.Failure? ==> Excused(r.error)) && Silent(old(log), log)
      ensures r.Success? && r.value.CallEnded? ==> EndedWith(run, stop, r.value.status)
      ensures r.Success? && r.value.Answer? ==>
                && Ready(run, n, Some(turn)) && stop.Running()
                && r.value.message.ToolMessage?
                && r.value.message.name == modelCall.name && r.value.message.toolCallId == modelCall.id
    {
      hide SafeRun, Timeline, Ongoing, Settled, SafeLog, Holds, Sequenced, FrameAll;
      var stopped := stop.Status();
      if stopped.Some? {
        var ended := Finish(run, stopped.value, stop, n);
        if ended.Failure? { return Failure(ended.error); }
        return Success(CallEnded(ended.value));
      }
      r := AnswerModel(run, turn, modelCall, output, n);
    }

    /** All calls of one turn, in the order the model made them. */
    method DriveToolCalls(run: RunId, turn: TurnId, block: seq<ModelMessage>, stop: RunStopToken, n: Counters)
      returns (r: Result<CallsProgress, RuntimeError>, n': Counters)
      requires Ready(run, n, Some(turn)) && stop.Running() && dispatcher.Valid() && PartialBlock(block, 0)
      modifies this`nextEventSequence, this`log, this`durable, this`moments, store, store.file, dispatcher`executed, dispatcher`plans, stop`cancellation, stop`terminalStatus
      ensures dispatcher.Valid() && Proceeds() && (r.Failure? ==> Excused(r.error)) && Silent(old(log), log)
      ensures n'.turns == n.turns
      ensures r.Success? && r.value.CallsEnded? ==> EndedWith(run, stop, r.value.status)
      ensures r.Success? && r.value.AllDriven? ==> Ready(run, n', Some(turn)) && stop.Running() && TurnBlock(r.value.block) && r.value.block[0] == block[0]
    {
      hide SafeRun, Timeline, Ongoing, Settled, SafeLog, Holds, Sequenced, FrameAll;
      n' := n;
      var calls := block[0].toolCalls;
      var grown := block;
      for i := 0 to |calls|
        invariant n'.turns == n.turns
        invariant Ready(run, n', Some(turn)) && stop.Running() && dispatcher.Valid()
        invariant Proceeds() && Silent(old(log), log)
        invariant PartialBlock(grown, i) && grown[0] == block[0]
      {
        var driven;
        driven, n' := DriveToolCall(run, turn, calls[i], stop, n');
        if driven.Failure? { return Failure(driven.error), n'; }
        if driven.value.CallEnded? { return Success(CallsEnded(driven.value.status)), n'; }
        BlockGrows(grown, i, driven.value.message);
        grown := grown + [driven.value.message];
      }
      return Success(AllDriven(grown)), n';
    }

    /** A stop observed before the turn begins ends the run; otherwise the turn is started. */
    method BeginTurn(run: RunId, stop: RunStopToken, n: Counters) returns (r: Result<BeginProgress, RuntimeError>)
      requires Ready(run, n, None) && stop.Running()
      modifies this`nextEventSequence, this`log, this`durable, this`moments, store, store.file, stop`cancellation, stop`terminalStatus
      ensures Proceeds() && (r.Failure? ==> Excused(r.error))
      ensures GrowsIn(old(log), log, TurnIdAt(n.turns + 1))
      ensures r.Failure? ==> TurnsIn(old(log)) <= TurnsIn(log) <= TurnsIn(old(log)) + 1
      ensures r.Success? && r.value.NoTurn? ==> EndedWith(run, stop, r.value.status) && TurnsIn(log) == TurnsIn(old(log))
      ensures r.Success? && r.value.Begun? ==>
                && r.value.turn == TurnIdAt(n.turns + 1) && Ready(run, n.(turns := n.turns + 1), Some(r.value.turn)) && stop.Running()
                && TurnsIn(log) == TurnsIn(old(log)) + 1 && Outputs(log, r.value.turn) == []
    {
      hide SafeRun, Timeline, Settled, SafeLog, Holds, Sequenced, FrameAll, TurnOpened, Outputs, TurnsIn;
      var stopped := StoppedStatus(stop);
      if stopped.Some? {
        var ended := Finish(run, stopped.value, stop, n);
        SilentSpeaks(old(log), log, TurnIdAt(n.turns + 1));
        TurnsKept(old(log), log, TurnIdAt(n.turns + 1));
        if ended.Failure? { return Failure(ended.error); }
        return Success(NoTurn(ended.value));
      }
      ghost var before := log;
      NothingBeforeStart(log, TurnIdAt(n.turns + 1));
      var turn := TurnIdAt(n.turns + 1);
      var emitted := EmitBetween(run, TurnStarted(turn), n, n.(turns := n.turns + 1), None);
      OutputsSnoc(before, Emitted(run, |before| + 1, TurnStarted(turn)), turn);
      if emitted.Failure? { return Failure(emitted.error); }
      return Success(Begun(turn));
    }

    /** One turn of the run: a fresh model request, then its tool calls. */
    method RunTurn(run: RunId, messages: seq<ModelMessage>, stop: RunStopToken, n: Counters)
      returns (r: Result<TurnProgress, RuntimeError>, n': Counters)
      requires Ready(run, n, None) && stop.Running() && dispatcher.Valid() && TurnsIn(log) == |requests|
      modifies this`nextEventSequence, this`log, this`durable, this`moments, this`requests, store, store.file, dispatcher`executed, dispatcher`plans, stop`cancellation, stop`terminalStatus
      ensures dispatcher.Valid() && Proceeds() && (r.Failure? ==> Excused(r.error))
      ensures n'.turns == n.turns + 1 && GrowsIn(old(log), log, TurnIdAt(n'.turns))
      ensures requests == old(requests) || requests == old(requests) + [messages]
      ensures RequestsCounted(requests, log, r.Success?)
      ensures r.Success? && r.value.RunEnded? ==> EndedWith(run, stop, r.value.status)
      ensures r.Success? && r.value.NextTurn? ==>
                && Ready(run, n', None) && stop.Running()
                && requests == old(requests) + [messages] && BlockOf(r.value.block, log, TurnIdAt(n'.turns))
    {
      hide SafeRun, Timeline, Ongoing, Settled, SafeLog, Holds, Sequenced, FrameAll, Outputs, TurnsIn, BlockOf;
      n' := n.(turns := n.turns + 1);
      var begun := BeginTurn(run, stop, n);
      if begun.Failure? { return Failure(begun.error), n'; }
      if begun.value.NoTurn? { return Success(RunEnded(begun.value.status)), n'; }
      ghost var start := log;
      r, n' := RunStartedTurn(run, begun.value.turn, messages, stop, n');
      TurnsKept(start, log, begun.value.turn);
    }

    /** The request sent to the model carries the conversation so far. */
    method RequestModel(messages: seq<ModelMessage>, ghost run: RunId, ghost n: Counters, ghost turn: TurnId)
      requires Ready(run, n, Some(turn))
      modifies this`requests
      ensures requests == old(requests) + [messages]
      ensures Ready(run, n, Some(turn)) && Proceeds()
    {
      hide SafeRun, Timeline, Settled, SafeLog, Holds, Sequenced, FrameAll, Between, Codec.Lawful;
      requests := requests + [messages];
    }

    method RunStartedTurn(run: RunId, turn: TurnId, messages: seq<ModelMessage>, stop: RunStopToken, n: Counters)
      returns (r: Result<TurnProgress, RuntimeError>, n': Counters)
      requires Ready(run, n, Some(turn)) && stop.Running() && dispatcher.Valid() && Outputs(log, turn) == []
      modifies this`nextEventSequence, this`log, this`durable, this`moments, this`requests, store, store.file, dispatcher`executed, dispatcher`plans, stop`cancellation, stop`terminalStatus
      ensures dispatcher.Valid() && Proceeds() && (r.Failure? ==> Excused(r.error)) && SpeaksIn(old(log), log, turn)
      ensures n'.turns == n.turns && requests == old(requests) + [messages]
      ensures r.Success? && r.value.RunEnded? ==> EndedWith(run, stop, r.value.status)
      ensures r.Success? && r.value.NextTurn? ==>
                Ready(run, n', None) && stop.Running() && BlockOf(r.value.block, log, turn)
    {
      hide SafeRun, Timeline, Ongoing, Settled, SafeLog, Holds, Sequenced, FrameAll, Outputs, CompleteStream, Records;
      n' := n;
      var collected;
      ghost var read;
      collected, read := CollectModelTurn(run, turn, messages, stop, n);
      if collected.Failure? { return Failure(collected.error), n'; }
      if collected.value.TurnEnded? { return Success(RunEnded(collected.value.status)), n'; }
      ghost var said := log;
      var model := collected.value.turn;
      if model.toolCalls == [] {
        var ended := Finish(run, Completed(model.text), stop, n);
        if ended.Failure? { return Failure(ended.error), n'; }
        return Success(RunEnded(ended.value)), n';
      }
      var block := [AssistantMessage(if model.text == "" then None else Some(model.text), model.toolCalls)];
      var driven;
      driven, n' := DriveToolCalls(run, turn, block, stop, n');
      if driven.Failure? { return Failure(driven.error), n'; }
      if driven.value.CallsEnded? { return Success(RunEnded(driven.value.status)), n'; }
      TurnSpoken(old(log), said, log, turn, read);
      return Success(NextTurn(driven.value.block)), n';
    }

    /**
     `run_with_control_and_stop`. Whatever the model, the tools, the approver, other threads and the disk do:
     every instant of the run is crash-safe, every handler was entered as the policies and the approvals
     demand, a run fails only because the disk did, and an Ok result is the terminal status recorded last in
     a strict timeline. Every turn that was started asked the model once, with the conversation that the
     timeline records for the turns before it.
     */
    method RunWithControlAndStop(run: RunId, initial: seq<ModelMessage>, stop: RunStopToken)
      returns (r: Result<TerminalRunStatus, RuntimeError>)
      requires stop.Valid() && HistorySafe() && dispatcher.Valid()
      requires startedRunId.None? ==> Valid() && log == [] && durable == 0 && dispatcher.executed == [] && requests == []
      modifies this, store, store.file, dispatcher`executed, dispatcher`plans, stop
      ensures Proceeds() && dispatcher.Valid()
      ensures old(startedRunId).Some? ==>
                r == Failure(RuntimeAlreadyUsed(old(startedRunId).value)) && log == old(log) && store.file.bytes == old(store.file.bytes)
      ensures old(startedRunId).None? && old(stop.boundRunId).Some? ==>
                r == Failure(StopTokenAlreadyBound(old(stop.boundRunId).value)) && log == old(log) && store.file.bytes == old(store.file.bytes)
      ensures old(startedRunId).None? && old(stop.boundRunId).None? && r.Failure? ==> Excused(r.error)
      ensures r.Success? ==> EndedWith(run, stop, r.value) && ObservedStatus(log, false) == RunStatus.Finished(r.value)
      ensures old(startedRunId).None? ==> RequestsFollow(initial, requests, log) && RequestsCounted(requests, log, r.Success?)
    {
      hide SafeRun, Ongoing, Settled, SafeLog, Holds, Sequenced, FrameAll, RequestsFollow;
      HistoryBegins(initial, log);
      if startedRunId.Some? { return Failure(RuntimeAlreadyUsed(startedRunId.value)); }
      var taken := stop.Bind(run);
      if taken.Some? { return Failure(StopTokenAlreadyBound(taken.value)); }
      startedRunId := Some(run);
      var emitted := EmitStart(run);
      HistoryBegins(initial, log);
      if emitted.Failure? { return Failure(emitted.error); }
      r := RunTurns(run, initial, stop);
    }

    /** The turn loop and its safety limit. */
    method RunTurns(run: RunId, initial: seq<ModelMessage>, stop: RunStopToken)
      returns (r: Result<TerminalRunStatus, RuntimeError>)
      requires Ready(run, Counters(0, 0, 0), None) && stop.Running() && dispatcher.Valid() && requests == [] && TurnsIn(log) == 0
      modifies this`nextEventSequence, this`log, this`durable, this`moments, this`requests, store, store.file, dispatcher`executed, dispatcher`plans, stop`cancellation, stop`terminalStatus
      ensures dispatcher.Valid() && Proceeds() && (r.Failure? ==> Excused(r.error))
      ensures r.Success? ==> EndedWith(run, stop, r.value)
      ensures RequestsFollow(initial, requests, log) && RequestsCounted(requests, log, r.Success?)
    {
      hide SafeRun, Timeline, Ongoing, Settled, SafeLog, Holds, Sequenced, FrameAll;
      hide TurnsIn, BlockOf, HistoryOf, RequestsFollow, GrowsIn, SpeaksIn, Silent;
      var messages := initial;
      var n := Counters(0, 0, 0);
      HistoryBegins(initial, log);
      for turnNumber := 0 to MAX_TURNS
        invariant Ready(run, n, None) && stop.Running() && dispatcher.Valid() && n.turns == turnNumber
        invariant Proceeds()
        invariant HistoryOf(initial, messages, turnNumber, log)
        invariant |requests| == turnNumber == TurnsIn(log) && RequestsFollow(initial, requests, log)
      {
        ghost var before, asked := log, requests;
        var turn;
        turn, n := RunTurn(run, messages, stop, n);
        RequestsKept(initial, asked, before, log, turnNumber);
        HistoryKept(initial, messages, turnNumber, before, log, turnNumber);
        if requests != asked { RequestAdded(initial, asked, messages, log); }
        if turn.Failure? { return Failure(turn.error); }
        if turn.value.RunEnded? { return Success(turn.value.status); }
        HistoryExtends(initial, messages, turnNumber, log, turn.value.block);
        messages := messages + turn.value.block;
      }
      ghost var before := log;
      r := FinishAgentError(run, None, AgentError("turn_limit_reached", "Agent Run exceeded the 128-turn safety limit", false), stop, n);
      SilentSpeaks(before, log, TurnIdAt(MAX_TURNS + 1));
      TurnsKept(before, log, TurnIdAt(MAX_TURNS + 1));
      RequestsKept(initial, requests, before, log, MAX_TURNS);
    }

    method EmitStart(run: RunId) returns (r: Result<(), RuntimeError>)
      requires Valid() && log == [] && durable == 0 && dispatcher.executed == []
      modifies this`nextEventSequence, this`log, this`durable, this`moments, store, store.file
      ensures Proceeds() && (r.Failure? ==> Excused(r.error)) && TurnsIn(log) == 0
      ensures r.Success? ==> Ready(run, Counters(0, 0, 0), None)
    {
      hide SafeRun, Timeline, Ongoing, SafeLog, Holds, Sequenced, FrameAll;
      var first := Emitted(run, nextEventSequence, RunStarted);
      StartOngoing(run, first);
      OutputsSnoc([], first, "");
      assert [] + [first] == [first];
      r := Emit(run, RunStarted, false);
    }
  }

  /** As many requests as turns started; one fewer when the run failed while recording a turn's start. */
  ghost predicate RequestsCounted(requests: seq<seq<ModelMessage>>, log: Log, succeeded: bool) {
    |requests| == TurnsIn(log) || (!succeeded && |requests| + 1 == TurnsIn(log))
  }

  /** The output a decision calls for: the canonical denial, or anything that does not claim one. */
  ghost predicate DecisionFits(decision: Option<ApprovalDecision>, output: ToolOutput) {
    match decision
    case Some(Deny(reason)) => CanonicalDenial(output, reason)
    case _ => !ClaimsDenial(output)
  }

  /** Who made an output: the handler (from its raw output), the gate, or the user. */
  datatype Origin = ByHandler(raw: ToolOutput) | ByGate | ByUser(reason: string)

  function PassedOrigin(raw: Option<ToolOutput>): Origin {
    if raw.Some? then ByHandler(raw.value) else ByGate
  }

  /**
   What the origin of an output says about the plan, the decision and the handlers entered: a handler was
   entered once, after an approval if and only if the plan needs one; the gate refuses what the plan rejects;
   the user denied a plan that needs an approval.
   */
  ghost predicate Originates(
    origin: Origin, plan: ToolGate.PreparedToolCall, decision: Option<ApprovalDecision>, output: ToolOutput,
    before: seq<Execution>, after: seq<Execution>)
  {
    match origin
    case ByHandler(raw) =>
      && after == before + [ToolGate.ExecutionOf(plan)] && output == ToolGate.NormalizeDispatcherOutput(raw)
      && !plan.disposition.Rejected? && decision == (if plan.disposition.NeedsApproval? then Some(Approve) else None)
    case ByGate =>
      plan.disposition.Rejected? && decision == None && after == before && output == ToolFailure(plan.disposition.error, map[])
    case ByUser(reason) =>
      plan.disposition.NeedsApproval? && decision == Some(Deny(reason)) && after == before && output == Denial(reason)
  }

  /** What the gate says of a cleared plan, as the origin of the output. */
  lemma PassedOriginates(output: ToolOutput, raw: Option<ToolOutput>, plan: ToolGate.PreparedToolCall, decision: Option<ApprovalDecision>,
                         before: seq<Execution>, after: seq<Execution>)
    requires ToolGate.Passed(output, raw, plan, before, after) && (raw.Some? <==> !plan.disposition.Rejected?)
    requires plan.disposition.Rejected? ==> output == ToolFailure(plan.disposition.error, map[])
    requires decision == if plan.disposition.NeedsApproval? then Some(Approve) else None
    ensures Originates(PassedOrigin(raw), plan, decision, output, before, after)
    ensures after == before || after == before + [ToolGate.ExecutionOf(plan)]
  {
  }

  datatype CallsProgress = AllDriven(block: seq<ModelMessage>) | CallsEnded(status: TerminalRunStatus)
  datatype BeginProgress = Begun(turn: TurnId) | NoTurn(status: TerminalRunStatus)
  datatype TurnProgress = NextTurn(block: seq<ModelMessage>) | RunEnded(status: TerminalRunStatus)
  datatype DecisionProgress = DecisionMade(decision: ApprovalDecision) | DecisionEnded(status: TerminalRunStatus)
  datatype OutputProgress = Output(output: ToolOutput) | OutputEnded(status: TerminalRunStatus)
  datatype StreamProgress = More(turn: CollectedTurn, completed: bool) | StreamEnded(status: TerminalRunStatus)
}

/**
 Deterministic reconstruction of run state (crates/event-store/src/replay.rs).
 `Step` is the body of the replay loop; `Replay` is the loop. The fold is tied
 to the independent grammar of module `Lifecycle` by the relation `Tracks`.
 */
module Replay {
  import opened Prelude
  import opened Events
  import opened Lifecycle

  /** What the fold knows about one requested call, as event indexes. */
  datatype CallEntry = CallEntry(
    requested: nat,
    approval: Option<nat>,
    resolution: Option<nat>,
    result: Option<nat>)

  datatype ApprovalLogFormat = Undetermined | Legacy | Modern

  datatype State = State(
    status: RunStatus,
    calls: seq<CallEntry>,
    callIndexes: map<ToolCallId, nat>,
    approvalIndexes: map<string, nat>,
    pending: set<nat>,
    finished: bool,
    format: ApprovalLogFormat,
    startedTurns: set<TurnId>,
    activeTurn: Option<TurnId>)

  const INITIAL := State(Running, [], map[], map[], {}, false, Undetermined, {}, None)

  datatype Reason =
    | EventAfterRunFinished
    | MismatchedRunId
    | DuplicateRunStarted
    | DuplicateTurnStarted(turn: TurnId)
    | TurnStartedWithUnresolvedToolCalls(callIds: seq<ToolCallId>)
    | EventForUnknownTurn(turn: TurnId)
    | EventForInactiveTurn(turn: TurnId)
    | DuplicateToolCall(callId: ToolCallId)
    | ApprovalForUnknownToolCall(callId: ToolCallId)
    | MismatchedToolLifecycleTurn(callId: ToolCallId)
    | ApprovalCallMismatch(callId: ToolCallId)
    | ApprovalAfterToolResult(callId: ToolCallId)
    | DuplicateApproval(callId: ToolCallId)
    | DuplicateApprovalId(approvalId: string)
    | ResolutionForUnknownApproval(approvalId: string)
    | DuplicateApprovalResolution(approvalId: string)
    | ApprovalResolutionAfterToolResult(approvalId: string)
    | MixedApprovalLogFormats
    | ResultForUnknownToolCall(callId: ToolCallId)
    | DuplicateToolResult(callId: ToolCallId)
    | ToolResultBeforeApprovalResolution(callId: ToolCallId)
    | InvalidApprovalDenialResult(callId: ToolCallId)
    | TerminalWithUnresolvedToolCalls(callIds: seq<ToolCallId>)

  datatype ReplayError =
    | EmptyLog
    | FirstEventIsNotRunStarted
    | LegacyCompatibilityForSequencedLog(eventNumber: nat)
    | Rejected(eventNumber: nat, reason: Reason)

  datatype RunReplay = RunReplay(
    runId: RunId,
    status: RunStatus,
    events: Log,
    calls: seq<CallEntry>)

  /** Every index of an entry points at an event of the right kind for one call. */
  predicate EntryFits(log: Log, c: CallEntry) {
    && c.requested < |log| && log[c.requested].body.ToolCallRequested?
    && var call := log[c.requested].body.call;
    && (c.approval.Some? ==>
         && c.approval.value < |log|
         && IsApproval(log[c.approval.value], call.id)
         && log[c.approval.value].body.turn == log[c.requested].body.turn)
    && (c.resolution.Some? ==>
         && c.approval.Some?
         && c.resolution.value < |log|
         && IsResolution(log[c.resolution.value], log[c.approval.value].body.request.id))
    && (c.result.Some? ==> c.result.value < |log| && IsResult(log[c.result.value], call.id))
  }

  /** The index tables stay within the events and the entries. */
  predicate InBounds(log: Log, st: State) {
    && (forall j :: 0 <= j < |st.calls| ==> EntryFits(log, st.calls[j]))
    && (forall id :: id in st.callIndexes ==> st.callIndexes[id] < |st.calls|)
    && (forall a :: a in st.approvalIndexes ==> st.approvalIndexes[a] < |st.calls|)
  }

  function CallOf(log: Log, c: CallEntry): ToolCall
    requires EntryFits(log, c)
  {
    log[c.requested].body.call
  }

  /** Ids of the calls without a result, in request order. */
  function UnresolvedIds(log: Log, calls: seq<CallEntry>): (ids: seq<ToolCallId>)
    requires forall j :: 0 <= j < |calls| ==> EntryFits(log, calls[j])
    decreases |calls|, 0
  {
    if calls == [] then [] else WithLast(log, calls[..|calls| - 1], calls[|calls| - 1])
  }

  function WithLast(log: Log, front: seq<CallEntry>, last: CallEntry): (ids: seq<ToolCallId>)
    requires EntryFits(log, last) && forall j :: 0 <= j < |front| ==> EntryFits(log, front[j])
    decreases |front|, 1
  {
    UnresolvedIds(log, front) + if last.result.None? then [CallOf(log, last).id] else []
  }

  lemma {:induction false} UnresolvedMembers(log: Log, calls: seq<CallEntry>, id: ToolCallId)
    requires forall j :: 0 <= j < |calls| ==> EntryFits(log, calls[j])
    ensures id in UnresolvedIds(log, calls) <==>
            exists j :: 0 <= j < |calls| && calls[j].result.None? && CallOf(log, calls[j]).id == id
  {
    if calls != [] {
      var front := calls[..|calls| - 1];
      assert calls == front + [calls[|calls| - 1]];
      UnresolvedMembers(log, front, id);
    }
  }

  // ---- one event ------------------------------------------------------------

  function CheckTurn(st: State, e: AgentEvent): Option<Reason> {
    if e.InTurn().None? then None
    else if e.InTurn().value !in st.startedTurns then Some(EventForUnknownTurn(e.InTurn().value))
    else if st.activeTurn != e.InTurn() then Some(EventForInactiveTurn(e.InTurn().value))
    else None
  }

  function OnTurnStarted(log: Log, st: State, turn: TurnId): Result<State, Reason>
    requires InBounds(log, st)
  {
    if turn in st.startedTurns then Failure(DuplicateTurnStarted(turn))
    else
      var ids := UnresolvedIds(log, st.calls);
      if ids != [] then Failure(TurnStartedWithUnresolvedToolCalls(ids))
      else Success(st.(startedTurns := st.startedTurns + {turn}, activeTurn := Some(turn)))
  }

  function OnRequested(log: Log, st: State, call: ToolCall): Result<State, Reason> {
    if call.id in st.callIndexes then Failure(DuplicateToolCall(call.id))
    else Success(st.(
      callIndexes := st.callIndexes[call.id := |st.calls|],
      calls := st.calls + [CallEntry(|log|, None, None, None)]))
  }

  function OnApprovalRequested(log: Log, st: State, turn: TurnId, request: ApprovalRequest): Result<State, Reason>
    requires InBounds(log, st)
  {
    var id := request.call.id;
    if id !in st.callIndexes then Failure(ApprovalForUnknownToolCall(id))
    else
      var j := st.callIndexes[id];
      var c := st.calls[j];
      if log[c.requested].body.turn != turn then Failure(MismatchedToolLifecycleTurn(id))
      else if CallOf(log, c) != request.call then Failure(ApprovalCallMismatch(id))
      else if c.result.Some? then Failure(ApprovalAfterToolResult(id))
      else if c.approval.Some? then Failure(DuplicateApproval(id))
      else if request.id in st.approvalIndexes then Failure(DuplicateApprovalId(request.id))
      else Success(st.(
        calls := st.calls[j := c.(approval := Some(|log|))],
        approvalIndexes := st.approvalIndexes[request.id := j],
        pending := st.pending + {j},
        status := AwaitingApproval))
  }

  function OnApprovalResolved(log: Log, st: State, turn: TurnId, approvalId: string, mode: Compatibility): Result<State, Reason>
    requires InBounds(log, st)
  {
    if approvalId !in st.approvalIndexes then Failure(ResolutionForUnknownApproval(approvalId))
    else
      var j := st.approvalIndexes[approvalId];
      var c := st.calls[j];
      if log[c.requested].body.turn != turn then Failure(MismatchedToolLifecycleTurn(CallOf(log, c).id))
      else if c.resolution.Some? then Failure(DuplicateApprovalResolution(approvalId))
      else if c.result.Some? then Failure(ApprovalResolutionAfterToolResult(approvalId))
      else if mode.LegacyApprovalWithoutResolution? && st.format == Legacy then Failure(MixedApprovalLogFormats)
      else
        var pending := st.pending - {j};
        Success(st.(
          format := Modern,
          calls := st.calls[j := c.(resolution := Some(|log|))],
          pending := pending,
          status := if pending == {} then Running else st.status))
  }

  /** The three-way check of a result against its call's approval decision. */
  function CheckResult(log: Log, st: State, c: CallEntry, result: ToolOutcome, mode: Compatibility): Result<ApprovalLogFormat, Reason>
    requires EntryFits(log, c)
  {
    var id := result.callId;
    if c.resolution.None? && c.approval.Some? then
      if mode == Strict || st.format == Modern then Failure(ToolResultBeforeApprovalResolution(id))
      else if ClaimsDenial(result.output) && (result.output.error.retryable || result.output.extensions != map[]) then
        Failure(InvalidApprovalDenialResult(id))
      else Success(Legacy)
    else if c.resolution.Some? && log[c.resolution.value].body.decision.Deny? then
      var reason := log[c.resolution.value].body.decision.reason;
      var output := result.output;
      if && output.ToolFailure? && output.error.code == APPROVAL_DENIED && output.error.message == reason
         && !output.error.retryable && output.extensions == map[]
      then Success(st.format)
      else Failure(InvalidApprovalDenialResult(id))
    else if ClaimsDenial(result.output) then Failure(InvalidApprovalDenialResult(id))
    else Success(st.format)
  }

  function OnToolResult(log: Log, st: State, turn: TurnId, result: ToolOutcome, mode: Compatibility): Result<State, Reason>
    requires InBounds(log, st)
  {
    var id := result.callId;
    if id !in st.callIndexes then Failure(ResultForUnknownToolCall(id))
    else
      var j := st.callIndexes[id];
      var c := st.calls[j];
      if log[c.requested].body.turn != turn then Failure(MismatchedToolLifecycleTurn(id))
      else if c.result.Some? then Failure(DuplicateToolResult(id))
      else
        match CheckResult(log, st, c, result, mode)
        case Failure(reason) => Failure(reason)
        case Success(format) =>
          var pending := st.pending - {j};
          Success(st.(
            format := format,
            calls := st.calls[j := c.(result := Some(|log|))],
            pending := pending,
            status := if pending == {} then Running else st.status))
  }

  function OnRunFinished(log: Log, st: State, status: TerminalRunStatus): Result<State, Reason>
    requires InBounds(log, st)
  {
    var ids := UnresolvedIds(log, st.calls);
    if (status.Completed? || status.Failed?) && ids != [] then Failure(TerminalWithUnresolvedToolCalls(ids))
    else Success(st.(status := RunStatus.Finished(status), finished := true))
  }

  /** The body of the replay loop for the event at index `|log|`. */
  function Step(log: Log, st: State, e: AgentEvent, mode: Compatibility): Result<State, Reason>
    requires |log| > 0 && InBounds(log, st)
  {
    if st.finished then Failure(EventAfterRunFinished)
    else if e.runId != log[0].runId then Failure(MismatchedRunId)
    else if CheckTurn(st, e).Some? then Failure(CheckTurn(st, e).value)
    else
      match e.body
      case RunStarted => Failure(DuplicateRunStarted)
      case TurnStarted(t) => OnTurnStarted(log, st, t)
      case ModelOutput(_, _) => Success(st)
      case ToolCallRequested(_, _, call) => OnRequested(log, st, call)
      case ApprovalRequested(t, request) => OnApprovalRequested(log, st, t, request)
      case ApprovalResolved(t, approvalId, _) => OnApprovalResolved(log, st, t, approvalId, mode)
      case ToolResult(t, result) => OnToolResult(log, st, t, result, mode)
      case RunError(_, _) => Success(st)
      case RunFinished(status) => OnRunFinished(log, st, status)
  }

  // ---- the fold tracks the timeline --------------------------------------------

  ghost predicate RequestTracked(log: Log, st: State, i: nat)
    requires InBounds(log, st) && i < |log|
  {
    log[i].body.ToolCallRequested? ==>
      && log[i].body.call.id in st.callIndexes
      && st.calls[st.callIndexes[log[i].body.call.id]].requested == i
  }

  ghost predicate EntryIndexed(log: Log, st: State, j: nat)
    requires InBounds(log, st) && j < |st.calls|
  {
    && CallOf(log, st.calls[j]).id in st.callIndexes
    && st.callIndexes[CallOf(log, st.calls[j]).id] == j
  }

  ghost predicate TracksRequests(log: Log, st: State)
    requires InBounds(log, st)
  {
    && (forall i :: 0 <= i < |log| ==> RequestTracked(log, st, i))
    && (forall j :: 0 <= j < |st.calls| ==> EntryIndexed(log, st, j))
    && (forall id :: id in st.callIndexes ==> CallOf(log, st.calls[st.callIndexes[id]]).id == id)
    && (forall j, k :: 0 <= j < k < |st.calls| ==> st.calls[j].requested < st.calls[k].requested)
  }

  ghost predicate ApprovalTracked(log: Log, st: State, i: nat)
    requires InBounds(log, st) && i < |log|
  {
    log[i].body.ApprovalRequested? ==>
      var request := log[i].body.request;
      && request.call.id in st.callIndexes
      && request.id in st.approvalIndexes
      && st.callIndexes[request.call.id] == st.approvalIndexes[request.id]
      && st.calls[st.approvalIndexes[request.id]].approval == Some(i)
  }

  ghost predicate TracksApprovals(log: Log, st: State)
    requires InBounds(log, st)
  {
    && (forall i :: 0 <= i < |log| ==> ApprovalTracked(log, st, i))
    && (forall a :: a in st.approvalIndexes ==>
         var c := st.calls[st.approvalIndexes[a]];
         c.approval.Some? && IsApprovalNamed(log[c.approval.value], a))
  }

  ghost predicate ResolutionTracked(log: Log, st: State, i: nat)
    requires InBounds(log, st) && i < |log|
  {
    log[i].body.ApprovalResolved? ==>
      && log[i].body.approvalId in st.approvalIndexes
      && st.calls[st.approvalIndexes[log[i].body.approvalId]].resolution == Some(i)
  }

  ghost predicate TracksResolutions(log: Log, st: State)
    requires InBounds(log, st)
  {
    forall i :: 0 <= i < |log| ==> ResolutionTracked(log, st, i)
  }

  ghost predicate ResultTracked(log: Log, st: State, i: nat)
    requires InBounds(log, st) && i < |log|
  {
    log[i].body.ToolResult? ==>
      && log[i].body.result.callId in st.callIndexes
      && st.calls[st.callIndexes[log[i].body.result.callId]].result == Some(i)
  }

  ghost predicate TracksResults(log: Log, st: State)
    requires InBounds(log, st)
  {
    forall i :: 0 <= i < |log| ==> ResultTracked(log, st, i)
  }

  ghost predicate TracksTurns(log: Log, st: State)
    requires InBounds(log, st)
  {
    && (forall t :: t in st.startedTurns <==> TurnOpened(log, t))
    && st.activeTurn == ActiveTurn(log)
    && (st.activeTurn.Some? ==> st.activeTurn.value in st.startedTurns)
  }

  ghost predicate Unsettled(c: CallEntry) {
    c.approval.Some? && c.resolution.None? && c.result.None?
  }

  ghost predicate TracksStatus(log: Log, st: State, mode: Compatibility)
    requires InBounds(log, st)
  {
    && (forall j :: j in st.pending <==> 0 <= j < |st.calls| && Unsettled(st.calls[j]))
    && (st.finished <==> Ended(log))
    && (st.finished ==> exists s :: st.status == RunStatus.Finished(s) && log[|log| - 1].body == RunFinished(s))
    && (!st.finished ==> st.status == if st.pending == {} then Running else AwaitingApproval)
    && (mode == Strict ==> st.format != Legacy)
    && (st.format == Modern <==> HasResolution(log))
    && (st.format == Legacy <==>
         exists j :: 0 <= j < |st.calls| && LegacyEntry(st.calls[j]))
  }

  ghost predicate LegacyEntry(c: CallEntry) {
    c.approval.Some? && c.resolution.None? && c.result.Some?
  }

  ghost predicate Tracks(log: Log, st: State, mode: Compatibility) {
    && |log| > 0
    && InBounds(log, st)
    && TracksRequests(log, st)
    && TracksApprovals(log, st)
    && TracksResolutions(log, st)
    && TracksResults(log, st)
    && TracksTurns(log, st)
    && TracksStatus(log, st, mode)
  }

  // ---- what the tables say about the timeline -------------------------------------

  lemma RequestFacts(log: Log, st: State, mode: Compatibility, id: ToolCallId)
    requires Tracks(log, st, mode)
    ensures Requested(log, id) <==> id in st.callIndexes
    ensures Answered(log, id) <==> id in st.callIndexes && st.calls[st.callIndexes[id]].result.Some?
    ensures Asked(log, id) <==> id in st.callIndexes && st.calls[st.callIndexes[id]].approval.Some?
  {
    if id in st.callIndexes {
      var c := st.calls[st.callIndexes[id]];
      assert IsRequest(log[c.requested], id);
      if c.result.Some? { assert IsResult(log[c.result.value], id); }
      if c.approval.Some? { assert IsApproval(log[c.approval.value], id); }
    }
    if i :| 0 <= i < |log| && IsRequest(log[i], id) { assert RequestTracked(log, st, i); }
    if i :| 0 <= i < |log| && IsResult(log[i], id) { assert ResultTracked(log, st, i); }
    if i :| 0 <= i < |log| && IsApproval(log[i], id) { assert ApprovalTracked(log, st, i); }
  }

  lemma ApprovalFacts(log: Log, st: State, mode: Compatibility, a: string)
    requires Tracks(log, st, mode)
    ensures ApprovalNamed(log, a) <==> a in st.approvalIndexes
    ensures Resolved(log, a) <==> a in st.approvalIndexes && st.calls[st.approvalIndexes[a]].resolution.Some?
  {
    if a in st.approvalIndexes {
      var c := st.calls[st.approvalIndexes[a]];
      assert IsApprovalNamed(log[c.approval.value], a);
      if c.resolution.Some? { assert IsResolution(log[c.resolution.value], a); }
    }
    if i :| 0 <= i < |log| && IsApprovalNamed(log[i], a) { assert ApprovalTracked(log, st, i); }
    if i :| 0 <= i < |log| && IsResolution(log[i], a) { assert ResolutionTracked(log, st, i); }
  }

  lemma DecisionFacts(log: Log, st: State, mode: Compatibility, id: ToolCallId)
    requires Tracks(log, st, mode)
    ensures Decided(log, id) <==> id in st.callIndexes && st.calls[st.callIndexes[id]].resolution.Some?
    ensures forall d :: DecidedAs(log, id, d) <==>
              && id in st.callIndexes && st.calls[st.callIndexes[id]].resolution.Some?
              && log[st.calls[st.callIndexes[id]].resolution.value].body.decision == d
  {
    if id in st.callIndexes {
      var c := st.calls[st.callIndexes[id]];
      if c.resolution.Some? {
        assert IsApproval(log[c.approval.value], id);
        assert IsResolution(log[c.resolution.value], log[c.approval.value].body.request.id);
      }
    }
    forall a, r | 0 <= a < |log| && 0 <= r < |log| && IsApproval(log[a], id) && IsResolution(log[r], log[a].body.request.id)
      ensures id in st.callIndexes && st.calls[st.callIndexes[id]].resolution == Some(r)
    {
      assert ApprovalTracked(log, st, a);
      assert ResolutionTracked(log, st, r);
    }
  }

  lemma UnresolvedIsOpen(log: Log, st: State, mode: Compatibility, id: ToolCallId)
    requires Tracks(log, st, mode)
    ensures id in UnresolvedIds(log, st.calls) <==> Open(log, id)
  {
    RequestFacts(log, st, mode, id);
    UnresolvedMembers(log, st.calls, id);
    if id in UnresolvedIds(log, st.calls) {
      var j :| 0 <= j < |st.calls| && st.calls[j].result.None? && CallOf(log, st.calls[j]).id == id;
      assert EntryIndexed(log, st, j);
    } else if id in st.callIndexes {
      assert CallOf(log, st.calls[st.callIndexes[id]]).id == id;
    }
  }

  lemma UnresolvedFacts(log: Log, st: State, mode: Compatibility)
    requires Tracks(log, st, mode)
    ensures AllAnswered(log) <==> UnresolvedIds(log, st.calls) == []
  {
    var ids := UnresolvedIds(log, st.calls);
    if ids != [] {
      UnresolvedIsOpen(log, st, mode, ids[0]);
      var i :| 0 <= i < |log| && IsRequest(log[i], ids[0]);
      assert !Answered(log, log[i].body.call.id);
    } else {
      forall i | 0 <= i < |log| && log[i].body.ToolCallRequested?
        ensures Answered(log, log[i].body.call.id)
      {
        assert IsRequest(log[i], log[i].body.call.id);
        UnresolvedIsOpen(log, st, mode, log[i].body.call.id);
      }
    }
  }

  lemma PendingAt(log: Log, st: State, mode: Compatibility, i: nat)
    requires Tracks(log, st, mode) && i < |log| && log[i].body.ApprovalRequested?
    ensures log[i].body.request.id in st.approvalIndexes
    ensures !Resolved(log, log[i].body.request.id) && !Answered(log, log[i].body.request.call.id) <==>
            st.approvalIndexes[log[i].body.request.id] in st.pending
  {
    assert ApprovalTracked(log, st, i);
    ApprovalFacts(log, st, mode, log[i].body.request.id);
    RequestFacts(log, st, mode, log[i].body.request.call.id);
  }

  lemma PendingFacts(log: Log, st: State, mode: Compatibility)
    requires Tracks(log, st, mode)
    ensures AwaitsDecision(log) <==> st.pending != {}
  {
    if AwaitsDecision(log) {
      var i :| 0 <= i < |log| && log[i].body.ApprovalRequested?
        && !Resolved(log, log[i].body.request.id) && !Answered(log, log[i].body.request.call.id);
      PendingAt(log, st, mode, i);
    }
    if j :| j in st.pending {
      var i := st.calls[j].approval.value;
      assert IsApproval(log[i], CallOf(log, st.calls[j]).id);
      assert ApprovalTracked(log, st, i);
      assert EntryIndexed(log, st, j);
      PendingAt(log, st, mode, i);
    }
  }

  lemma LegacyFacts(log: Log, st: State, mode: Compatibility)
    requires Tracks(log, st, mode)
    ensures HasLegacyResult(log) <==> st.format == Legacy
  {
    if HasLegacyResult(log) {
      var i :| 0 <= i < |log| && log[i].body.ToolResult?
        && Asked(log, log[i].body.result.callId) && !Decided(log, log[i].body.result.callId);
      assert ResultTracked(log, st, i);
      RequestFacts(log, st, mode, log[i].body.result.callId);
      DecisionFacts(log, st, mode, log[i].body.result.callId);
      assert LegacyEntry(st.calls[st.callIndexes[log[i].body.result.callId]]);
    }
    if j :| 0 <= j < |st.calls| && LegacyEntry(st.calls[j]) {
      var i := st.calls[j].result.value;
      assert EntryIndexed(log, st, j);
      RequestFacts(log, st, mode, log[i].body.result.callId);
      DecisionFacts(log, st, mode, log[i].body.result.callId);
    }
  }
}

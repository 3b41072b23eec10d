/**
 The replay loop accepts exactly the timelines of `Lifecycle`: one lemma per
 event kind relates a step of the fold to the grammar, and the loop composes them.
 */
module ReplayCorrect {
  import opened Prelude
  import opened Events
  import opened Lifecycle
  import opened Replay

  /** One step accepts exactly what the grammar admits, and keeps tracking. */
  ghost predicate StepAgrees(log: Log, st: State, e: AgentEvent, mode: Compatibility)
    requires Tracks(log, st, mode)
  {
    && (Step(log, st, e, mode).Success? <==> Admits(log, e, mode))
    && (Step(log, st, e, mode).Success? ==> Tracks(log + [e], Step(log, st, e, mode).value, mode))
  }

  /** The call tables of two states agree. */
  ghost predicate SameTables(st: State, st': State) {
    st.calls == st'.calls && st.callIndexes == st'.callIndexes && st.approvalIndexes == st'.approvalIndexes
  }

  lemma BoundsGrow(log: Log, e: AgentEvent, st: State)
    requires InBounds(log, st)
    ensures InBounds(log + [e], st)
    ensures forall j :: 0 <= j < |st.calls| ==> CallOf(log + [e], st.calls[j]) == CallOf(log, st.calls[j])
  {
    forall j | 0 <= j < |st.calls|
      ensures EntryFits(log + [e], st.calls[j]) && CallOf(log + [e], st.calls[j]) == CallOf(log, st.calls[j])
    {
      assert EntryFits(log, st.calls[j]);
    }
  }

  lemma RequestsGrow(log: Log, e: AgentEvent, st: State, st': State)
    requires SameTables(st, st') && InBounds(log, st) && TracksRequests(log, st) && !e.body.ToolCallRequested?
    ensures InBounds(log + [e], st') && TracksRequests(log + [e], st')
  {
    BoundsGrow(log, e, st);
    forall i: nat | i < |log| + 1
      ensures RequestTracked(log + [e], st', i)
    {
      if i < |log| {
        assert RequestTracked(log, st, i);
      }
    }
    forall j: nat | j < |st'.calls|
      ensures EntryIndexed(log + [e], st', j)
    {
      assert EntryIndexed(log, st, j);
    }
  }

  lemma ApprovalsGrow(log: Log, e: AgentEvent, st: State, st': State)
    requires SameTables(st, st') && InBounds(log, st) && TracksApprovals(log, st) && !e.body.ApprovalRequested?
    ensures InBounds(log + [e], st') && TracksApprovals(log + [e], st')
  {
    BoundsGrow(log, e, st);
    forall i: nat | i < |log| + 1
      ensures ApprovalTracked(log + [e], st', i)
    {
      if i < |log| {
        assert ApprovalTracked(log, st, i);
      }
    }
  }

  lemma ResolutionsGrow(log: Log, e: AgentEvent, st: State, st': State)
    requires SameTables(st, st') && InBounds(log, st) && TracksResolutions(log, st) && !e.body.ApprovalResolved?
    ensures InBounds(log + [e], st') && TracksResolutions(log + [e], st')
  {
    BoundsGrow(log, e, st);
    forall i: nat | i < |log| + 1
      ensures ResolutionTracked(log + [e], st', i)
    {
      if i < |log| {
        assert ResolutionTracked(log, st, i);
      }
    }
  }

  lemma ResultsGrow(log: Log, e: AgentEvent, st: State, st': State)
    requires SameTables(st, st') && InBounds(log, st) && TracksResults(log, st) && !e.body.ToolResult?
    ensures InBounds(log + [e], st') && TracksResults(log + [e], st')
  {
    BoundsGrow(log, e, st);
    forall i: nat | i < |log| + 1
      ensures ResultTracked(log + [e], st', i)
    {
      if i < |log| {
        assert ResultTracked(log, st, i);
      }
    }
  }

  lemma TurnCheck(log: Log, st: State, e: AgentEvent)
    requires InBounds(log, st) && TracksTurns(log, st)
    ensures CheckTurn(st, e).None? <==> (e.InTurn().Some? ==> ActiveTurn(log) == e.InTurn())
  {
  }

  lemma TurnsKeep(log: Log, e: AgentEvent, st: State, st': State)
    requires InBounds(log, st) && TracksTurns(log, st) && InBounds(log + [e], st')
    requires if e.body.TurnStarted? then st'.startedTurns == st.startedTurns + {e.body.turn} && st'.activeTurn == Some(e.body.turn)
             else st'.startedTurns == st.startedTurns && st'.activeTurn == st.activeTurn
    ensures TracksTurns(log + [e], st')
  {
    SnocFacts(log, e);
  }

  lemma StatusKeeps(log: Log, e: AgentEvent, st: State, st': State, mode: Compatibility)
    requires InBounds(log, st) && TracksStatus(log, st, mode) && InBounds(log + [e], st')
    requires st'.calls == st.calls && st'.pending == st.pending && st'.format == st.format
    requires !e.body.ApprovalResolved? && !st.finished
    requires if e.body.RunFinished? then st'.finished && st'.status == RunStatus.Finished(e.body.status)
             else !st'.finished && st'.status == st.status
    ensures TracksStatus(log + [e], st', mode)
  {
    SnocFacts(log, e);
    assert (log + [e])[|log|] == e;
  }

  /** The change a `TurnStarted`, `ModelOutput`, `RunError` or `RunFinished` makes. */
  ghost predicate QuietChange(st: State, e: AgentEvent, st': State) {
    && (e.body.TurnStarted? || e.body.ModelOutput? || e.body.RunError? || e.body.RunFinished?)
    && !st.finished
    && SameTables(st, st') && st'.pending == st.pending && st'.format == st.format
    && (if e.body.RunFinished? then st'.finished && st'.status == RunStatus.Finished(e.body.status)
        else !st'.finished && st'.status == st.status)
    && (if e.body.TurnStarted? then st'.startedTurns == st.startedTurns + {e.body.turn} && st'.activeTurn == Some(e.body.turn)
        else st'.startedTurns == st.startedTurns && st'.activeTurn == st.activeTurn)
  }

  lemma QuietKeeps(log: Log, st: State, e: AgentEvent, st': State, mode: Compatibility)
    requires Tracks(log, st, mode) && QuietChange(st, e, st')
    ensures Tracks(log + [e], st', mode)
  {
    BoundsGrow(log, e, st);
    RequestsGrow(log, e, st, st');
    ApprovalsGrow(log, e, st, st');
    ResolutionsGrow(log, e, st, st');
    ResultsGrow(log, e, st, st');
    TurnsKeep(log, e, st, st');
    StatusKeeps(log, e, st, st', mode);
  }

  lemma StepPlain(log: Log, st: State, e: AgentEvent, mode: Compatibility)
    requires Tracks(log, st, mode)
    requires e.body.RunStarted? || e.body.ModelOutput? || e.body.RunError?
    ensures StepAgrees(log, st, e, mode)
  {
    TurnCheck(log, st, e);
    var r := Step(log, st, e, mode);
    if r.Success? {
      QuietKeeps(log, st, e, r.value, mode);
    }
  }

  lemma StepTurnStarted(log: Log, st: State, e: AgentEvent, mode: Compatibility)
    requires Tracks(log, st, mode) && e.body.TurnStarted?
    ensures StepAgrees(log, st, e, mode)
  {
    UnresolvedFacts(log, st, mode);
    var r := Step(log, st, e, mode);
    if r.Success? {
      QuietKeeps(log, st, e, r.value, mode);
    }
  }

  lemma StepFinished(log: Log, st: State, e: AgentEvent, mode: Compatibility)
    requires Tracks(log, st, mode) && e.body.RunFinished?
    ensures StepAgrees(log, st, e, mode)
  {
    UnresolvedFacts(log, st, mode);
    var r := Step(log, st, e, mode);
    if r.Success? {
      QuietKeeps(log, st, e, r.value, mode);
    }
  }

  // ---- a new call ------------------------------------------------------------------

  ghost predicate AddsCall(log: Log, st: State, e: AgentEvent, st': State) {
    && e.body.ToolCallRequested?
    && e.body.call.id !in st.callIndexes
    && st' == st.(
         callIndexes := st.callIndexes[e.body.call.id := |st.calls|],
         calls := st.calls + [CallEntry(|log|, None, None, None)])
  }

  lemma RequestedBounds(log: Log, st: State, e: AgentEvent, st': State)
    requires InBounds(log, st) && AddsCall(log, st, e, st')
    ensures InBounds(log + [e], st')
  {
    BoundsGrow(log, e, st);
    assert EntryFits(log + [e], CallEntry(|log|, None, None, None));
  }

  lemma RequestedTables(log: Log, st: State, e: AgentEvent, st': State)
    requires InBounds(log, st) && TracksRequests(log, st) && AddsCall(log, st, e, st') && InBounds(log + [e], st')
    ensures TracksRequests(log + [e], st')
  {
    BoundsGrow(log, e, st);
    forall i: nat | i < |log| + 1
      ensures RequestTracked(log + [e], st', i)
    {
      if i < |log| {
        assert RequestTracked(log, st, i);
      }
    }
    forall j: nat | j < |st'.calls|
      ensures EntryIndexed(log + [e], st', j)
    {
      if j < |st.calls| {
        assert EntryIndexed(log, st, j);
      }
    }
  }

  lemma RequestedOthers(log: Log, st: State, e: AgentEvent, st': State)
    requires InBounds(log, st) && AddsCall(log, st, e, st') && InBounds(log + [e], st')
    requires TracksApprovals(log, st) && TracksResolutions(log, st) && TracksResults(log, st)
    ensures TracksApprovals(log + [e], st') && TracksResolutions(log + [e], st') && TracksResults(log + [e], st')
  {
    BoundsGrow(log, e, st);
    forall i: nat | i < |log| + 1
      ensures ApprovalTracked(log + [e], st', i)
    {
      if i < |log| {
        assert ApprovalTracked(log, st, i);
      }
    }
    forall i: nat | i < |log| + 1
      ensures ResolutionTracked(log + [e], st', i)
    {
      if i < |log| {
        assert ResolutionTracked(log, st, i);
      }
    }
    forall i: nat | i < |log| + 1
      ensures ResultTracked(log + [e], st', i)
    {
      if i < |log| {
        assert ResultTracked(log, st, i);
      }
    }
  }

  lemma RequestedStatus(log: Log, st: State, e: AgentEvent, st': State, mode: Compatibility)
    requires InBounds(log, st) && AddsCall(log, st, e, st') && InBounds(log + [e], st')
    requires TracksStatus(log, st, mode) && !st.finished
    ensures TracksStatus(log + [e], st', mode)
  {
    SnocFacts(log, e);
    if j :| 0 <= j < |st.calls| && LegacyEntry(st.calls[j]) {
      assert LegacyEntry(st'.calls[j]);
    }
  }

  lemma StepRequested(log: Log, st: State, e: AgentEvent, mode: Compatibility)
    requires Tracks(log, st, mode) && e.body.ToolCallRequested?
    ensures StepAgrees(log, st, e, mode)
  {
    TurnCheck(log, st, e);
    RequestFacts(log, st, mode, e.body.call.id);
    var r := Step(log, st, e, mode);
    if r.Success? {
      RequestedBounds(log, st, e, r.value);
      RequestedTables(log, st, e, r.value);
      RequestedOthers(log, st, e, r.value);
      RequestedStatus(log, st, e, r.value, mode);
      TurnsKeep(log, e, st, r.value);
    }
  }

  // ---- an approval, a decision or a result for a known call -----------------------------

  /** Entry `j` gains one index, the one of the event being appended. */
  ghost predicate UpdatesEntry(log: Log, st: State, e: AgentEvent, j: nat, st': State)
    requires InBounds(log, st)
  {
    && j < |st.calls|
    && (match e.body
        case ApprovalRequested(t, request) =>
          && st.calls[j].approval.None? && st.calls[j].resolution.None? && st.calls[j].result.None?
          && CallOf(log, st.calls[j]) == request.call && log[st.calls[j].requested].body.turn == t
          && request.id !in st.approvalIndexes
          && st'.calls == st.calls[j := st.calls[j].(approval := Some(|log|))]
          && st'.approvalIndexes == st.approvalIndexes[request.id := j]
        case ApprovalResolved(t, approvalId, _) =>
          && st.calls[j].resolution.None? && st.calls[j].result.None?
          && approvalId in st.approvalIndexes && st.approvalIndexes[approvalId] == j
          && st'.calls == st.calls[j := st.calls[j].(resolution := Some(|log|))]
          && st'.approvalIndexes == st.approvalIndexes
        case ToolResult(t, result) =>
          && st.calls[j].result.None? && CallOf(log, st.calls[j]).id == result.callId
          && st'.calls == st.calls[j := st.calls[j].(result := Some(|log|))]
          && st'.approvalIndexes == st.approvalIndexes
        case _ => false)
    && st'.callIndexes == st.callIndexes
  }

  lemma UpdateBounds(log: Log, st: State, e: AgentEvent, j: nat, st': State)
    requires InBounds(log, st) && UpdatesEntry(log, st, e, j, st')
    requires TracksApprovals(log, st)
    ensures InBounds(log + [e], st')
    ensures forall k :: 0 <= k < |st'.calls| ==> CallOf(log + [e], st'.calls[k]) == CallOf(log, st.calls[k])
  {
    BoundsGrow(log, e, st);
    assert EntryFits(log + [e], st.calls[j]);
    assert EntryFits(log + [e], st'.calls[j]);
  }

  lemma UpdateRequests(log: Log, st: State, e: AgentEvent, j: nat, st': State)
    requires InBounds(log, st) && UpdatesEntry(log, st, e, j, st')
    requires TracksApprovals(log, st) && TracksRequests(log, st)
    ensures InBounds(log + [e], st') && TracksRequests(log + [e], st')
  {
    UpdateBounds(log, st, e, j, st');
    forall i: nat | i < |log| + 1
      ensures RequestTracked(log + [e], st', i)
    {
      if i < |log| {
        assert RequestTracked(log, st, i);
      }
    }
    forall k: nat | k < |st'.calls|
      ensures EntryIndexed(log + [e], st', k)
    {
      assert EntryIndexed(log, st, k);
    }
  }

  lemma ApprovalStillTracked(log: Log, st: State, e: AgentEvent, j: nat, st': State, i: nat)
    requires InBounds(log, st) && UpdatesEntry(log, st, e, j, st') && InBounds(log + [e], st')
    requires i < |log| && ApprovalTracked(log, st, i) && !e.body.ApprovalRequested?
    ensures ApprovalTracked(log + [e], st', i)
  {
    assert (log + [e])[i] == log[i];
  }

  lemma UpdateApprovals(log: Log, st: State, e: AgentEvent, j: nat, st': State)
    requires InBounds(log, st) && UpdatesEntry(log, st, e, j, st')
    requires TracksApprovals(log, st)
    requires !e.body.ApprovalRequested?
    ensures InBounds(log + [e], st') && TracksApprovals(log + [e], st')
  {
    UpdateBounds(log, st, e, j, st');
    forall i: nat | i < |log| + 1
      ensures ApprovalTracked(log + [e], st', i)
    {
      if i < |log| {
        ApprovalStillTracked(log, st, e, j, st', i);
      }
    }
  }

  lemma AddApproval(log: Log, st: State, e: AgentEvent, j: nat, st': State)
    requires InBounds(log, st) && UpdatesEntry(log, st, e, j, st')
    requires TracksApprovals(log, st) && EntryIndexed(log, st, j)
    requires e.body.ApprovalRequested?
    ensures InBounds(log + [e], st') && TracksApprovals(log + [e], st')
  {
    UpdateBounds(log, st, e, j, st');
    forall i: nat | i < |log| + 1
      ensures ApprovalTracked(log + [e], st', i)
    {
      if i < |log| {
        assert ApprovalTracked(log, st, i);
      }
    }
  }

  lemma UpdateResolutions(log: Log, st: State, e: AgentEvent, j: nat, st': State)
    requires InBounds(log, st) && UpdatesEntry(log, st, e, j, st')
    requires TracksApprovals(log, st) && TracksResolutions(log, st)
    ensures InBounds(log + [e], st') && TracksResolutions(log + [e], st')
  {
    UpdateBounds(log, st, e, j, st');
    forall i: nat | i < |log| + 1
      ensures ResolutionTracked(log + [e], st', i)
    {
      if i < |log| {
        assert ResolutionTracked(log, st, i);
      }
    }
  }

  lemma UpdateResults(log: Log, st: State, e: AgentEvent, j: nat, st': State)
    requires InBounds(log, st) && UpdatesEntry(log, st, e, j, st')
    requires TracksApprovals(log, st) && TracksResults(log, st) && TracksRequests(log, st)
    ensures InBounds(log + [e], st') && TracksResults(log + [e], st')
  {
    UpdateBounds(log, st, e, j, st');
    forall i: nat | i < |log| + 1
      ensures ResultTracked(log + [e], st', i)
    {
      if i < |log| {
        assert ResultTracked(log, st, i);
      } else {
        assert EntryIndexed(log, st, j);
      }
    }
  }

  /** How an update of entry `j` changes the pending set, the status and the format. */
  ghost predicate UpdatesStatus(log: Log, st: State, e: AgentEvent, j: nat, st': State)
    requires InBounds(log, st) && j < |st.calls|
  {
    && !st.finished && !st'.finished
    && st'.pending == (if e.body.ApprovalRequested? then st.pending + {j} else st.pending - {j})
    && st'.status == (if e.body.ApprovalRequested? then AwaitingApproval
                      else if st'.pending == {} then Running else st.status)
    && (match e.body
        case ApprovalRequested(_, _) => st'.format == st.format
        case ApprovalResolved(_, _, _) => st'.format == Modern && st.format != Legacy
        case _ =>
          if st.calls[j].approval.Some? && st.calls[j].resolution.None?
          then st'.format == Legacy && st.format != Modern
          else st'.format == st.format)
  }

  lemma UpdatePending(log: Log, st: State, e: AgentEvent, j: nat, st': State, mode: Compatibility)
    requires InBounds(log, st) && UpdatesEntry(log, st, e, j, st') && UpdatesStatus(log, st, e, j, st')
    requires TracksStatus(log, st, mode) && e.body.ApprovalResolved? ==> st.calls[j].approval.Some?
    requires TracksStatus(log, st, mode)
    ensures forall k :: k in st'.pending <==> 0 <= k < |st'.calls| && Unsettled(st'.calls[k])
    ensures st'.status == if st'.pending == {} then Running else AwaitingApproval
  {
    if e.body.ApprovalRequested? {
      assert j in st'.pending;
    }
  }

  lemma UpdateFormat(log: Log, st: State, e: AgentEvent, j: nat, st': State, mode: Compatibility)
    requires InBounds(log, st) && UpdatesEntry(log, st, e, j, st') && UpdatesStatus(log, st, e, j, st')
    requires TracksStatus(log, st, mode)
    ensures st'.format == Modern <==> HasResolution(log + [e])
    ensures st'.format == Legacy <==> exists k :: 0 <= k < |st'.calls| && LegacyEntry(st'.calls[k])
  {
    SnocFacts(log, e);
    if k :| 0 <= k < |st.calls| && LegacyEntry(st.calls[k]) {
      assert LegacyEntry(st'.calls[k]);
    }
    if k :| 0 <= k < |st'.calls| && LegacyEntry(st'.calls[k]) {
      if k != j {
        assert LegacyEntry(st.calls[k]);
      }
    }
    if e.body.ToolResult? && st'.format == Legacy && st.format != Legacy {
      assert LegacyEntry(st'.calls[j]);
    }
  }

  lemma UpdateKeeps(log: Log, st: State, e: AgentEvent, j: nat, st': State, mode: Compatibility)
    requires Tracks(log, st, mode)
    requires UpdatesEntry(log, st, e, j, st') && UpdatesStatus(log, st, e, j, st')
    requires st'.startedTurns == st.startedTurns && st'.activeTurn == st.activeTurn
    requires e.body.ApprovalResolved? ==> st.calls[j].approval.Some?
    requires mode == Strict ==> st'.format != Legacy
    ensures Tracks(log + [e], st', mode)
  {
    UpdateBounds(log, st, e, j, st');
    UpdateRequests(log, st, e, j, st');
    if e.body.ApprovalRequested? {
      assert EntryIndexed(log, st, j);
      AddApproval(log, st, e, j, st');
    } else {
      UpdateApprovals(log, st, e, j, st');
    }
    UpdateResolutions(log, st, e, j, st');
    UpdateResults(log, st, e, j, st');
    UpdatePending(log, st, e, j, st', mode);
    UpdateFormat(log, st, e, j, st', mode);
    TurnsKeep(log, e, st, st');
    SnocFacts(log, e);
  }

  lemma AskCheck(log: Log, st: State, turn: TurnId, request: ApprovalRequest, mode: Compatibility)
    requires Tracks(log, st, mode)
    ensures OnApprovalRequested(log, st, turn, request).Success? <==> MayAsk(log, turn, request)
  {
    RequestFacts(log, st, mode, request.call.id);
    ApprovalFacts(log, st, mode, request.id);
    forall i | 0 <= i < |log| && log[i].body.ToolCallRequested? && log[i].body.call == request.call
      ensures request.call.id in st.callIndexes && st.calls[st.callIndexes[request.call.id]].requested == i
    {
      assert RequestTracked(log, st, i);
    }
  }

  lemma StepApprovalRequested(log: Log, st: State, e: AgentEvent, mode: Compatibility)
    requires Tracks(log, st, mode) && e.body.ApprovalRequested?
    ensures StepAgrees(log, st, e, mode)
  {
    TurnCheck(log, st, e);
    AskCheck(log, st, e.body.turn, e.body.request, mode);
    var r := Step(log, st, e, mode);
    if r.Success? {
      UpdateKeeps(log, st, e, st.callIndexes[e.body.request.call.id], r.value, mode);
    }
  }

  lemma ResolveCheck(log: Log, st: State, turn: TurnId, approvalId: string, mode: Compatibility)
    requires Tracks(log, st, mode)
    ensures OnApprovalResolved(log, st, turn, approvalId, mode).Success? <==> MayResolve(log, turn, approvalId, mode)
  {
    ApprovalFacts(log, st, mode, approvalId);
    LegacyFacts(log, st, mode);
    forall i | 0 <= i < |log| && IsApprovalNamed(log[i], approvalId)
      ensures approvalId in st.approvalIndexes && st.calls[st.approvalIndexes[approvalId]].approval == Some(i)
    {
      assert ApprovalTracked(log, st, i);
    }
    if approvalId in st.approvalIndexes {
      var j := st.approvalIndexes[approvalId];
      RequestFacts(log, st, mode, CallOf(log, st.calls[j]).id);
      assert EntryIndexed(log, st, j);
    }
  }

  lemma StepApprovalResolved(log: Log, st: State, e: AgentEvent, mode: Compatibility)
    requires Tracks(log, st, mode) && e.body.ApprovalResolved?
    ensures StepAgrees(log, st, e, mode)
  {
    TurnCheck(log, st, e);
    ResolveCheck(log, st, e.body.turn, e.body.approvalId, mode);
    var r := Step(log, st, e, mode);
    if r.Success? {
      UpdateKeeps(log, st, e, st.approvalIndexes[e.body.approvalId], r.value, mode);
    }
  }

  /** The three-way check decides by the entry alone what the grammar says of the timeline. */
  lemma CheckByEntry(log: Log, st: State, c: CallEntry, result: ToolOutcome, mode: Compatibility)
    requires EntryFits(log, c)
    requires Asked(log, result.callId) <==> c.approval.Some?
    requires Decided(log, result.callId) <==> c.resolution.Some?
    requires forall d :: DecidedAs(log, result.callId, d) <==>
               c.resolution.Some? && log[c.resolution.value].body.decision == d
    requires mode != Strict ==> (st.format == Modern <==> HasResolution(log))
    ensures CheckResult(log, st, c, result, mode).Success? <==> ResultAllowed(log, result, mode)
  {
    if c.resolution.Some? {
      var decision := log[c.resolution.value].body.decision;
      assert DecidedAs(log, result.callId, decision);
    }
  }

  /** The three-way check on a result is the grammar's `ResultAllowed`. */
  lemma ResultCheck(log: Log, st: State, result: ToolOutcome, mode: Compatibility)
    requires Tracks(log, st, mode) && result.callId in st.callIndexes
    ensures var c := st.calls[st.callIndexes[result.callId]];
      CheckResult(log, st, c, result, mode).Success? <==> ResultAllowed(log, result, mode)
  {
    RequestFacts(log, st, mode, result.callId);
    DecisionFacts(log, st, mode, result.callId);
    CheckByEntry(log, st, st.calls[st.callIndexes[result.callId]], result, mode);
  }

  lemma AnswerCheck(log: Log, st: State, turn: TurnId, result: ToolOutcome, mode: Compatibility)
    requires Tracks(log, st, mode)
    ensures OnToolResult(log, st, turn, result, mode).Success? <==> MayAnswer(log, turn, result, mode)
  {
    RequestFacts(log, st, mode, result.callId);
    forall i | 0 <= i < |log| && IsRequest(log[i], result.callId)
      ensures result.callId in st.callIndexes && st.calls[st.callIndexes[result.callId]].requested == i
    {
      assert RequestTracked(log, st, i);
    }
    if result.callId in st.callIndexes {
      assert IsRequest(log[st.calls[st.callIndexes[result.callId]].requested], result.callId);
      ResultCheck(log, st, result, mode);
    }
  }

  /** An accepted result updates the entry of its call and the status. */
  lemma ResultUpdates(log: Log, st: State, e: AgentEvent, mode: Compatibility)
    requires Tracks(log, st, mode) && e.body.ToolResult? && Step(log, st, e, mode).Success?
    ensures Tracks(log + [e], Step(log, st, e, mode).value, mode)
  {
    UpdateKeeps(log, st, e, st.callIndexes[e.body.result.callId], Step(log, st, e, mode).value, mode);
  }

  lemma StepToolResult(log: Log, st: State, e: AgentEvent, mode: Compatibility)
    requires Tracks(log, st, mode) && e.body.ToolResult?
    ensures StepAgrees(log, st, e, mode)
  {
    TurnCheck(log, st, e);
    AnswerCheck(log, st, e.body.turn, e.body.result, mode);
    if Step(log, st, e, mode).Success? {
      ResultUpdates(log, st, e, mode);
    }
  }

  lemma StepCorrect(log: Log, st: State, e: AgentEvent, mode: Compatibility)
    requires Tracks(log, st, mode)
    ensures StepAgrees(log, st, e, mode)
  {
    match e.body
    case TurnStarted(_) => StepTurnStarted(log, st, e, mode);
    case ToolCallRequested(_, _, _) => StepRequested(log, st, e, mode);
    case ApprovalRequested(_, _) => StepApprovalRequested(log, st, e, mode);
    case ApprovalResolved(_, _, _) => StepApprovalResolved(log, st, e, mode);
    case ToolResult(_, _) => StepToolResult(log, st, e, mode);
    case RunFinished(_) => StepFinished(log, st, e, mode);
    case _ => StepPlain(log, st, e, mode);
  }

  // ---- the whole loop ------------------------------------------------------------------

  lemma Start(first: AgentEvent, mode: Compatibility)
    requires first.body.RunStarted?
    ensures Tracks([first], INITIAL, mode)
  {
    var log := [first];
    assert ActiveTurn(log) == None;
  }

  /** A request at `i` has an entry. */
  ghost predicate Listed(log: Log, calls: seq<CallEntry>, i: nat)
    requires i < |log|
  {
    log[i].body.ToolCallRequested? ==> exists j :: 0 <= j < |calls| && calls[j].requested == i
  }

  /** The entries list exactly the requests, in order, each with its result if it has one. */
  ghost predicate Lists(log: Log, calls: seq<CallEntry>) {
    && (forall j :: 0 <= j < |calls| ==> EntryFits(log, calls[j]))
    && (forall j, k :: 0 <= j < k < |calls| ==> calls[j].requested < calls[k].requested)
    && (forall i :: 0 <= i < |log| ==> Listed(log, calls, i))
    && (forall j :: 0 <= j < |calls| ==> (calls[j].result.None? <==> !Answered(log, CallOf(log, calls[j]).id)))
  }

  lemma TracksLists(log: Log, st: State, mode: Compatibility)
    requires Tracks(log, st, mode)
    ensures Lists(log, st.calls)
  {
    forall i | 0 <= i < |log|
      ensures Listed(log, st.calls, i)
    {
      if log[i].body.ToolCallRequested? { assert RequestTracked(log, st, i); }
    }
    forall j | 0 <= j < |st.calls|
      ensures st.calls[j].result.None? <==> !Answered(log, CallOf(log, st.calls[j]).id)
    {
      assert EntryIndexed(log, st, j);
      RequestFacts(log, st, mode, CallOf(log, st.calls[j]).id);
    }
  }

  /** The first `k` entries are the requests among the first `n` events. */
  ghost predicate Splits(calls: seq<CallEntry>, n: nat, k: nat) {
    && k <= |calls|
    && (forall j :: 0 <= j < k ==> calls[j].requested < n)
    && (forall j :: k <= j < |calls| ==> n <= calls[j].requested)
  }

  lemma SplitsAt(calls: seq<CallEntry>, n: nat, k: nat, j: nat)
    requires forall i, m :: 0 <= i < m < |calls| ==> calls[i].requested < calls[m].requested
    requires 0 < n && Splits(calls, n, k) && j < |calls| && calls[j].requested == n - 1
    ensures j == k - 1 && Splits(calls, n - 1, k - 1)
  {
    assert j < k && calls[k - 1].requested < n;
    assert j == k - 1;
  }

  lemma SplitsSkip(log: Log, calls: seq<CallEntry>, n: nat, k: nat)
    requires 0 < n <= |log| && Splits(calls, n, k) && !log[n - 1].body.ToolCallRequested?
    requires forall j :: 0 <= j < |calls| ==> EntryFits(log, calls[j])
    ensures Splits(calls, n - 1, k)
  {
    forall j | 0 <= j < k
      ensures calls[j].requested < n - 1
    {
      assert EntryFits(log, calls[j]);
    }
  }

  lemma UnresolvedTake(log: Log, calls: seq<CallEntry>, k: nat)
    requires 0 < k <= |calls| && forall j :: 0 <= j < |calls| ==> EntryFits(log, calls[j])
    ensures UnresolvedIds(log, calls[..k]) == WithLast(log, calls[..k - 1], calls[k - 1])
  {
    assert calls[..k][..k - 1] == calls[..k - 1] && calls[..k][k - 1] == calls[k - 1];
  }

  /** One more request extends both listings alike. */
  lemma OpenCallListed(log: Log, calls: seq<CallEntry>, n: nat, k: nat)
    requires Lists(log, calls) && 0 < n <= |log| && 0 < k <= |calls|
    requires log[n - 1].body.ToolCallRequested? && calls[k - 1].requested == n - 1
    requires OpenCalls(log, n - 1) == UnresolvedIds(log, calls[..k - 1])
    ensures OpenCalls(log, n) == UnresolvedIds(log, calls[..k])
  {
    UnresolvedTake(log, calls, k);
    assert CallOf(log, calls[k - 1]) == log[n - 1].body.call;
    assert WithLast(log, calls[..k - 1], calls[k - 1]) ==
      UnresolvedIds(log, calls[..k - 1]) + if calls[k - 1].result.None? then [log[n - 1].body.call.id] else [];
  }

  /** A request at the end of the split is its last entry. */
  lemma RequestIsLast(log: Log, calls: seq<CallEntry>, n: nat, k: nat)
    requires Lists(log, calls) && 0 < n <= |log| && Splits(calls, n, k) && log[n - 1].body.ToolCallRequested?
    ensures 0 < k && calls[k - 1].requested == n - 1 && Splits(calls, n - 1, k - 1)
  {
    assert Listed(log, calls, n - 1);
    var j :| 0 <= j < |calls| && calls[j].requested == n - 1;
    SplitsAt(calls, n, k, j);
  }

  lemma SplitsNone(calls: seq<CallEntry>, k: nat)
    requires Splits(calls, 0, k)
    ensures k == 0 && calls[..k] == []
  {
    var before := if k > 0 then calls[0].requested + 1 else 0;
    assert k > 0 ==> before <= 0;
  }

  /** Both listings of open calls agree. */
  lemma {:induction false} OpenCallsListed(log: Log, calls: seq<CallEntry>, n: nat, k: nat)
    requires Lists(log, calls) && n <= |log| && Splits(calls, n, k)
    ensures OpenCalls(log, n) == UnresolvedIds(log, calls[..k])
  {
    if n == 0 {
      SplitsNone(calls, k);
    } else if log[n - 1].body.ToolCallRequested? {
      RequestIsLast(log, calls, n, k);
      OpenCallsListed(log, calls, n - 1, k - 1);
      OpenCallListed(log, calls, n, k);
    } else {
      SplitsSkip(log, calls, n, k);
      OpenCallsListed(log, calls, n - 1, k);
    }
  }

  lemma StatusObserved(log: Log, st: State, mode: Compatibility)
    requires Tracks(log, st, mode) && Timeline(log, mode)
    ensures st.status == ObservedStatus(log, false)
    ensures ObservedStatus(log, true) ==
            var ids := UnresolvedIds(log, st.calls);
            if st.status == Running && ids != [] then RecoveryRequired(ids) else st.status
  {
    PendingFacts(log, st, mode);
    UnresolvedFacts(log, st, mode);
    TracksLists(log, st, mode);
    OpenCallsListed(log, st.calls, |log|, |st.calls|);
    assert st.calls[..|st.calls|] == st.calls;
    if log[|log| - 1].body.RunFinished? {
      assert Ended(log);
    }
  }

  lemma Advance(events: Log, index: nat, st: State, mode: Compatibility)
    requires 1 <= index < |events| && Timeline(events[..index], mode) && Tracks(events[..index], st, mode)
    ensures var r := Step(events[..index], st, events[index], mode);
      if r.Success? then Timeline(events[..index + 1], mode) && Tracks(events[..index + 1], r.value, mode)
      else !Admits(events[..index], events[index], mode) && !Timeline(events, mode)
  {
    var seen := events[..index];
    StepCorrect(seen, st, events[index], mode);
    assert events[..index + 1] == seen + [events[index]];
    if Admits(seen, events[index], mode) {
      Extend(seen, events[index], mode);
    }
  }

  /** The replay loop. Acceptance, status and the position of a rejection are those of the grammar. */
  method ReplayEventsWithMode(events: Log, detectRecovery: bool, mode: Compatibility) returns (r: Result<RunReplay, ReplayError>)
    ensures r.Success? <==> WellFormed(events, mode)
    ensures r.Success? ==>
              && r.value.runId == events[0].runId
              && r.value.events == events
              && r.value.status == ObservedStatus(events, detectRecovery)
              && Lists(events, r.value.calls)
    ensures r.Failure? ==> Blames(events, mode, r.error)
  {
    if events == [] { return Failure(EmptyLog); }
    if !events[0].body.RunStarted? { return Failure(FirstEventIsNotRunStarted); }
    if mode.LegacyApprovalWithoutResolution? {
      for i := 0 to |events|
        invariant forall k :: 0 <= k < i ==> events[k].sequence.None?
      {
        if events[i].sequence.Some? { return Failure(LegacyCompatibilityForSequencedLog(i + 1)); }
      }
    }
    var st := INITIAL;
    var index := 1;
    assert events[..1] == [events[0]];
    Start(events[0], mode);
    while index < |events|
      invariant 1 <= index <= |events|
      invariant Timeline(events[..index], mode)
      invariant Tracks(events[..index], st, mode)
    {
      Advance(events, index, st, mode);
      match Step(events[..index], st, events[index], mode) {
        case Failure(reason) => return Failure(Rejected(index + 1, reason));
        case Success(next) => st := next;
      }
      index := index + 1;
    }
    assert events[..index] == events;
    StatusObserved(events, st, mode);
    TracksLists(events, st, mode);
    var status := st.status;
    if detectRecovery && status == Running {
      var ids := UnresolvedIds(events, st.calls);
      if ids != [] { status := RecoveryRequired(ids); }
    }
    r := Success(RunReplay(events[0].runId, status, events, st.calls));
  }

  /** The error names the first event that breaks the grammar. */
  ghost predicate Blames(events: Log, mode: Compatibility, error: ReplayError) {
    match error
    case EmptyLog => events == []
    case FirstEventIsNotRunStarted => events != [] && !events[0].body.RunStarted?
    case LegacyCompatibilityForSequencedLog(n) =>
      && mode != Strict
      && 1 <= n <= |events|
      && events[n - 1].sequence.Some?
      && forall i :: 0 <= i < n - 1 ==> events[i].sequence.None?
    case Rejected(n, _) =>
      && 2 <= n <= |events|
      && Timeline(events[..n - 1], mode)
      && !Admits(events[..n - 1], events[n - 1], mode)
  }
}

/**
 A declarative grammar of Agent Run timelines, written over the events alone.
 It shares no state with the replay fold; `Replay` proves that the fold accepts
 exactly this grammar.
 */
module Lifecycle {
  import opened Prelude
  import opened Events

  datatype Compatibility = Strict | LegacyApprovalWithoutResolution

  // ---- single events -------------------------------------------------------

  predicate IsRequest(e: AgentEvent, id: ToolCallId) {
    e.body.ToolCallRequested? && e.body.call.id == id
  }

  predicate IsApproval(e: AgentEvent, id: ToolCallId) {
    e.body.ApprovalRequested? && e.body.request.call.id == id
  }

  predicate IsApprovalNamed(e: AgentEvent, approvalId: string) {
    e.body.ApprovalRequested? && e.body.request.id == approvalId
  }

  predicate IsResolution(e: AgentEvent, approvalId: string) {
    e.body.ApprovalResolved? && e.body.approvalId == approvalId
  }

  predicate IsResult(e: AgentEvent, id: ToolCallId) {
    e.body.ToolResult? && e.body.result.callId == id
  }

  // ---- facts about a timeline ----------------------------------------------

  ghost predicate Requested(log: Log, id: ToolCallId) {
    exists i :: 0 <= i < |log| && IsRequest(log[i], id)
  }

  ghost predicate Answered(log: Log, id: ToolCallId) {
    exists i :: 0 <= i < |log| && IsResult(log[i], id)
  }

  ghost predicate Asked(log: Log, id: ToolCallId) {
    exists i :: 0 <= i < |log| && IsApproval(log[i], id)
  }

  ghost predicate ApprovalNamed(log: Log, approvalId: string) {
    exists i :: 0 <= i < |log| && IsApprovalNamed(log[i], approvalId)
  }

  ghost predicate Resolved(log: Log, approvalId: string) {
    exists i :: 0 <= i < |log| && IsResolution(log[i], approvalId)
  }

  /** Some approval asked for call `id` was answered with `decision`. */
  ghost predicate DecidedAs(log: Log, id: ToolCallId, decision: ApprovalDecision) {
    exists a, r :: 0 <= a < |log| && 0 <= r < |log| && IsApproval(log[a], id)
      && IsResolution(log[r], log[a].body.request.id) && log[r].body.decision == decision
  }

  ghost predicate Decided(log: Log, id: ToolCallId) {
    exists a :: 0 <= a < |log| && IsApproval(log[a], id) && Resolved(log, log[a].body.request.id)
  }

  ghost predicate Ended(log: Log) {
    exists i :: 0 <= i < |log| && log[i].body.RunFinished?
  }

  ghost predicate TurnOpened(log: Log, turn: TurnId) {
    exists i :: 0 <= i < |log| && log[i].body.TurnStarted? && log[i].body.turn == turn
  }

  /** The turn of the latest `TurnStarted`. */
  function ActiveTurn(log: Log): Option<TurnId> {
    if log == [] then None
    else
      var last := log[|log| - 1];
      if last.body.TurnStarted? then Some(last.body.turn) else ActiveTurn(log[..|log| - 1])
  }

  /** Call `id` still waits for its result. */
  ghost predicate Open(log: Log, id: ToolCallId) {
    Requested(log, id) && !Answered(log, id)
  }

  ghost predicate AllAnswered(log: Log) {
    forall i :: 0 <= i < |log| && log[i].body.ToolCallRequested? ==> Answered(log, log[i].body.call.id)
  }

  /** A result was recorded for a call whose approval was never resolved. */
  ghost predicate HasLegacyResult(log: Log) {
    exists i :: 0 <= i < |log| && log[i].body.ToolResult?
      && Asked(log, log[i].body.result.callId) && !Decided(log, log[i].body.result.callId)
  }

  ghost predicate HasResolution(log: Log) {
    exists i :: 0 <= i < |log| && log[i].body.ApprovalResolved?
  }

  /** Some requested approval has neither a decision nor (legacy logs) a result. */
  ghost predicate AwaitsDecision(log: Log) {
    exists a :: 0 <= a < |log| && log[a].body.ApprovalRequested?
      && !Resolved(log, log[a].body.request.id) && !Answered(log, log[a].body.request.call.id)
  }

  // ---- the grammar -----------------------------------------------------------

  predicate CanonicalDenial(output: ToolOutput, reason: string) {
    output == ToolFailure(ToolError(APPROVAL_DENIED, reason, false), map[])
  }

  ghost predicate ResultAllowed(log: Log, result: ToolOutcome, mode: Compatibility) {
    var id := result.callId;
    if Asked(log, id) && !Decided(log, id) then
      && mode != Strict
      && !HasResolution(log)
      && (ClaimsDenial(result.output) ==> !result.output.error.retryable && result.output.extensions == map[])
    else
      && (forall reason :: DecidedAs(log, id, Deny(reason)) ==> CanonicalDenial(result.output, reason))
      && ((forall reason :: !DecidedAs(log, id, Deny(reason))) ==> !ClaimsDenial(result.output))
  }

  ghost predicate MayAsk(log: Log, turn: TurnId, request: ApprovalRequest) {
    && (exists i :: 0 <= i < |log| && log[i].body.ToolCallRequested?
         && log[i].body.call == request.call && log[i].body.turn == turn)
    && !Answered(log, request.call.id)
    && !Asked(log, request.call.id)
    && !ApprovalNamed(log, request.id)
  }

  ghost predicate MayResolve(log: Log, turn: TurnId, approvalId: string, mode: Compatibility) {
    && (exists a :: 0 <= a < |log| && IsApprovalNamed(log[a], approvalId)
         && log[a].body.turn == turn && !Answered(log, log[a].body.request.call.id))
    && !Resolved(log, approvalId)
    && (mode != Strict ==> !HasLegacyResult(log))
  }

  ghost predicate MayAnswer(log: Log, turn: TurnId, result: ToolOutcome, mode: Compatibility) {
    && (exists i :: 0 <= i < |log| && IsRequest(log[i], result.callId) && log[i].body.turn == turn)
    && !Answered(log, result.callId)
    && ResultAllowed(log, result, mode)
  }

  /** May `e` follow the non-empty timeline `log`? */
  ghost predicate Admits(log: Log, e: AgentEvent, mode: Compatibility)
    requires |log| > 0
  {
    && !Ended(log)
    && e.runId == log[0].runId
    && (e.InTurn().Some? ==> ActiveTurn(log) == e.InTurn())
    && match e.body
       case RunStarted => false
       case TurnStarted(t) => !TurnOpened(log, t) && AllAnswered(log)
       case ModelOutput(_, _) => true
       case ToolCallRequested(_, _, call) => !Requested(log, call.id)
       case ApprovalRequested(t, request) => MayAsk(log, t, request)
       case ApprovalResolved(t, approvalId, _) => MayResolve(log, t, approvalId, mode)
       case ToolResult(t, result) => MayAnswer(log, t, result, mode)
       case RunError(_, _) => true
       case RunFinished(status) => status.Completed? || status.Failed? ==> AllAnswered(log)
  }

  ghost predicate Timeline(log: Log, mode: Compatibility) {
    && |log| > 0
    && log[0].body.RunStarted?
    && forall n {:trigger log[n]} :: 1 <= n < |log| ==> Admits(log[..n], log[n], mode)
  }

  /** One start, and (in the legacy mode) no event sequence anywhere. */
  ghost predicate WellFormed(log: Log, mode: Compatibility) {
    && Timeline(log, mode)
    && (mode != Strict ==> forall i :: 0 <= i < |log| ==> log[i].sequence.None?)
  }

  /** Ids of the calls requested within the first `n` events and never answered, in request order. */
  ghost function OpenCalls(log: Log, n: nat): seq<ToolCallId>
    requires n <= |log|
  {
    if n == 0 then []
    else
      var e := log[n - 1];
      OpenCalls(log, n - 1) +
      (if e.body.ToolCallRequested? && !Answered(log, e.body.call.id) then [e.body.call.id] else [])
  }

  /** The status a reader of the timeline must observe. */
  ghost function ObservedStatus(log: Log, detectRecovery: bool): RunStatus {
    if |log| > 0 && log[|log| - 1].body.RunFinished? then RunStatus.Finished(log[|log| - 1].body.status)
    else if AwaitsDecision(log) then AwaitingApproval
    else if detectRecovery && !AllAnswered(log) then RecoveryRequired(OpenCalls(log, |log|))
    else Running
  }

  // ---- consequences of the grammar ---------------------------------------------

  lemma {:induction false} PrefixClosed(log: Log, mode: Compatibility, n: nat)
    requires WellFormed(log, mode) && 0 < n <= |log|
    ensures WellFormed(log[..n], mode)
  {
    var prefix := log[..n];
    forall k | 1 <= k < n
      ensures Admits(prefix[..k], prefix[k], mode)
    {
      assert prefix[..k] == log[..k] && prefix[k] == log[k];
    }
  }

  lemma Extend(log: Log, e: AgentEvent, mode: Compatibility)
    requires Timeline(log, mode) && Admits(log, e, mode)
    ensures Timeline(log + [e], mode)
  {
    var longer := log + [e];
    forall k | 1 <= k < |longer|
      ensures Admits(longer[..k], longer[k], mode)
    {
      if k < |log| {
        assert longer[..k] == log[..k];
      } else {
        assert longer[..k] == log;
      }
    }
  }

  /** The grammar's clause for event `n`, with the prefix read off the timeline itself. */
  lemma AdmittedAt(log: Log, mode: Compatibility, n: nat)
    requires Timeline(log, mode) && 1 <= n < |log|
    ensures Admits(log[..n], log[n], mode)
    ensures forall i :: 0 <= i < n ==> log[..n][i] == log[i]
  {
  }

  lemma {:induction false} EndsOnlyAtTheEnd(log: Log, mode: Compatibility, i: nat)
    requires Timeline(log, mode) && i < |log| && log[i].body.RunFinished?
    ensures i == |log| - 1
  {
    if 1 < |log| {
      AdmittedAt(log, mode, |log| - 1);
    }
  }

  /** A call without a result always belongs to the turn in progress. */
  lemma {:induction false} OpenCallsAreInTheActiveTurn(log: Log, mode: Compatibility, i: nat)
    requires Timeline(log, mode)
    requires i < |log| && log[i].body.ToolCallRequested? && !Answered(log, log[i].body.call.id)
    ensures ActiveTurn(log) == Some(log[i].body.turn)
    decreases |log|
  {
    var n := |log| - 1;
    var front := log[..n];
    AdmittedAt(log, mode, n);
    if i < n {
      var id := front[i].body.call.id;
      forall k | 0 <= k < n
        ensures !IsResult(front[k], id)
      {
        assert !IsResult(log[k], id);
      }
      assert !Answered(front, id);
      forall k | 1 <= k < n
        ensures Admits(front[..k], front[k], mode)
      {
        assert front[..k] == log[..k];
      }
      OpenCallsAreInTheActiveTurn(front, mode, i);
    }
  }

  /** What one call may leave in a timeline, and in which order. */
  lemma {:induction false} CallOrder(log: Log, mode: Compatibility, i: nat, k: nat, id: ToolCallId)
    requires Timeline(log, mode) && i < |log| && k < |log|
    ensures IsRequest(log[i], id) && IsRequest(log[k], id) ==> i == k
    ensures IsApproval(log[i], id) && IsApproval(log[k], id) ==> i == k
    ensures IsResult(log[i], id) && IsResult(log[k], id) ==> i == k
    ensures IsResult(log[k], id) ==> exists r :: 0 <= r < k && IsRequest(log[r], id)
    ensures IsApproval(log[k], id) ==> exists r :: 0 <= r < k && IsRequest(log[r], id)
    ensures IsApproval(log[i], id) && IsResult(log[k], id) ==> i < k
  {
    if 0 < k { AdmittedAt(log, mode, k); }
    if 0 < i { AdmittedAt(log, mode, i); }
  }

  lemma {:induction false} ApprovalUnique(log: Log, mode: Compatibility, a: nat, b: nat)
    requires Timeline(log, mode) && a < |log| && b < |log|
    requires log[a].body.ApprovalRequested? && IsApprovalNamed(log[b], log[a].body.request.id)
    ensures a == b
  {
    if 0 < a { AdmittedAt(log, mode, a); }
    if 0 < b { AdmittedAt(log, mode, b); }
  }

  lemma {:induction false} ResolutionUnique(log: Log, mode: Compatibility, r: nat, s: nat)
    requires Timeline(log, mode) && r < |log| && s < |log|
    requires log[r].body.ApprovalResolved? && IsResolution(log[s], log[r].body.approvalId)
    ensures r == s
  {
    if 0 < r { AdmittedAt(log, mode, r); }
    if 0 < s { AdmittedAt(log, mode, s); }
  }

  lemma {:induction false} ResolutionOrder(log: Log, mode: Compatibility, a: nat, r: nat)
    requires Timeline(log, mode) && a < |log| && r < |log|
    requires log[a].body.ApprovalRequested? && IsResolution(log[r], log[a].body.request.id)
    ensures a < r
  {
    AdmittedAt(log, mode, r);
    var b :| 0 <= b < r && IsApprovalNamed(log[..r][b], log[a].body.request.id);
    ApprovalUnique(log, mode, a, b);
  }

  /** The grammar's clause for a resolution, read off the timeline. */
  lemma {:induction false} ResolutionAdmitted(log: Log, mode: Compatibility, r: nat)
    requires Timeline(log, mode) && r < |log| && log[r].body.ApprovalResolved?
    ensures exists b :: (0 <= b < r && IsApprovalNamed(log[b], log[r].body.approvalId)
                         && !Answered(log[..r], log[b].body.request.call.id))
  {
    AdmittedAt(log, mode, r);
    assert MayResolve(log[..r], log[r].body.turn, log[r].body.approvalId, mode);
  }

  lemma AnsweredBefore(log: Log, r: nat, k: nat, id: ToolCallId)
    requires k < r <= |log| && IsResult(log[k], id)
    ensures Answered(log[..r], id)
  {
    assert log[..r][k] == log[k];
  }

  lemma {:induction false} UnansweredWhenResolved(log: Log, mode: Compatibility, a: nat, r: nat)
    requires Timeline(log, mode) && a < |log| && r < |log|
    requires log[a].body.ApprovalRequested? && IsResolution(log[r], log[a].body.request.id)
    ensures !Answered(log[..r], log[a].body.request.call.id)
  {
    ResolutionAdmitted(log, mode, r);
    var b :| 0 <= b < r && IsApprovalNamed(log[b], log[r].body.approvalId)
      && !Answered(log[..r], log[b].body.request.call.id);
    ApprovalUnique(log, mode, a, b);
  }

  /** In every mode a decision comes after its approval request and before the result of its call. */
  lemma {:induction false} ResolvedBeforeAnswered(log: Log, mode: Compatibility, a: nat, r: nat, k: nat)
    requires Timeline(log, mode) && a < |log| && r < |log| && k < |log|
    requires log[a].body.ApprovalRequested? && IsResolution(log[r], log[a].body.request.id)
    requires IsResult(log[k], log[a].body.request.call.id)
    ensures a < r < k
  {
    ResolutionOrder(log, mode, a, r);
    UnansweredWhenResolved(log, mode, a, r);
    if k < r {
      AnsweredBefore(log, r, k, log[a].body.request.call.id);
    }
  }

  lemma {:induction false} StrictAnswerDecided(log: Log, a: nat, k: nat, id: ToolCallId)
    requires Timeline(log, Strict) && a < k < |log|
    requires IsApproval(log[a], id) && IsResult(log[k], id)
    ensures Decided(log[..k], id)
  {
    AdmittedAt(log, Strict, k);
    assert IsApproval(log[..k][a], id);
    assert ResultAllowed(log[..k], log[k].body.result, Strict);
  }

  /** In strict timelines the decision on an approval comes between its request and the result. */
  lemma {:induction false} DecisionOrder(log: Log, a: nat, k: nat)
    requires Timeline(log, Strict) && a < |log| && k < |log|
    requires log[a].body.ApprovalRequested? && IsResult(log[k], log[a].body.request.call.id)
    ensures exists d :: a < d < k && IsResolution(log[d], log[a].body.request.id)
  {
    var id := log[a].body.request.call.id;
    CallOrder(log, Strict, a, k, id);
    StrictAnswerDecided(log, a, k, id);
    var b, d :| 0 <= b < k && 0 <= d < k && IsApproval(log[..k][b], id)
      && IsResolution(log[..k][d], log[..k][b].body.request.id);
    CallOrder(log, Strict, a, b, id);
    ResolutionOrder(log, Strict, a, d);
  }

  // ---- one more event -----------------------------------------------------------

  lemma SnocFacts(log: Log, e: AgentEvent)
    ensures HasResolution(log + [e]) <==> HasResolution(log) || e.body.ApprovalResolved?
    ensures Ended(log + [e]) <==> Ended(log) || e.body.RunFinished?
    ensures forall t :: TurnOpened(log + [e], t) <==> TurnOpened(log, t) || (e.body.TurnStarted? && e.body.turn == t)
    ensures ActiveTurn(log + [e]) == if e.body.TurnStarted? then Some(e.body.turn) else ActiveTurn(log)
  {
    var longer := log + [e];
    assert longer[..|log|] == log && longer[|log|] == e;
    assert forall i :: 0 <= i < |log| ==> longer[i] == log[i];
  }

  /** How one more event changes what a timeline says about calls and approvals. */
  lemma SnocCalls(log: Log, e: AgentEvent)
    ensures forall id :: Requested(log + [e], id) <==> Requested(log, id) || IsRequest(e, id)
    ensures forall id :: Answered(log + [e], id) <==> Answered(log, id) || IsResult(e, id)
    ensures forall id :: Asked(log + [e], id) <==> Asked(log, id) || IsApproval(e, id)
  {
    var longer := log + [e];
    assert longer[|log|] == e;
    assert forall i :: 0 <= i < |log| ==> longer[i] == log[i];
  }

  lemma SnocApprovals(log: Log, e: AgentEvent)
    ensures forall a :: ApprovalNamed(log + [e], a) <==> ApprovalNamed(log, a) || IsApprovalNamed(e, a)
    ensures forall a :: Resolved(log + [e], a) <==> Resolved(log, a) || IsResolution(e, a)
  {
    var longer := log + [e];
    assert longer[|log|] == e;
    assert forall i :: 0 <= i < |log| ==> longer[i] == log[i];
  }

  /** A call is decided at most once. */
  lemma {:induction false} DecidedOnce(log: Log, mode: Compatibility, id: ToolCallId, d: ApprovalDecision, d': ApprovalDecision)
    requires Timeline(log, mode) && DecidedAs(log, id, d) && DecidedAs(log, id, d')
    ensures d == d'
  {
    var a, r :| 0 <= a < |log| && 0 <= r < |log| && IsApproval(log[a], id)
      && IsResolution(log[r], log[a].body.request.id) && log[r].body.decision == d;
    var a', r' :| 0 <= a' < |log| && 0 <= r' < |log| && IsApproval(log[a'], id)
      && IsResolution(log[r'], log[a'].body.request.id) && log[r'].body.decision == d';
    CallOrder(log, mode, a, a', id);
    ResolutionUnique(log, mode, r, r');
  }
}

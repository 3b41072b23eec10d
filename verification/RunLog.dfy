/**
 The shapes a timeline goes through while the Agent Runtime drives one run, and
 why the grammar admits each event the runtime emits next.
 */
module RunLog {
  import opened Prelude
  import opened Events
  import opened Lifecycle
  import opened Ids
  import opened CrashSafety
  import opened LogBytes
  import EventStore

  /** How many turns, calls and approvals the run has numbered. */
  datatype Counters = Counters(turns: nat, calls: nat, approvals: nat)

  function Emitted(run: RunId, sequence: nat, body: EventBody): AgentEvent {
    AgentEvent(run, Some(sequence), map[], body)
  }

  /** An unfinished strict timeline in which no later number was used. */
  ghost predicate Ongoing(log: Log, run: RunId, n: Counters) {
    && log != [] && Timeline(log, Strict) && !Ended(log) && log[0].runId == run
    && (forall k :: k > n.turns ==> !TurnOpened(log, TurnIdAt(k)))
    && (forall k :: k > n.calls ==> !Requested(log, ToolIdAt(run, k)))
    && (forall k :: k > n.approvals ==> !ApprovalNamed(log, ApprovalIdAt(run, k)))
  }

  ghost predicate AllResolved(log: Log) {
    forall a :: 0 <= a < |log| && log[a].body.ApprovalRequested? ==> Resolved(log, log[a].body.request.id)
  }

  /** Between two tool calls everything is settled. */
  ghost predicate Between(log: Log, run: RunId, n: Counters) {
    Ongoing(log, run, n) && AllAnswered(log) && AllResolved(log)
  }

  /** `call` is the one call without a result. */
  ghost predicate InCall(log: Log, run: RunId, n: Counters, turn: TurnId, call: ToolCall) {
    && Ongoing(log, run, n)
    && ActiveTurn(log) == Some(turn)
    && (exists i :: 0 <= i < |log| && log[i].body.ToolCallRequested? && log[i].body.call == call && log[i].body.turn == turn)
    && !Answered(log, call.id)
    && (forall i :: 0 <= i < |log| && log[i].body.ToolCallRequested? ==>
         log[i].body.call.id == call.id || Answered(log, log[i].body.call.id))
  }

  /** The counters after one more event of a run that numbers consecutively. */
  ghost predicate Counts(run: RunId, n: Counters, body: EventBody, n': Counters) {
    match body
    case TurnStarted(t) => t == TurnIdAt(n.turns + 1) && n' == n.(turns := n.turns + 1)
    case ToolCallRequested(_, _, call) => call.id == ToolIdAt(run, n.calls + 1) && n' == n.(calls := n.calls + 1)
    case ApprovalRequested(_, request) => request.id == ApprovalIdAt(run, n.approvals + 1) && n' == n.(approvals := n.approvals + 1)
    case RunFinished(_) => false
    case _ => n' == n
  }

  lemma TurnsUnused(log: Log, e: AgentEvent, run: RunId, n: Counters, n': Counters, k: nat)
    requires Counts(run, n, e.body, n') && k > n'.turns && !TurnOpened(log, TurnIdAt(k))
    ensures !TurnOpened(log + [e], TurnIdAt(k))
  {
    SnocFacts(log, e);
    IdsInjective(run, n.turns + 1, k);
  }

  lemma CallsUnused(log: Log, e: AgentEvent, run: RunId, n: Counters, n': Counters, k: nat)
    requires Counts(run, n, e.body, n') && k > n'.calls && !Requested(log, ToolIdAt(run, k))
    ensures !Requested(log + [e], ToolIdAt(run, k))
  {
    SnocCalls(log, e);
    IdsInjective(run, n.calls + 1, k);
  }

  lemma ApprovalsUnused(log: Log, e: AgentEvent, run: RunId, n: Counters, n': Counters, k: nat)
    requires Counts(run, n, e.body, n') && k > n'.approvals && !ApprovalNamed(log, ApprovalIdAt(run, k))
    ensures !ApprovalNamed(log + [e], ApprovalIdAt(run, k))
  {
    SnocApprovals(log, e);
    IdsInjective(run, n.approvals + 1, k);
  }

  lemma CountersGrow(run: RunId, n: Counters, body: EventBody, n': Counters)
    requires Counts(run, n, body, n')
    ensures n.turns <= n'.turns && n.calls <= n'.calls && n.approvals <= n'.approvals
  {
  }

  lemma StillRunning(log: Log, e: AgentEvent, run: RunId)
    requires log != [] && Timeline(log, Strict) && !Ended(log) && log[0].runId == run
    requires Admits(log, e, Strict) && !e.body.RunFinished?
    ensures Timeline(log + [e], Strict) && !Ended(log + [e]) && (log + [e])[0].runId == run
  {
    Extend(log, e, Strict);
    SnocFacts(log, e);
  }

  lemma OngoingSnoc(log: Log, e: AgentEvent, run: RunId, n: Counters, n': Counters)
    requires Ongoing(log, run, n) && Admits(log, e, Strict) && Counts(run, n, e.body, n')
    ensures Ongoing(log + [e], run, n')
  {
    StillRunning(log, e, run);
    CountersGrow(run, n, e.body, n');
    forall k | k > n'.turns
      ensures !TurnOpened(log + [e], TurnIdAt(k))
    {
      TurnsUnused(log, e, run, n, n', k);
    }
    forall k | k > n'.calls
      ensures !Requested(log + [e], ToolIdAt(run, k))
    {
      CallsUnused(log, e, run, n, n', k);
    }
    forall k | k > n'.approvals
      ensures !ApprovalNamed(log + [e], ApprovalIdAt(run, k))
    {
      ApprovalsUnused(log, e, run, n, n', k);
    }
  }

  lemma StartOngoing(run: RunId, first: AgentEvent)
    requires first.body.RunStarted? && first.runId == run
    ensures Between([first], run, Counters(0, 0, 0))
  {
  }

  /** A number that was not used has neither been asked about nor answered. */
  lemma UnusedCall(log: Log, id: ToolCallId)
    requires Timeline(log, Strict) && !Requested(log, id)
    ensures !Asked(log, id) && !Answered(log, id)
  {
    if i :| 0 <= i < |log| && IsApproval(log[i], id) { CallOrder(log, Strict, i, i, id); }
    if i :| 0 <= i < |log| && IsResult(log[i], id) { CallOrder(log, Strict, i, i, id); }
  }

  lemma UnusedApproval(log: Log, a: string)
    requires Timeline(log, Strict) && !ApprovalNamed(log, a)
    ensures !Resolved(log, a)
  {
    forall r | 0 <= r < |log|
      ensures !IsResolution(log[r], a)
    {
      if 0 < r { AdmittedAt(log, Strict, r); }
    }
  }

  lemma SettledSnoc(log: Log, e: AgentEvent)
    requires AllAnswered(log) && AllResolved(log) && !e.body.ToolCallRequested? && !e.body.ApprovalRequested?
    ensures AllAnswered(log + [e]) && AllResolved(log + [e])
  {
    SnocCalls(log, e);
    SnocApprovals(log, e);
  }

  /** Turn starts, model output and errors between calls. */
  lemma BetweenSnoc(log: Log, e: AgentEvent, run: RunId, n: Counters, n': Counters)
    requires Between(log, run, n) && e.runId == run && Counts(run, n, e.body, n')
    requires e.body.TurnStarted? || e.body.ModelOutput? || e.body.RunError?
    requires e.InTurn().Some? ==> ActiveTurn(log) == e.InTurn()
    ensures Admits(log, e, Strict) && Between(log + [e], run, n')
    ensures ActiveTurn(log + [e]) == if e.body.TurnStarted? then Some(e.body.turn) else ActiveTurn(log)
  {
    OngoingSnoc(log, e, run, n, n');
    SettledSnoc(log, e);
    SnocFacts(log, e);
  }

  lemma RequestSnoc(log: Log, e: AgentEvent, run: RunId, n: Counters, turn: TurnId)
    requires Between(log, run, n) && e.runId == run && ActiveTurn(log) == Some(turn)
    requires e.body.ToolCallRequested? && e.body.turn == turn && e.body.call.id == ToolIdAt(run, n.calls + 1)
    ensures Admits(log, e, Strict)
    ensures InCall(log + [e], run, n.(calls := n.calls + 1), turn, e.body.call)
    ensures AllResolved(log + [e]) && !Asked(log + [e], e.body.call.id)
  {
    hide Timeline, TurnOpened, ApprovalNamed;
    var id := e.body.call.id;
    UnusedCall(log, id);
    OngoingSnoc(log, e, run, n, n.(calls := n.calls + 1));
    SnocCalls(log, e);
    SnocApprovals(log, e);
    SnocFacts(log, e);
    assert (log + [e])[|log|] == e;
  }

  lemma InCallSnoc(log: Log, e: AgentEvent, run: RunId, n: Counters, n': Counters, turn: TurnId, call: ToolCall)
    requires InCall(log, run, n, turn, call) && Admits(log, e, Strict) && Counts(run, n, e.body, n')
    requires e.body.ApprovalRequested? || e.body.ApprovalResolved?
    ensures InCall(log + [e], run, n', turn, call)
  {
    OngoingSnoc(log, e, run, n, n');
    SnocCalls(log, e);
    SnocFacts(log, e);
    assert forall i :: 0 <= i < |log| ==> (log + [e])[i] == log[i];
  }

  lemma AskSnoc(log: Log, e: AgentEvent, run: RunId, n: Counters, turn: TurnId, call: ToolCall)
    requires InCall(log, run, n, turn, call) && AllResolved(log) && !Asked(log, call.id) && e.runId == run
    requires e.body.ApprovalRequested? && e.body.turn == turn && e.body.request.call == call
    requires e.body.request.id == ApprovalIdAt(run, n.approvals + 1)
    ensures Admits(log, e, Strict)
    ensures InCall(log + [e], run, n.(approvals := n.approvals + 1), turn, call)
    ensures AsksOnly(log + [e], turn, call, e.body.request.id)
  {
    InCallSnoc(log, e, run, n, n.(approvals := n.approvals + 1), turn, call);
    AsksOnlySnoc(log, e);
  }

  lemma AsksOnlySnoc(log: Log, e: AgentEvent)
    requires log != [] && Timeline(log, Strict) && AllResolved(log)
    requires e.body.ApprovalRequested? && !ApprovalNamed(log, e.body.request.id)
    ensures AsksOnly(log + [e], e.body.turn, e.body.request.call, e.body.request.id)
  {
    UnusedApproval(log, e.body.request.id);
    SnocApprovals(log, e);
    assert (log + [e])[|log|] == e;
  }

  /** Approval `approvalId` for `call` is the one undecided approval. */
  ghost predicate AsksOnly(log: Log, turn: TurnId, call: ToolCall, approvalId: string) {
    && (exists a :: 0 <= a < |log| && IsApprovalNamed(log[a], approvalId)
         && log[a].body.turn == turn && log[a].body.request.call == call)
    && !Resolved(log, approvalId)
    && (forall a :: 0 <= a < |log| && log[a].body.ApprovalRequested? ==>
         log[a].body.request.id == approvalId || Resolved(log, log[a].body.request.id))
  }

  lemma ResolveSnoc(log: Log, e: AgentEvent, run: RunId, n: Counters, turn: TurnId, call: ToolCall)
    requires InCall(log, run, n, turn, call) && e.runId == run
    requires e.body.ApprovalResolved? && e.body.turn == turn && AsksOnly(log, turn, call, e.body.approvalId)
    ensures Admits(log, e, Strict)
    ensures InCall(log + [e], run, n, turn, call) && AllResolved(log + [e])
    ensures DecidedAs(log + [e], call.id, e.body.decision)
  {
    hide Timeline, TurnOpened, ApprovalNamed;
    InCallSnoc(log, e, run, n, n, turn, call);
    SnocApprovals(log, e);
    var longer := log + [e];
    assert longer[|log|] == e;
    var a :| 0 <= a < |log| && IsApprovalNamed(log[a], e.body.approvalId) && log[a].body.request.call == call;
    assert longer[a] == log[a];
    assert IsApproval(longer[a], call.id) && IsResolution(longer[|log|], longer[a].body.request.id);
  }

  /** What the runtime knows about a call's decision when it records the result. */
  ghost predicate DecisionKnown(log: Log, id: ToolCallId, decision: Option<ApprovalDecision>) {
    match decision
    case None => !Asked(log, id)
    case Some(d) => DecidedAs(log, id, d)
  }

  lemma AnswerAllowed(log: Log, run: RunId, n: Counters, turn: TurnId, call: ToolCall, output: ToolOutput, decision: Option<ApprovalDecision>)
    requires InCall(log, run, n, turn, call) && DecisionKnown(log, call.id, decision)
    requires match decision
             case Some(Deny(reason)) => CanonicalDenial(output, reason)
             case _ => !ClaimsDenial(output)
    ensures MayAnswer(log, turn, ToolOutcome(call.id, output), Strict)
  {
    var id := call.id;
    var i :| 0 <= i < |log| && log[i].body.ToolCallRequested? && log[i].body.call == call && log[i].body.turn == turn;
    assert IsRequest(log[i], id);
    if decision.Some? {
      var a, r :| 0 <= a < |log| && 0 <= r < |log| && IsApproval(log[a], id)
        && IsResolution(log[r], log[a].body.request.id) && log[r].body.decision == decision.value;
      assert Decided(log, id);
      forall d | DecidedAs(log, id, d)
        ensures d == decision.value
      {
        DecidedOnce(log, Strict, id, d, decision.value);
      }
    }
  }

  lemma AnswerSnoc(log: Log, e: AgentEvent, run: RunId, n: Counters, turn: TurnId, call: ToolCall)
    requires InCall(log, run, n, turn, call) && AllResolved(log) && e.runId == run
    requires e.body.ToolResult? && e.body.turn == turn && e.body.result.callId == call.id
    requires MayAnswer(log, turn, e.body.result, Strict)
    ensures Admits(log, e, Strict)
    ensures Between(log + [e], run, n) && ActiveTurn(log + [e]) == Some(turn)
  {
    hide Timeline, TurnOpened, ApprovalNamed;
    OngoingSnoc(log, e, run, n, n);
    SnocCalls(log, e);
    SnocApprovals(log, e);
    SnocFacts(log, e);
    var longer := log + [e];
    assert forall i :: 0 <= i < |log| ==> longer[i] == log[i];
  }

  // ---- durability bookkeeping ----------------------------------------------------------

  /** One executed call is as safe after one more record as before. */
  lemma SafeCallSnoc(log: Log, durable: nat, e: AgentEvent, durable': nat, x: Execution)
    requires durable <= |log| && (durable' == durable || durable' == |log| + 1)
    requires log != [] ==> Admits(log, e, Strict)
    requires Authorized(log, durable, x)
    requires Answered(log[..durable], x.call.id) || (Sole(log, durable, x.call.id) && e.body.ToolResult?)
    ensures Authorized(log + [e], durable', x)
    ensures Answered(log[..durable], x.call.id) ==> Answered((log + [e])[..durable'], x.call.id)
    ensures Answered((log + [e])[..durable'], x.call.id) || Sole(log + [e], durable', x.call.id)
  {
    hide Admits, Authorized, Sole;
    AuthorizedSnoc(log, durable, e, durable', x);
    if Answered(log[..durable], x.call.id) {
      assert (log + [e])[..durable] == log[..durable];
      AnsweredGrows(log + [e], durable, durable', x.call.id);
    } else {
      SoleSnoc(log, durable, e, durable', x.call.id);
    }
  }

  /** Appending at a settled point, or appending the awaited result, keeps every execution safe. */
  lemma SafeSnoc(log: Log, durable: nat, executed: seq<Execution>, e: AgentEvent, durable': nat)
    requires durable <= |log| && (durable' == durable || durable' == |log| + 1)
    requires log != [] ==> Timeline(log, Strict) && Admits(log, e, Strict)
    requires Settled(log, durable, executed) || (SafeLog(log, durable, executed) && e.body.ToolResult?)
    ensures SafeLog(log + [e], durable', executed)
    ensures Settled(log, durable, executed) ==> Settled(log + [e], durable', executed)
  {
    hide Timeline, Admits, Authorized, Sole, Answered;
    forall x | x in executed
      ensures Authorized(log + [e], durable', x)
      ensures Answered(log[..durable], x.call.id) ==> Answered((log + [e])[..durable'], x.call.id)
      ensures Answered((log + [e])[..durable'], x.call.id) || Sole(log + [e], durable', x.call.id)
    {
      SafeCallSnoc(log, durable, e, durable', x);
    }
  }

  lemma NeverAskedAgain(log: Log, durable: nat, e: AgentEvent, id: ToolCallId)
    requires durable <= |log| && log != [] && Admits(log, e, Strict)
    requires Answered(log[..durable], id) || e.body.ToolResult?
    ensures !IsApproval(e, id)
  {
    if Answered(log[..durable], id) {
      assert log[..|log|] == log;
      AnsweredGrows(log, durable, |log|, id);
    }
  }

  lemma AuthorizedSnoc(log: Log, durable: nat, e: AgentEvent, durable': nat, x: Execution)
    requires durable <= |log| && (durable' == durable || durable' == |log| + 1)
    requires log != [] ==> Admits(log, e, Strict)
    requires Authorized(log, durable, x)
    requires Answered(log[..durable], x.call.id) || e.body.ToolResult?
    ensures Authorized(log + [e], durable', x)
  {
    var longer := log + [e];
    assert forall i :: 0 <= i < |log| ==> longer[i] == log[i];
    var i :| 0 <= i < durable && log[i].body.ToolCallRequested? && log[i].body.call == x.call;
    assert longer[i].body.call == x.call;
    if x.needsApproval {
      var a :| 0 <= a < durable && IsApproval(log[a], x.call.id);
      assert IsApproval(longer[a], x.call.id);
    }
    NeverAskedAgain(log, durable, e, x.call.id);
    forall a | 0 <= a < |longer| && IsApproval(longer[a], x.call.id)
      ensures DurablyApproved(longer, durable', longer[a].body.request.id)
    {
      assert IsApproval(log[a], x.call.id);
      var r :| 0 <= r < durable && IsResolution(log[r], log[a].body.request.id) && log[r].body.decision == Approve;
      assert IsResolution(longer[r], longer[a].body.request.id);
    }
  }

  lemma SoleSnoc(log: Log, durable: nat, e: AgentEvent, durable': nat, id: ToolCallId)
    requires durable <= |log| && (durable' == durable || durable' == |log| + 1)
    requires Sole(log, durable, id) && e.body.ToolResult?
    ensures Sole(log + [e], durable', id)
  {
    var longer := log + [e];
    assert log[..durable] == longer[..durable];
    SnocFacts(log, e);
    forall i | 0 <= i < |longer| && longer[i].body.ToolCallRequested?
      ensures longer[i].body.call.id == id || Answered(longer[..durable'], longer[i].body.call.id)
    {
      assert longer[i] == log[i];
      if log[i].body.call.id != id {
        AnsweredGrows(longer, durable, durable', log[i].body.call.id);
      }
    }
    forall a | 0 <= a < |longer| && longer[a].body.ApprovalRequested?
      ensures Resolved(longer[..durable'], longer[a].body.request.id)
    {
      assert longer[a] == log[a];
      ResolvedGrows(longer, durable, durable', log[a].body.request.id);
    }
  }

  /** The one open call may be entered when its decision is known, and is an approval if the plan needs one. */
  lemma OpenCallAuthorized(log: Log, run: RunId, n: Counters, turn: TurnId, x: Execution, decision: Option<ApprovalDecision>)
    requires InCall(log, run, n, turn, x.call) && AllResolved(log) && DecisionKnown(log, x.call.id, decision)
    requires decision == if x.needsApproval then Some(Approve) else None
    ensures Authorized(log, |log|, x)
  {
    forall a | 0 <= a < |log| && IsApproval(log[a], x.call.id)
      ensures DurablyApproved(log, |log|, log[a].body.request.id)
    {
      var b, r :| 0 <= b < |log| && 0 <= r < |log| && IsApproval(log[b], x.call.id)
        && IsResolution(log[r], log[b].body.request.id) && log[r].body.decision == Approve;
      CallOrder(log, Strict, a, b, x.call.id);
    }
  }

  lemma OpenCallSole(log: Log, run: RunId, n: Counters, turn: TurnId, call: ToolCall)
    requires InCall(log, run, n, turn, call) && AllResolved(log)
    ensures Sole(log, |log|, call.id)
  {
    assert log[..|log|] == log;
  }

  lemma SettledIsSafe(log: Log, executed: seq<Execution>, id: ToolCallId)
    requires Settled(log, |log|, executed)
    ensures SafeLog(log, |log|, executed)
    ensures !Answered(log, id) ==> forall x :: x in executed ==> x.call.id != id
  {
    assert log[..|log|] == log;
  }

  /** Entering the handler of the one open call, with everything durable, is safe, and never a second time. */
  lemma ExecuteSafe(log: Log, executed: seq<Execution>, run: RunId, n: Counters, turn: TurnId, x: Execution, decision: Option<ApprovalDecision>)
    requires Settled(log, |log|, executed) && OnceEach(executed) && InCall(log, run, n, turn, x.call) && AllResolved(log)
    requires DecisionKnown(log, x.call.id, decision)
    requires decision == if x.needsApproval then Some(Approve) else None
    ensures SafeLog(log, |log|, executed) && SafeLog(log, |log|, executed + [x]) && OnceEach(executed + [x])
  {
    OpenCallAuthorized(log, run, n, turn, x, decision);
    OpenCallSole(log, run, n, turn, x.call);
    SettledIsSafe(log, executed, x.call.id);
    OneMoreExecution(log, executed, x);
  }

  lemma OneMoreExecution(log: Log, executed: seq<Execution>, x: Execution)
    requires SafeLog(log, |log|, executed) && OnceEach(executed)
    requires Authorized(log, |log|, x) && Sole(log, |log|, x.call.id)
    requires forall y :: y in executed ==> y.call.id != x.call.id
    ensures SafeLog(log, |log|, executed + [x]) && OnceEach(executed + [x])
  {
    hide Authorized, Sole, Answered;
  }

  lemma NextByExecution(m: Moment, executed: seq<Execution>, x: Execution)
    requires executed == m.executed || executed == m.executed + [x]
    ensures NextMoment(m, m.(executed := executed))
  {
    if executed != m.executed { assert m.(executed := executed) == m.(executed := m.executed + [x]); }
  }

  /** Entering the handler, or not getting so far, gives a run one more instant. */
  lemma ExecutionInstant(c: Codec, past: seq<Moment>, executed: seq<Execution>, x: Execution)
    requires SafeRun(c, past) && SafeLog(Latest(past).log, Latest(past).durable, executed) && OnceEach(executed)
    requires executed == Latest(past).executed || executed == Latest(past).executed + [x]
    ensures SafeRun(c, past + [Latest(past).(executed := executed)])
  {
    hide SafeLog, Timeline, OnceEach, NextMoment, Holds, FrameAll;
    assert SafeMoment(c, Latest(past));
    NextByExecution(Latest(past), executed, x);
    RunGrows(c, past, Latest(past).(executed := executed));
  }

  /** Once the result is durable, nothing executed is waiting any more. */
  lemma SettledAfterResult(log: Log, executed: seq<Execution>, e: AgentEvent, call: ToolCall)
    requires log != [] && Timeline(log, Strict) && Admits(log, e, Strict)
    requires SafeLog(log, |log|, executed) && IsResult(e, call.id)
    requires forall x :: x in executed ==> x.call.id == call.id || Answered(log, x.call.id)
    ensures Settled(log + [e], |log| + 1, executed)
  {
    var longer := log + [e];
    assert longer[..|log| + 1] == longer;
    SafeSnoc(log, |log|, executed, e, |log| + 1);
    SnocCalls(log, e);
  }

  /** May the run append `e` now? Executed calls must be settled unless `e` is the result they wait for. */
  ghost predicate Emittable(log: Log, durable: nat, executed: seq<Execution>, e: AgentEvent) {
    && (if log == [] then e.body.RunStarted? else Timeline(log, Strict) && Admits(log, e, Strict))
    && (|| Settled(log, durable, executed)
        || (SafeLog(log, durable, executed) && e.body.ToolResult?))
  }

  /** Whatever one append does to the file, the run is left at a safe moment. */
  lemma EmitSafe(c: Codec, m: Moment, e: AgentEvent, bytes: seq<byte>, durableBytes: nat, forced: bool, ok: bool) returns (after: Moment)
    requires c.Lawful() && Holds(c, m.bytes, m.log, [])
    requires m.durable <= |m.log| && |FrameAll(c, m.log[..m.durable])| <= m.durableBytes <= durableBytes <= |bytes|
    requires Emittable(m.log, m.durable, m.executed, e)
    requires EventStore.AppendEffect(c, m.bytes, bytes, e, ok) && OnceEach(m.executed)
    requires ok && forced ==> durableBytes == |bytes|
    ensures after.bytes == bytes && after.durableBytes == durableBytes && after.executed == m.executed
    ensures SafeMoment(c, after)
    ensures after.log == m.log || after.log == m.log + [e]
    ensures m.durable <= after.durable
    ensures ok ==>
              && after.log == m.log + [e]
              && Holds(c, bytes, after.log, [])
              && Timeline(after.log, Strict)
              && after.durable == (if forced then |after.log| else m.durable)
              && |FrameAll(c, after.log[..after.durable])| <= durableBytes
    ensures ok && Settled(m.log, m.durable, m.executed) ==> Settled(after.log, after.durable, after.executed)
  {
    hide Timeline, Admits, FrameAll;
    EventStore.AppendPreserves(c, m.bytes, bytes, m.log, [], e, ok);
    var tail :| Holds(c, bytes, m.log, tail) || Holds(c, bytes, m.log + [e], tail);
    if ok {
      var durable := if forced then |m.log| + 1 else m.durable;
      after := GrownMoment(c, m, e, [], bytes, durableBytes, durable);
    } else if Holds(c, bytes, m.log + [e], tail) {
      after := GrownMoment(c, m, e, tail, bytes, durableBytes, m.durable);
    } else {
      after := Moment(m.log, m.durable, bytes, durableBytes, m.executed);
    }
  }

  /** The same instant before any of the written bytes is forced to the disk. */
  lemma UnforcedSafe(c: Codec, m: Moment, e: AgentEvent, after: Moment)
    requires SafeMoment(c, m) && SafeMoment(c, after) && Emittable(m.log, m.durable, m.executed, e)
    requires after.log == m.log || after.log == m.log + [e]
    requires after.executed == m.executed && m.bytes <= after.bytes
    ensures SafeMoment(c, after.(durable := m.durable, durableBytes := m.durableBytes))
  {
    hide Timeline, Admits, SafeLog, Settled, Holds, FrameAll;
    if after.log != m.log {
      SafeSnoc(m.log, m.durable, m.executed, e, m.durable);
    }
    UnforcedLinked(c, m, e, after);
  }

  lemma UnforcedLinked(c: Codec, m: Moment, e: AgentEvent, after: Moment)
    requires Linked(c, m) && Linked(c, after) && m.bytes <= after.bytes
    requires after.log == m.log || after.log == m.log + [e]
    ensures Linked(c, after.(durable := m.durable, durableBytes := m.durableBytes))
  {
    hide Holds, FrameAll;
    DurablePart(m.log, e, m.durable);
  }

  /** One append gives a run two more instants: the bytes written, and what was forced of them. */
  lemma AppendInstants(c: Codec, past: seq<Moment>, e: AgentEvent, bytes: seq<byte>, durableBytes: nat, forced: bool, ok: bool)
    returns (written: Moment, after: Moment)
    requires c.Lawful() && SafeRun(c, past) && Holds(c, Latest(past).bytes, Latest(past).log, [])
    requires Latest(past).durableBytes <= durableBytes <= |bytes|
    requires Emittable(Latest(past).log, Latest(past).durable, Latest(past).executed, e)
    requires EventStore.AppendEffect(c, Latest(past).bytes, bytes, e, ok)
    requires ok && forced ==> durableBytes == |bytes|
    ensures after.bytes == bytes && after.durableBytes == durableBytes && after.executed == Latest(past).executed
    ensures written == after.(durable := Latest(past).durable, durableBytes := Latest(past).durableBytes)
    ensures SafeRun(c, past + [written] + [after])
    ensures after.log == Latest(past).log || after.log == Latest(past).log + [e]
    ensures ok ==>
              && after.log == Latest(past).log + [e]
              && Holds(c, bytes, after.log, [])
              && Timeline(after.log, Strict)
              && after.durable == (if forced then |after.log| else Latest(past).durable)
              && |FrameAll(c, after.log[..after.durable])| <= durableBytes
    ensures ok && Settled(Latest(past).log, Latest(past).durable, Latest(past).executed) ==> Settled(after.log, after.durable, after.executed)
  {
    hide Timeline, Admits, SafeLog, Settled, Holds, FrameAll, NextMoment, Emittable;
    var m := Latest(past);
    assert SafeMoment(c, m);
    after := EmitSafe(c, m, e, bytes, durableBytes, forced, ok);
    UnforcedSafe(c, m, e, after);
    written := after.(durable := m.durable, durableBytes := m.durableBytes);
    RunGrows(c, past, written);
    RunGrows(c, past + [written], after);
  }

  lemma FirstRecord(e: AgentEvent)
    requires e.body.RunStarted?
    ensures Timeline([] + [e], Strict)
  {
  }

  /** The moment after the record is in the file. */
  lemma GrownMoment(c: Codec, m: Moment, e: AgentEvent, tail: seq<byte>, bytes: seq<byte>, durableBytes: nat, durable: nat) returns (after: Moment)
    requires m.durable <= |m.log| && |FrameAll(c, m.log[..m.durable])| <= m.durableBytes <= durableBytes <= |bytes|
    requires Emittable(m.log, m.durable, m.executed, e) && Holds(c, bytes, m.log + [e], tail)
    requires (durable == m.durable || (durable == |m.log| + 1 && durableBytes == |bytes|)) && OnceEach(m.executed)
    ensures after == Moment(m.log + [e], durable, bytes, durableBytes, m.executed)
    ensures SafeMoment(c, after) && Timeline(after.log, Strict)
    ensures Settled(m.log, m.durable, m.executed) ==> Settled(after.log, durable, after.executed)
  {
    hide Timeline, Admits, SafeLog, Settled, FrameAll;
    var longer := m.log + [e];
    SafeSnoc(m.log, m.durable, m.executed, e, durable);
    if m.log != [] { Extend(m.log, e, Strict); } else { FirstRecord(e); }
    DurablePart(m.log, e, m.durable);
    after := Moment(longer, durable, bytes, durableBytes, m.executed);
  }

  lemma DurablePart(log: Log, e: AgentEvent, durable: nat)
    requires durable <= |log|
    ensures (log + [e])[..durable] == log[..durable] && (log + [e])[..|log| + 1] == log + [e]
  {
  }
}

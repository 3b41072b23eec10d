/**
 What a crash at any moment of a run leaves behind, and what recovery makes of it
 (the recovery contract of crates/event-store/src/jsonl.rs and replay.rs).
 */
module CrashSafety {
  import opened Prelude
  import opened Events
  import opened Lifecycle
  import opened LogBytes
  import EventStore

  /** The process and the file at one instant of a run. */
  datatype Moment = Moment(
    log: Log,                 // records committed so far
    durable: nat,             // how many of them a crash cannot take
    bytes: seq<byte>,         // the file
    durableBytes: nat,        // how much of it a crash cannot take
    executed: seq<Execution>) // the handlers entered

  ghost predicate DurablyRequested(log: Log, durable: nat, call: ToolCall)
    requires durable <= |log|
  {
    exists i :: 0 <= i < durable && log[i].body.ToolCallRequested? && log[i].body.call == call
  }

  /** Approval `approvalId` was granted by a record a crash cannot take. */
  ghost predicate DurablyApproved(log: Log, durable: nat, approvalId: string)
    requires durable <= |log|
  {
    exists r :: 0 <= r < durable && IsResolution(log[r], approvalId) && log[r].body.decision == Approve
  }

  /** Everything but call `id` is settled by durable records. */
  ghost predicate Sole(log: Log, durable: nat, id: ToolCallId)
    requires durable <= |log|
  {
    && !Ended(log)
    && (forall i :: 0 <= i < |log| && log[i].body.ToolCallRequested? ==>
         log[i].body.call.id == id || Answered(log[..durable], log[i].body.call.id))
    && (forall a :: 0 <= a < |log| && log[a].body.ApprovalRequested? ==>
         Resolved(log[..durable], log[a].body.request.id))
  }

  /** An approval for call `id` was asked for by a record a crash cannot take. */
  ghost predicate DurablyAsked(log: Log, durable: nat, id: ToolCallId)
    requires durable <= |log|
  {
    exists a :: 0 <= a < durable && IsApproval(log[a], id)
  }

  /** Durably requested; durably asked about if the plan needed it; and granted by every decision asked for. */
  ghost predicate Authorized(log: Log, durable: nat, x: Execution)
    requires durable <= |log|
  {
    && DurablyRequested(log, durable, x.call)
    && (x.needsApproval ==> DurablyAsked(log, durable, x.call.id))
    && (forall a :: 0 <= a < |log| && IsApproval(log[a], x.call.id) ==>
         DurablyApproved(log, durable, log[a].body.request.id))
  }

  /** Every executed call was durably requested and approved, and its result is durable unless it is the one in flight. */
  ghost predicate SafeLog(log: Log, durable: nat, executed: seq<Execution>) {
    && durable <= |log|
    && forall x :: x in executed ==>
         && Authorized(log, durable, x)
         && (Answered(log[..durable], x.call.id) || Sole(log, durable, x.call.id))
  }

  /** No executed call still waits for a durable result. */
  ghost predicate Settled(log: Log, durable: nat, executed: seq<Execution>) {
    && durable <= |log|
    && forall x :: x in executed ==> Authorized(log, durable, x) && Answered(log[..durable], x.call.id)
  }

  /** No handler was entered twice for one call. */
  ghost predicate OnceEach(executed: seq<Execution>) {
    forall i, j :: 0 <= i < j < |executed| ==> executed[i].call.id != executed[j].call.id
  }

  ghost predicate Linked(c: Codec, m: Moment) {
    && m.durable <= |m.log|
    && (exists tail :: Holds(c, m.bytes, m.log, tail))
    && |FrameAll(c, m.log[..m.durable])| <= m.durableBytes <= |m.bytes|
  }

  ghost predicate SafeMoment(c: Codec, m: Moment) {
    && (m.log != [] ==> Timeline(m.log, Strict))
    && SafeLog(m.log, m.durable, m.executed) && OnceEach(m.executed)
    && Linked(c, m)
  }

  // ---- the instants of a run --------------------------------------------------------------

  const START := Moment([], 0, [], 0, [])

  /** One record more, or one handler entered and nothing else; nothing recorded or written is taken back. */
  ghost predicate NextMoment(m: Moment, next: Moment) {
    || (&& m.log <= next.log && |next.log| <= |m.log| + 1 && next.executed == m.executed
        && m.bytes <= next.bytes && m.durable <= next.durable && m.durableBytes <= next.durableBytes)
    || (exists x :: next == m.(executed := m.executed + [x]))
  }

  /** Instants from an empty log on, each one step after the last. */
  ghost predicate Consecutive(moments: seq<Moment>) {
    && moments != [] && moments[0] == START
    && forall i {:trigger moments[i]} :: 0 < i < |moments| ==> NextMoment(moments[i - 1], moments[i])
  }

  /** The instants of a run, all of them safe. */
  ghost predicate SafeRun(c: Codec, moments: seq<Moment>) {
    Consecutive(moments) && forall i :: 0 <= i < |moments| ==> SafeMoment(c, moments[i])
  }

  function Latest(moments: seq<Moment>): Moment
    requires moments != []
  {
    moments[|moments| - 1]
  }

  lemma RunBegins(c: Codec)
    ensures SafeRun(c, [START])
  {
    assert Holds(c, [], [], []);
  }

  lemma RunGrows(c: Codec, moments: seq<Moment>, next: Moment)
    requires SafeRun(c, moments) && SafeMoment(c, next) && NextMoment(Latest(moments), next)
    ensures SafeRun(c, moments + [next])
  {
    var longer := moments + [next];
    assert forall i :: 0 <= i < |moments| ==> longer[i] == moments[i];
  }

  lemma OneMomentLess(moments: seq<Moment>)
    requires Consecutive(moments) && |moments| > 1
    ensures Consecutive(moments[..|moments| - 1]) && NextMoment(Latest(moments[..|moments| - 1]), Latest(moments))
  {
    var front := moments[..|moments| - 1];
    assert forall i :: 0 <= i < |front| ==> front[i] == moments[i];
  }

  /** Every prefix of what a run recorded was the log at some instant. */
  lemma {:induction false} EveryRecordHasItsInstant(moments: seq<Moment>, k: nat) returns (i: nat)
    requires Consecutive(moments) && k <= |Latest(moments).log|
    ensures i < |moments| && moments[i].log == Latest(moments).log[..k]
    decreases |moments|
  {
    if k == |Latest(moments).log| {
      i := |moments| - 1;
    } else {
      OneMomentLess(moments);
      i := EveryRecordHasItsInstant(moments[..|moments| - 1], k);
    }
  }

  /** Every handler was entered at an instant that changed nothing else. */
  lemma {:induction false} EveryExecutionHasItsInstant(moments: seq<Moment>, k: nat) returns (i: nat)
    requires Consecutive(moments) && k < |Latest(moments).executed|
    ensures 0 < i < |moments| && moments[i - 1].log <= Latest(moments).log
    ensures moments[i - 1].executed == Latest(moments).executed[..k]
    ensures moments[i] == moments[i - 1].(executed := Latest(moments).executed[..k + 1])
    decreases |moments|
  {
    OneMomentLess(moments);
    var front := moments[..|moments| - 1];
    var m, next := Latest(front), Latest(moments);
    assert m.log <= next.log;
    if |m.executed| == k {
      i := |moments| - 1;
      assert m.executed == next.executed[..k];
    } else {
      hide NextMoment, Consecutive;
      assert m.executed[..k + 1] == next.executed[..k + 1];
      i := EveryExecutionHasItsInstant(front, k);
      assert moments[i] == front[i] && moments[i - 1] == front[i - 1];
    }
  }

  /**
   When a handler was entered, at instant `i`, the request of its call was already durable, and so
   were the question and the grant if its plan needed an approval; and it was entered only once.
   */
  lemma AuthorizedBeforeEntry(c: Codec, moments: seq<Moment>, k: nat) returns (i: nat)
    requires SafeRun(c, moments) && k < |Latest(moments).executed|
    ensures 0 < i < |moments| && moments[i - 1].durable <= |moments[i - 1].log|
    ensures moments[i] == moments[i - 1].(executed := Latest(moments).executed[..k + 1])
    ensures var x, before := Latest(moments).executed[k], moments[i - 1];
      && DurablyRequested(before.log, before.durable, x.call)
      && (x.needsApproval ==>
           exists a :: 0 <= a < before.durable && IsApproval(before.log[a], x.call.id)
             && DurablyApproved(before.log, before.durable, before.log[a].body.request.id))
      && forall j :: 0 <= j < |Latest(moments).executed| && j != k ==> Latest(moments).executed[j].call.id != x.call.id
  {
    i := EveryExecutionHasItsInstant(moments, k);
    var x, before := Latest(moments).executed[k], moments[i - 1];
    assert SafeMoment(c, moments[i]) && SafeMoment(c, moments[|moments| - 1]);
    assert x == moments[i].executed[k];
    assert x in moments[i].executed;
    assert Authorized(before.log, before.durable, x);
    if x.needsApproval {
      var a :| 0 <= a < before.durable && IsApproval(before.log[a], x.call.id);
      assert DurablyApproved(before.log, before.durable, before.log[a].body.request.id);
    }
  }

  // ---- any surviving prefix recovers ----------------------------------------------------

  lemma {:induction false} OpenCallsSole(log: Log, n: nat, id: ToolCallId)
    requires n <= |log| && Timeline(log, Strict) && !Answered(log, id)
    requires forall i :: 0 <= i < |log| && log[i].body.ToolCallRequested? ==>
               log[i].body.call.id == id || Answered(log, log[i].body.call.id)
    ensures OpenCalls(log, n) == if exists i :: 0 <= i < n && IsRequest(log[i], id) then [id] else []
  {
    hide Timeline;
    if n > 0 {
      OpenCallsSole(log, n - 1, id);
      if IsRequest(log[n - 1], id) {
        forall i | 0 <= i < n - 1
          ensures !IsRequest(log[i], id)
        {
          CallOrder(log, Strict, i, n - 1, id);
        }
      }
    }
  }

  lemma AnsweredGrows(log: Log, j: nat, k: nat, id: ToolCallId)
    requires j <= k <= |log| && Answered(log[..j], id)
    ensures Answered(log[..k], id)
  {
    var i :| 0 <= i < j && IsResult(log[..j][i], id);
    assert log[..k][i] == log[..j][i];
  }

  lemma ResolvedGrows(log: Log, j: nat, k: nat, a: string)
    requires j <= k <= |log| && Resolved(log[..j], a)
    ensures Resolved(log[..k], a)
  {
    var i :| 0 <= i < j && IsResolution(log[..j][i], a);
    assert log[..k][i] == log[..j][i];
  }

  /** An executed call whose result did not survive is exactly what recovery reports. */
  lemma {:induction false} SoleIsReported(log: Log, durable: nat, k: nat, call: ToolCall)
    requires Timeline(log, Strict) && durable <= k <= |log| && 0 < k
    requires DurablyRequested(log, durable, call) && Sole(log, durable, call.id) && !Answered(log[..k], call.id)
    ensures ObservedStatus(log[..k], true) == RecoveryRequired([call.id])
  {
    var survived := log[..k];
    PrefixClosed(log, Strict, k);
    assert forall i :: 0 <= i < k ==> survived[i] == log[i];
    forall i | 0 <= i < k && survived[i].body.ToolCallRequested?
      ensures survived[i].body.call.id == call.id || Answered(survived, survived[i].body.call.id)
    {
      if survived[i].body.call.id != call.id {
        assert Answered(log[..durable], log[i].body.call.id);
        AnsweredGrows(log, durable, k, log[i].body.call.id);
      }
    }
    OpenCallsSole(survived, k, call.id);
    var i :| 0 <= i < durable && log[i].body.ToolCallRequested? && log[i].body.call == call;
    assert IsRequest(survived[i], call.id);
    assert !AllAnswered(survived);
    forall a | 0 <= a < k && survived[a].body.ApprovalRequested?
      ensures Resolved(survived, survived[a].body.request.id)
    {
      assert Resolved(log[..durable], log[a].body.request.id);
      ResolvedGrows(log, durable, k, log[a].body.request.id);
    }
    assert !AwaitsDecision(survived);
  }

  /** What recovery reads from the bytes a crash left: the tail repaired, the rest scanned. */
  function Recovered(c: Codec, survived: seq<byte>): Result<Log, ReadError> {
    ReadLog(c, survived[..CommittedLength(survived)])
  }

  lemma RecoveredIsPrefix(c: Codec, m: Moment, n: nat) returns (k: nat)
    requires c.Lawful() && Linked(c, m) && m.durableBytes <= n <= |m.bytes|
    ensures m.durable <= k <= |m.log| && Recovered(c, m.bytes[..n]) == Success(m.log[..k])
  {
    var tail :| Holds(c, m.bytes, m.log, tail);
    var torn;
    k, torn := TornPrefix(c, m.log, tail, n);
    var log := m.log[..k];
    assert Homogeneous(log);
    assert Holds(c, m.bytes[..n], log, torn);
    HoldsCommitted(c, m.bytes[..n], log, torn);
    assert FrameAll(c, log) + [] == FrameAll(c, log);
    ReadBack(c, FrameAll(c, log), log, []);
  }

  /** What recovery finds of an executed call: its request, its grant if it needed one, and its result or a report. */
  ghost predicate Accounted(log: Log, x: Execution) {
    && DurablyRequested(log, |log|, x.call)
    && (x.needsApproval ==> DurablyAsked(log, |log|, x.call.id))
    && (forall a :: 0 <= a < |log| && IsApproval(log[a], x.call.id) ==> DurablyApproved(log, |log|, log[a].body.request.id))
    && (!Answered(log, x.call.id) ==> ObservedStatus(log, true) == RecoveryRequired([x.call.id]))
  }

  lemma AuthorizedSurvives(log: Log, durable: nat, k: nat, x: Execution)
    requires durable <= k <= |log| && Authorized(log, durable, x)
    ensures DurablyRequested(log[..k], k, x.call)
    ensures x.needsApproval ==> DurablyAsked(log[..k], k, x.call.id)
    ensures forall a :: 0 <= a < k && IsApproval(log[..k][a], x.call.id) ==> DurablyApproved(log[..k], k, log[..k][a].body.request.id)
  {
    var survived := log[..k];
    assert forall i :: 0 <= i < k ==> survived[i] == log[i];
    var i :| 0 <= i < durable && log[i].body.ToolCallRequested? && log[i].body.call == x.call;
    assert survived[i].body.call == x.call;
    if x.needsApproval {
      var a :| 0 <= a < durable && IsApproval(log[a], x.call.id);
      assert IsApproval(survived[a], x.call.id);
    }
    forall a | 0 <= a < k && IsApproval(survived[a], x.call.id)
      ensures DurablyApproved(survived, k, survived[a].body.request.id)
    {
      assert IsApproval(log[a], x.call.id);
      var r :| 0 <= r < durable && IsResolution(log[r], log[a].body.request.id) && log[r].body.decision == Approve;
      assert IsResolution(survived[r], survived[a].body.request.id);
    }
  }

  /**
   Crash safety. Stop a run at any safe moment and let any bytes from the durable
   length on survive. After tail repair the log reads back as a prefix of what was
   committed and replays strictly; every executed call is found requested, asked
   about if its plan needed an approval, and granted if it was asked about; and if
   the result of an executed call is missing, that call alone is what recovery reports.
   */
  lemma CrashRecovery(c: Codec, m: Moment, n: nat, x: Execution) returns (log: Log)
    requires c.Lawful() && SafeMoment(c, m) && m.durableBytes <= n <= |m.bytes|
    ensures Recovered(c, m.bytes[..n]) == Success(log)
    ensures m.durable <= |log| <= |m.log| && log == m.log[..|log|]
    ensures log != [] ==> WellFormed(log, Strict)
    ensures x in m.executed ==> Accounted(log, x)
  {
    hide Timeline, Holds, Sole, Codec.Lawful, ObservedStatus, WellFormed;
    var k := RecoveredIsPrefix(c, m, n);
    log := m.log[..k];
    if k > 0 {
      PrefixIsWellFormed(m.log, k);
    }
    if x in m.executed {
      assert Authorized(m.log, m.durable, x);
      AuthorizedSurvives(m.log, m.durable, k, x);
      if !Answered(log, x.call.id) {
        if Answered(m.log[..m.durable], x.call.id) {
          AnsweredGrows(m.log, m.durable, k, x.call.id);
        }
        SoleIsReported(m.log, m.durable, k, x.call);
      }
    }
  }

  lemma PrefixIsWellFormed(log: Log, k: nat)
    requires Timeline(log, Strict) && 0 < k <= |log|
    ensures WellFormed(log[..k], Strict)
  {
    PrefixClosed(log, Strict, k);
  }

  lemma CrashRecoversAll(c: Codec, m: Moment, n: nat) returns (log: Log)
    requires c.Lawful() && SafeMoment(c, m) && m.durableBytes <= n <= |m.bytes|
    ensures Recovered(c, m.bytes[..n]) == Success(log)
    ensures m.durable <= |log| <= |m.log| && log == m.log[..|log|]
    ensures if log == [] then m.executed == [] else WellFormed(log, Strict)
    ensures forall x :: x in m.executed ==> Accounted(log, x)
  {
    hide Timeline, Holds, SafeMoment, Codec.Lawful, ObservedStatus, WellFormed;
    log := CrashRecovery(c, m, n, Execution(ToolCall("", "", ""), false));
    forall x | x in m.executed
      ensures Accounted(log, x)
    {
      var _ := CrashRecovery(c, m, n, x);
    }
    if m.executed != [] {
      assert Accounted(log, m.executed[0]);
    }
  }

  /** Producer and validator agree: every non-empty prefix of what a run committed replays strictly. */
  lemma CommittedPrefixesReplay(c: Codec, m: Moment, n: nat)
    requires SafeMoment(c, m) && 0 < n <= |m.log|
    ensures WellFormed(m.log[..n], Strict)
  {
    PrefixClosed(m.log, Strict, n);
  }

  // ---- any interleaving of appenders, reconcilers and crashes ------------------------------

  /** One thing that may happen to a log file between two lock holders. */
  ghost predicate FileStep(c: Codec, before: seq<byte>, after: seq<byte>) {
    || (exists e, ok :: EventStore.AppendEffect(c, before, after, e, ok))
    || (exists s, e: AgentEvent, durable, ok ::
          EventStore.ReconcileEffect(c, before, after, s, e.WithSequence(s), durable, ok))
    || after == before[..CommittedLength(before)]
    || after <= before
  }

  ghost predicate IsLogFile(c: Codec, bytes: seq<byte>) {
    exists log, tail :: Holds(c, bytes, log, tail)
  }

  lemma AppendStepKeepsLog(c: Codec, before: seq<byte>, after: seq<byte>, log: Log, tail: seq<byte>, e: AgentEvent, ok: bool)
    requires c.Lawful() && Holds(c, before, log, tail) && EventStore.AppendEffect(c, before, after, e, ok)
    ensures IsLogFile(c, after)
  {
    EventStore.AppendPreserves(c, before, after, log, tail, e, ok);
  }

  lemma ReconcileStepKeepsLog(c: Codec, before: seq<byte>, after: seq<byte>, log: Log, tail: seq<byte>, s: nat, e: AgentEvent, durable: bool, ok: bool)
    requires c.Lawful() && Holds(c, before, log, tail) && e.sequence == Some(s)
    requires EventStore.ReconcileEffect(c, before, after, s, e, durable, ok)
    ensures IsLogFile(c, after)
  {
    EventStore.ReconcilePreserves(c, before, after, log, tail, s, e, durable, ok);
  }

  lemma TruncationKeepsLog(c: Codec, before: seq<byte>, after: seq<byte>, log: Log, tail: seq<byte>)
    requires c.Lawful() && Holds(c, before, log, tail) && after <= before
    ensures IsLogFile(c, after)
  {
    var k, torn := TornPrefix(c, log, tail, |after|);
    assert after == before[..|after|];
    assert Homogeneous(log[..k]);
    assert Holds(c, after, log[..k], torn);
  }

  lemma FileStepKeepsLog(c: Codec, before: seq<byte>, after: seq<byte>)
    requires c.Lawful() && IsLogFile(c, before) && FileStep(c, before, after)
    ensures IsLogFile(c, after)
  {
    var log, tail :| Holds(c, before, log, tail);
    if after <= before {
      TruncationKeepsLog(c, before, after, log, tail);
    } else if e, ok :| EventStore.AppendEffect(c, before, after, e, ok) {
      AppendStepKeepsLog(c, before, after, log, tail, e, ok);
    } else {
      var s, e: AgentEvent, durable, ok :| EventStore.ReconcileEffect(c, before, after, s, e.WithSequence(s), durable, ok);
      ReconcileStepKeepsLog(c, before, after, log, tail, s, e.WithSequence(s), durable, ok);
    }
  }

  /** Every file history is at all times a homogeneous log plus at most one torn record. */
  lemma {:induction false} AnyInterleavingKeepsLog(c: Codec, history: seq<seq<byte>>, i: nat)
    requires c.Lawful() && i < |history| && history[0] == []
    requires forall j :: 0 <= j < |history| - 1 ==> FileStep(c, history[j], history[j + 1])
    ensures IsLogFile(c, history[i])
  {
    if i == 0 {
      assert Holds(c, [], [], []);
    } else {
      AnyInterleavingKeepsLog(c, history, i - 1);
      assert FileStep(c, history[i - 1], history[i - 1 + 1]);
      FileStepKeepsLog(c, history[i - 1], history[i]);
    }
  }
}

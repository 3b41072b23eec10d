/**
 Model messages, model streams, and what a conversation owes to the timeline
 (crates/agent-runtime/src/runtime.rs): the assistant message of a turn is what the model was recorded to say.
 */
module Conversation {
  import opened Prelude
  import opened Events
  import opened Lifecycle
  import opened Ids
  import opened RunLog

  datatype ModelToolCall = ModelToolCall(id: ModelToolCallId, name: string, arguments: Json)

  datatype ModelMessage =
    | SystemMessage(content: string)
    | UserMessage(content: string)
    | AssistantMessage(text: Option<string>, toolCalls: seq<ModelToolCall>)
    | ToolMessage(results: seq<Content>, name: string, toolCallId: ModelToolCallId)

  // ---- one model stream ------------------------------------------------------------

  datatype CollectedTurn = CollectedTurn(text: string, toolCalls: seq<ModelToolCall>)
  datatype ModelStep = Absorbed(turn: CollectedTurn, completed: bool) | Aborted(error: AgentError)

  /** What one stream event adds to the turn: text, a call, completion, or an error that ends the run. */
  function Absorb(event: ModelStreamEvent, turn: CollectedTurn): ModelStep {
    match event
    case TextDelta(delta) => Absorbed(turn.(text := turn.text + delta), false)
    case ModelCall(id, name, arguments) =>
      if exists i :: 0 <= i < |turn.toolCalls| && turn.toolCalls[i].id == id then
        Aborted(AgentError("duplicate_model_tool_call_id", "model emitted duplicate tool call id '" + id + "' in one turn", false))
      else Absorbed(turn.(toolCalls := turn.toolCalls + [ModelToolCall(id, name, arguments)]), false)
    case StreamCompleted => Absorbed(turn, true)
    case StreamFailed(error) => Aborted(AgentError(error.code, error.message, false))
    case _ => Absorbed(turn, false)
  }

  /** The text of a stream. */
  function Deltas(events: seq<ModelStreamEvent>): string {
    if events == [] then ""
    else
      var last := events[|events| - 1];
      Deltas(events[..|events| - 1]) + (if last.TextDelta? then last.delta else "")
  }

  /** The calls of a stream, in order. */
  function Calls(events: seq<ModelStreamEvent>): seq<ModelToolCall> {
    if events == [] then []
    else
      var last := events[|events| - 1];
      Calls(events[..|events| - 1]) + (if last.ModelCall? then [ModelToolCall(last.id, last.name, last.arguments)] else [])
  }

  /** No event failed, and only the last one may have completed the stream. */
  ghost predicate Unfailed(events: seq<ModelStreamEvent>, completed: bool) {
    && (forall i :: 0 <= i < |events| ==> !events[i].StreamFailed?)
    && (forall i :: 0 <= i < |events| ==> (events[i].StreamCompleted? <==> completed && i == |events| - 1))
    && (completed ==> events != [])
  }

  ghost predicate CompleteStream(events: seq<ModelStreamEvent>) {
    Unfailed(events, true)
  }

  /** The log grew by one model output per event, in order. */
  ghost predicate Records(before: Log, after: Log, turn: TurnId, events: seq<ModelStreamEvent>) {
    && before <= after && |after| == |before| + |events|
    && forall k :: |before| <= k < |after| ==> after[k].body == ModelOutput(turn, events[k - |before|])
  }

  lemma NothingRead(log: Log, turn: TurnId)
    ensures Deltas([]) == "" && Calls([]) == [] && DistinctIds(Calls([])) && Unfailed([], false) && Records(log, log, turn, [])
  {
  }

  lemma RecordsSnoc(before: Log, after: Log, turn: TurnId, events: seq<ModelStreamEvent>, event: ModelStreamEvent)
    requires after != [] && Records(before, after[..|after| - 1], turn, events)
    requires after[|after| - 1].body == ModelOutput(turn, event)
    ensures Records(before, after, turn, events + [event])
  {
    var front := after[..|after| - 1];
    assert after == front + [after[|after| - 1]];
    assert forall k :: 0 <= k < |front| ==> after[k] == front[k];
  }

  lemma ReadSnoc(read: seq<ModelStreamEvent>, event: ModelStreamEvent)
    ensures Deltas(read + [event]) == Deltas(read) + (if event.TextDelta? then event.delta else "")
    ensures Calls(read + [event]) ==
      Calls(read) + (if event.ModelCall? then [ModelToolCall(event.id, event.name, event.arguments)] else [])
  {
    assert (read + [event])[..|read|] == read;
  }

  lemma UnfailedSnoc(read: seq<ModelStreamEvent>, event: ModelStreamEvent)
    requires Unfailed(read, false) && !event.StreamFailed?
    ensures Unfailed(read + [event], event.StreamCompleted?)
  {
    assert forall i :: 0 <= i < |read| ==> (read + [event])[i] == read[i];
  }

  lemma DistinctSnoc(calls: seq<ModelToolCall>, call: ModelToolCall)
    requires DistinctIds(calls)
    ensures DistinctIds(calls + [call]) <==> forall i :: 0 <= i < |calls| ==> calls[i].id != call.id
  {
    var more := calls + [call];
    if i :| 0 <= i < |calls| && calls[i].id == call.id {
      assert more[i].id == more[|calls|].id;
    }
  }

  /** One more event is absorbed exactly when it neither fails nor repeats a call id, and then counts as read. */
  lemma AbsorbSays(event: ModelStreamEvent, read: seq<ModelStreamEvent>)
    requires DistinctIds(Calls(read)) && Unfailed(read, false)
    ensures var step, more := Absorb(event, CollectedTurn(Deltas(read), Calls(read))), read + [event];
      && (step.Absorbed? <==> !event.StreamFailed? && DistinctIds(Calls(more)))
      && (step.Absorbed? ==> step.turn == CollectedTurn(Deltas(more), Calls(more)) && Unfailed(more, step.completed))
  {
    hide Deltas, Calls, DistinctIds, Unfailed;
    ReadSnoc(read, event);
    assert Calls(read) + [] == Calls(read) && Deltas(read) + "" == Deltas(read);
    if !event.StreamFailed? { UnfailedSnoc(read, event); }
    if event.ModelCall? { DistinctSnoc(Calls(read), ModelToolCall(event.id, event.name, event.arguments)); }
  }

  ghost predicate DistinctIds(calls: seq<ModelToolCall>) {
    forall i, j :: 0 <= i < j < |calls| ==> calls[i].id != calls[j].id
  }

  // ---- what a timeline says about turns and streams -----------------------------------

  /** How many turns were started. */
  function TurnsIn(log: Log): nat {
    if log == [] then 0 else TurnsIn(log[..|log| - 1]) + (if log[|log| - 1].body.TurnStarted? then 1 else 0)
  }

  predicate IsOutput(e: AgentEvent, turn: TurnId) {
    e.body.ModelOutput? && e.body.turn == turn
  }

  /** The model events recorded for a turn, in order. */
  function Outputs(log: Log, turn: TurnId): seq<ModelStreamEvent> {
    if log == [] then []
    else Outputs(log[..|log| - 1], turn) + (if IsOutput(log[|log| - 1], turn) then [log[|log| - 1].body.event] else [])
  }

  /** The log grew without the model saying anything and without a turn starting. */
  ghost predicate Silent(before: Log, after: Log) {
    before <= after && forall k :: |before| <= k < |after| ==> !after[k].body.TurnStarted? && !after[k].body.ModelOutput?
  }

  /** The log grew with model events of one turn only, and without a turn starting. */
  ghost predicate SpeaksIn(before: Log, after: Log, turn: TurnId) {
    && before <= after
    && forall k :: |before| <= k < |after| ==>
         !after[k].body.TurnStarted? && (after[k].body.ModelOutput? ==> after[k].body.turn == turn)
  }

  /** The log grew within one turn: no other turn was started, and no other turn's model events were recorded. */
  ghost predicate GrowsIn(before: Log, after: Log, turn: TurnId) {
    && before <= after
    && forall k :: |before| <= k < |after| ==>
         && (after[k].body.TurnStarted? ==> after[k].body.turn == turn)
         && (after[k].body.ModelOutput? ==> after[k].body.turn == turn)
  }

  lemma SilentSpeaks(before: Log, after: Log, turn: TurnId)
    requires Silent(before, after)
    ensures SpeaksIn(before, after, turn) && GrowsIn(before, after, turn)
  {
  }

  lemma OutputsSnoc(log: Log, e: AgentEvent, turn: TurnId)
    ensures Outputs(log + [e], turn) == Outputs(log, turn) + (if IsOutput(e, turn) then [e.body.event] else [])
    ensures TurnsIn(log + [e]) == TurnsIn(log) + (if e.body.TurnStarted? then 1 else 0)
  {
    assert (log + [e])[..|log|] == log;
  }

  lemma OneLess(before: Log, after: Log)
    requires before <= after && |before| < |after|
    ensures before <= after[..|after| - 1] && after == after[..|after| - 1] + [after[|after| - 1]]
  {
  }

  lemma {:induction false} OtherTurnsKept(before: Log, after: Log, turn: TurnId, other: TurnId)
    requires GrowsIn(before, after, turn) && other != turn
    ensures Outputs(after, other) == Outputs(before, other)
    decreases |after|
  {
    if before != after {
      OneLess(before, after);
      var front := after[..|after| - 1];
      OtherTurnsKept(before, front, turn, other);
      OutputsSnoc(front, after[|after| - 1], other);
    }
  }

  lemma {:induction false} TurnsKept(before: Log, after: Log, turn: TurnId)
    requires SpeaksIn(before, after, turn)
    ensures TurnsIn(after) == TurnsIn(before)
    decreases |after|
  {
    if before != after {
      OneLess(before, after);
      var front := after[..|after| - 1];
      TurnsKept(before, front, turn);
      OutputsSnoc(front, after[|after| - 1], turn);
    }
  }

  lemma {:induction false} SilenceKept(before: Log, after: Log, turn: TurnId)
    requires Silent(before, after)
    ensures Outputs(after, turn) == Outputs(before, turn)
    decreases |after|
  {
    if before != after {
      OneLess(before, after);
      var front := after[..|after| - 1];
      SilenceKept(before, front, turn);
      OutputsSnoc(front, after[|after| - 1], turn);
    }
  }

  lemma {:induction false} RecordsAreOutputs(before: Log, after: Log, turn: TurnId, read: seq<ModelStreamEvent>)
    requires Records(before, after, turn, read)
    ensures Outputs(after, turn) == Outputs(before, turn) + read
    decreases |after|
  {
    if read == [] {
      assert before == after;
    } else {
      OneLess(before, after);
      var front, said := after[..|after| - 1], read[..|read| - 1];
      assert forall k :: |before| <= k < |front| ==> front[k] == after[k];
      RecordsAreOutputs(before, front, turn, said);
      OutputsSnoc(front, after[|after| - 1], turn);
      assert read == said + [read[|read| - 1]];
    }
  }

  lemma {:induction false} ActiveWasOpened(log: Log)
    ensures ActiveTurn(log).Some? ==> TurnOpened(log, ActiveTurn(log).value)
  {
    if log != [] && !log[|log| - 1].body.TurnStarted? {
      ActiveWasOpened(log[..|log| - 1]);
    }
  }

  /** The model says nothing in a turn that was never started. */
  lemma {:induction false} NothingBeforeStart(log: Log, turn: TurnId)
    requires Timeline(log, Strict) && !TurnOpened(log, turn)
    ensures Outputs(log, turn) == []
    decreases |log|
  {
    var n := |log| - 1;
    var front := log[..n];
    if n > 0 {
      AdmittedAt(log, Strict, n);
      PrefixClosed(log, Strict, n);
      assert forall i :: 0 <= i < n ==> front[i] == log[i];
      NothingBeforeStart(front, turn);
      ActiveWasOpened(front);
    }
  }

  // ---- conversation history -----------------------------------------------------------

  function Flatten(blocks: seq<seq<ModelMessage>>): seq<ModelMessage> {
    if blocks == [] then [] else Flatten(blocks[..|blocks| - 1]) + blocks[|blocks| - 1]
  }

  /** One assistant message, then the first `n` of its calls answered in order under their own ids and names. */
  ghost predicate PartialBlock(block: seq<ModelMessage>, n: nat) {
    && |block| == n + 1
    && block[0].AssistantMessage?
    && block[0].toolCalls != []
    && n <= |block[0].toolCalls|
    && (forall i, j :: 0 <= i < j < |block[0].toolCalls| ==> block[0].toolCalls[i].id != block[0].toolCalls[j].id)
    && (forall i {:trigger block[i]} :: 1 <= i <= n ==>
         && block[i].ToolMessage?
         && block[i].name == block[0].toolCalls[i - 1].name
         && block[i].toolCallId == block[0].toolCalls[i - 1].id)
  }

  lemma BlockGrows(block: seq<ModelMessage>, n: nat, message: ModelMessage)
    requires PartialBlock(block, n) && n < |block[0].toolCalls|
    requires message.ToolMessage? && message.name == block[0].toolCalls[n].name && message.toolCallId == block[0].toolCalls[n].id
    ensures PartialBlock(block + [message], n + 1)
  {
    var grown := block + [message];
    assert grown[0] == block[0];
    assert grown[n + 1] == message;
    assert forall i :: 1 <= i <= n ==> grown[i] == block[i];
  }

  ghost predicate TurnBlock(block: seq<ModelMessage>) {
    block != [] && block[0].AssistantMessage? && PartialBlock(block, |block[0].toolCalls|)
  }

  /** The assistant message for what the model said. */
  function Spoken(events: seq<ModelStreamEvent>): ModelMessage {
    AssistantMessage(if Deltas(events) == "" then None else Some(Deltas(events)), Calls(events))
  }

  /** A complete block whose assistant message is what a completed stream, recorded for the turn, said. */
  ghost predicate BlockOf(block: seq<ModelMessage>, log: Log, turn: TurnId) {
    TurnBlock(block) && CompleteStream(Outputs(log, turn)) && block[0] == Spoken(Outputs(log, turn))
  }

  ghost predicate BlocksOf(blocks: seq<seq<ModelMessage>>, log: Log) {
    forall j :: 0 <= j < |blocks| ==> BlockOf(blocks[j], log, TurnIdAt(j + 1))
  }

  /** The initial messages followed by one complete block for each of the first `k` turns. */
  ghost predicate HistoryOf(initial: seq<ModelMessage>, messages: seq<ModelMessage>, k: nat, log: Log) {
    exists blocks :: |blocks| == k && BlocksOf(blocks, log) && messages == initial + Flatten(blocks)
  }

  /** Request number `k` carried the history of the first `k` turns. */
  ghost predicate RequestsFollow(initial: seq<ModelMessage>, requests: seq<seq<ModelMessage>>, log: Log) {
    forall k :: 0 <= k < |requests| ==> HistoryOf(initial, requests[k], k, log)
  }

  lemma HistoryBegins(initial: seq<ModelMessage>, log: Log)
    ensures HistoryOf(initial, initial, 0, log) && RequestsFollow(initial, [], log)
  {
    var blocks: seq<seq<ModelMessage>> := [];
    assert BlocksOf(blocks, log) && initial + Flatten(blocks) == initial;
  }

  lemma FlattenSnoc(blocks: seq<seq<ModelMessage>>, block: seq<ModelMessage>)
    ensures Flatten(blocks + [block]) == Flatten(blocks) + block
  {
    assert (blocks + [block])[..|blocks|] == blocks;
  }

  lemma HistoryExtends(initial: seq<ModelMessage>, messages: seq<ModelMessage>, k: nat, log: Log, block: seq<ModelMessage>)
    requires HistoryOf(initial, messages, k, log) && BlockOf(block, log, TurnIdAt(k + 1))
    ensures HistoryOf(initial, messages + block, k + 1, log)
  {
    hide BlockOf, Flatten;
    var blocks :| |blocks| == k && BlocksOf(blocks, log) && messages == initial + Flatten(blocks);
    FlattenSnoc(blocks, block);
    assert (initial + Flatten(blocks)) + block == initial + (Flatten(blocks) + block);
    assert BlocksOf(blocks + [block], log);
  }

  /** A later turn changes nothing about the history of the turns before it. */
  lemma HistoryKept(initial: seq<ModelMessage>, messages: seq<ModelMessage>, k: nat, before: Log, after: Log, n: nat)
    requires HistoryOf(initial, messages, k, before) && k <= n && GrowsIn(before, after, TurnIdAt(n + 1))
    ensures HistoryOf(initial, messages, k, after)
  {
    hide GrowsIn, Outputs, TurnBlock, CompleteStream, Spoken, TurnIdAt;
    var blocks :| |blocks| == k && BlocksOf(blocks, before) && messages == initial + Flatten(blocks);
    forall j | 0 <= j < |blocks|
      ensures BlockOf(blocks[j], after, TurnIdAt(j + 1))
    {
      IdsInjective("", j + 1, n + 1);
      assert BlockOf(blocks[j], before, TurnIdAt(j + 1));
      OtherTurnsKept(before, after, TurnIdAt(n + 1), TurnIdAt(j + 1));
    }
  }

  lemma RequestsKept(initial: seq<ModelMessage>, requests: seq<seq<ModelMessage>>, before: Log, after: Log, n: nat)
    requires RequestsFollow(initial, requests, before) && |requests| <= n + 1 && GrowsIn(before, after, TurnIdAt(n + 1))
    ensures RequestsFollow(initial, requests, after)
  {
    hide HistoryOf, GrowsIn;
    forall k | 0 <= k < |requests|
      ensures HistoryOf(initial, requests[k], k, after)
    {
      HistoryKept(initial, requests[k], k, before, after, n);
    }
  }

  lemma RequestAdded(initial: seq<ModelMessage>, requests: seq<seq<ModelMessage>>, messages: seq<ModelMessage>, log: Log)
    requires RequestsFollow(initial, requests, log) && HistoryOf(initial, messages, |requests|, log)
    ensures RequestsFollow(initial, requests + [messages], log)
  {
    hide HistoryOf;
  }

  /** A turn that recorded a completed stream, and then was silent, gives the block its assistant message. */
  lemma TurnSpoken(start: Log, said: Log, end: Log, turn: TurnId, read: seq<ModelStreamEvent>)
    requires Records(start, said, turn, read) && Silent(said, end) && Outputs(start, turn) == []
    ensures Outputs(end, turn) == read
  {
    RecordsAreOutputs(start, said, turn, read);
    SilenceKept(said, end, turn);
  }
}

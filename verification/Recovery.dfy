/**
 Recovery end to end: tail repair, a full read and replay of an inactive log
 (`repair_truncated_tail` and `replay_for_recovery` of crates/event-store/src/jsonl.rs).
 */
module Recovery {
  import opened Prelude
  import opened Events
  import opened Lifecycle
  import opened LogBytes
  import opened EventStore
  import opened CrashSafety
  import Replay
  import ReplayCorrect

  datatype RecoveryError = StoreFailed(cause: StoreError) | ReplayFailed(reason: Replay.ReplayError)

  /** Replays an inactive log and exposes tool calls whose results require reconciliation. */
  method ReplayForRecovery(store: JsonlEventStore) returns (r: Result<Replay.RunReplay, RecoveryError>)
    requires store.Valid()
    modifies store.file`faults
    ensures match r
            case Success(replay) =>
              && ReadLog(store.codec, store.file.bytes) == Success(replay.events)
              && WellFormed(replay.events, Strict)
              && replay.status == ObservedStatus(replay.events, true)
            case Failure(ReplayFailed(error)) =>
              && ReadLog(store.codec, store.file.bytes).Success?
              && ReplayCorrect.Blames(ReadLog(store.codec, store.file.bytes).value, Strict, error)
              && !WellFormed(ReadLog(store.codec, store.file.bytes).value, Strict)
            case Failure(StoreFailed(Unreadable(_))) => ReadLog(store.codec, store.file.bytes).Failure?
            case Failure(_) => true
  {
    var records := store.ReadAllRecords();
    if records.Failure? { return Failure(StoreFailed(records.error)); }
    var replayed := ReplayCorrect.ReplayEventsWithMode(records.value, true, Strict);
    if replayed.Failure? { return Failure(ReplayFailed(replayed.error)); }
    return Success(replayed.value);
  }

  /**
   After a crash at a safe moment `m`, of which any `n` bytes from the durable length
   on survived, recovery fails only on I/O errors or because not even the first
   record survived; otherwise it yields a prefix of the committed timeline and
   reports exactly the executed call whose result is missing.
   */
  method RecoverAfterCrash(store: JsonlEventStore, ghost m: Moment, ghost n: nat)
    returns (r: Result<Replay.RunReplay, RecoveryError>)
    requires store.Valid() && store.codec.Lawful()
    requires SafeMoment(store.codec, m) && m.durableBytes <= n <= |m.bytes| && store.file.bytes == m.bytes[..n]
    modifies store, store.file
    ensures r.Success? ==>
              && m.durable <= |r.value.events| <= |m.log|
              && r.value.events == m.log[..|r.value.events|]
              && r.value.status == ObservedStatus(r.value.events, true)
              && forall x :: x in m.executed ==> Accounted(r.value.events, x)
    ensures r.Failure? && r.error.ReplayFailed? ==> r.error.reason == Replay.EmptyLog && m.durable == 0 && m.executed == []
    ensures r.Failure? && r.error.StoreFailed? ==> !r.error.cause.Unreadable?
  {
    var repaired := store.RepairTruncatedTail();
    if repaired.Failure? { return Failure(StoreFailed(repaired.error)); }
    ghost var log := CrashRecoversAll(store.codec, m, n);
    r := ReplayForRecovery(store);
  }
}

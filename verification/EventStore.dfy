/**
 The append-only JSONL store (crates/event-store/src/jsonl.rs) over a log file
 whose every operation may fail, and whose writes may be torn. Each call runs
 under the exclusive file lock, so any number of stores over one file interleave
 call by call.
 */
module EventStore {
  import opened Prelude
  import opened Events
  import opened LogBytes

  const SEARCH_CHUNK_SIZE: nat := 8 * 1024

  datatype StoreError =
    | OpenForAppend
    | InspectForAppend
    | OpenForRepair
    | RepairTail
    | UnterminatedLog
    | AppendFailed
    | OpenForRead
    | LockForRead
    | ReadFailed(line: nat)
    | Unreadable(error: ReadError)
    | BadRecord(line: nat)
    | UnexpectedSequence(line: nat, expected: Option<nat>, found: Option<nat>)
    | ReconciliationConflict(sequence: nat, persisted: Log, attempted: AgentEvent)

  /** The operating system refused; the store itself found nothing wrong. */
  predicate IoFailure(e: StoreError) {
    || e.OpenForAppend? || e.InspectForAppend? || e.OpenForRepair? || e.RepairTail?
    || e.AppendFailed? || e.OpenForRead? || e.LockForRead? || e.ReadFailed?
  }

  /** One file: its bytes, how many of them a crash cannot take, and whether its directory entry is stable. */
  class LogFile {
    var exists_: bool
    var bytes: seq<byte>
    var synced: nat
    var entrySynced: bool
    /** How many operations on the file the operating system has refused. */
    ghost var faults: nat

    ghost predicate Valid()
      reads this
    {
      synced <= |bytes| && (!exists_ ==> bytes == [] && !entrySynced)
    }

    /** The bytes every crash preserves. */
    ghost function Durable(): nat
      reads this
    {
      if entrySynced then synced else 0
    }

    /** The file does not exist yet. */
    constructor ()
      ensures Valid() && !exists_ && bytes == [] && synced == 0
    {
      exists_, bytes, synced, entrySynced, faults := false, [], 0, false, 0;
    }

    /** The operating system may refuse any operation. */
    method Refuses() returns (refused: bool)
      modifies `faults
      ensures faults == old(faults) + if refused then 1 else 0
    {
      refused := *;
      if refused { faults := faults + 1; }
    }

    /** `write_all` and `flush`: on failure any prefix of the record may have reached the file. */
    method WriteAll(record: seq<byte>) returns (ok: bool)
      requires Valid() && exists_
      modifies `bytes, `faults
      ensures Valid() && faults == old(faults) + if ok then 0 else 1
      ensures exists k :: 0 <= k <= |record| && bytes == old(bytes) + record[..k] && (ok ==> k == |record|)
    {
      var k: nat :| k <= |record|;
      var refused := Refuses();
      ok := !refused;
      if ok {
        k := |record|;
      }
      bytes := bytes + record[..k];
    }

    method SyncData() returns (ok: bool)
      requires Valid()
      modifies `synced, `faults
      ensures Valid() && old(synced) <= synced && faults == old(faults) + if ok then 0 else 1
      ensures ok ==> synced == |bytes|
    {
      var refused := Refuses();
      ok := !refused;
      if ok {
        synced := |bytes|;
      }
    }

    method SyncParentDirectory() returns (ok: bool)
      requires Valid() && exists_
      modifies `entrySynced, `faults
      ensures Valid() && (old(entrySynced) ==> entrySynced) && faults == old(faults) + if ok then 0 else 1
      ensures ok ==> entrySynced
    {
      var refused := Refuses();
      ok := !refused;
      entrySynced := entrySynced || ok;
    }

    /** `set_len` followed by `sync_all`; a failure may come before or after the truncation. */
    method Truncate(length: nat) returns (ok: bool)
      requires Valid() && length <= |bytes|
      modifies `bytes, `synced, `faults
      ensures Valid() && faults == old(faults) + if ok then 0 else 1
      ensures bytes == old(bytes)[..length] || (!ok && bytes == old(bytes))
      ensures synced == if old(synced) <= |bytes| then old(synced) else |bytes|
    {
      var refused := Refuses();
      ok := !refused;
      var done: bool := *;
      if ok || done {
        bytes := bytes[..length];
        if length < synced {
          synced := length;
        }
      }
    }
  }

  /** Backward search, chunk by chunk, for the newline before `searchEnd`. */
  method RecordStart(bytes: seq<byte>, searchEnd: nat) returns (start: nat)
    requires searchEnd <= |bytes|
    ensures start == CommittedLength(bytes[..searchEnd])
  {
    var end: nat := searchEnd;
    while end > 0
      invariant end <= searchEnd
      invariant forall i :: end <= i < searchEnd ==> bytes[i] != NEWLINE
    {
      var chunkStart := if end < SEARCH_CHUNK_SIZE then 0 else end - SEARCH_CHUNK_SIZE;
      var i := end;
      while i > chunkStart
        invariant chunkStart <= i <= end
        invariant forall j :: i <= j < searchEnd ==> bytes[j] != NEWLINE
      {
        if bytes[i - 1] == NEWLINE {
          CommittedLengthIs(bytes[..searchEnd], i);
          return i;
        }
        i := i - 1;
      }
      end := chunkStart;
    }
    CommittedLengthIs(bytes[..searchEnd], 0);
    return 0;
  }

  /** Puts the events already read in front of the outcome of the rest. */
  function Prepend(events: Log, r: Result<Log, ReadError>): Result<Log, ReadError> {
    match r
    case Failure(e) => Failure(e)
    case Success(rest) => Success(events + rest)
  }

  lemma PrependOne(events: Log, event: AgentEvent, r: Result<Log, ReadError>)
    ensures Prepend(events, Prepend([event], r)) == Prepend(events + [event], r)
  {
    if r.Success? {
      assert events + ([event] + r.value) == events + [event] + r.value;
    }
  }

  /** Reads records in line order, checking terminators and sequences as it goes. */
  method ReadAllRecordsFrom(c: Codec, bytes: seq<byte>) returns (r: Result<Log, ReadError>)
    ensures r == ReadLog(c, bytes)
  {
    var events: Log := [];
    var unread := bytes;
    var line := 0;
    var expected: Option<Option<nat>> := None;
    assert forall more: Log :: [] + more == more;
    while unread != []
      invariant ReadLog(c, bytes) == Prepend(events, ReadFrom(c, unread, line, expected))
      decreases |unread|
    {
      var n := FirstLine(unread);
      var terminated := unread[n - 1] == NEWLINE;
      var record := if terminated then unread[..n - 1] else unread[..n];
      line := line + 1;
      match c.decode(record) {
        case None => return Failure(DecodeRecord(line));
        case Some(event) =>
          var bad := CheckSequence(expected, event.sequence, line);
          if bad.Some? { return Failure(bad.value); }
          if !terminated { return Failure(TruncatedRecord(line)); }
          expected := Some(NextExpected(event.sequence));
          PrependOne(events, event, ReadFrom(c, unread[n..], line, expected));
          events := events + [event];
          unread := unread[n..];
      }
    }
    assert events + [] == events;
    return Success(events);
  }

  datatype AppendFile = AppendFile(parentNeedsSync: bool, fullyValidated: bool, lineCount: nat)

  /** The exact record an append writes. */
  function Stamped(sequence: Option<nat>, event: AgentEvent): AgentEvent {
    if sequence.Some? then event.WithSequence(sequence.value) else event
  }

  /**
   What one append may do to the file. Success commits exactly one record at an
   accepted position; failure leaves the file alone or adds some prefix of that
   record, and nothing is ever added at a position that does not accept it.
   */
  ghost predicate AppendEffect(c: Codec, before: seq<byte>, after: seq<byte>, e: AgentEvent, ok: bool) {
    && (ok ==> MayAppend(c, before, e.sequence) && after == before + Frame(c, e))
    && (!ok ==>
         || after == before
         || (MayAppend(c, before, e.sequence)
             && exists k :: 0 <= k <= |Frame(c, e)| && after == before + Frame(c, e)[..k]))
  }

  /** Why the append position could not be found: I/O, or a log no reader accepts. */
  ghost predicate InspectRefused(c: Codec, bytes: seq<byte>, e: StoreError) {
    || e.InspectForAppend?
    || ((e.UnterminatedLog? || e.Unreadable? || e.BadRecord?) && ReadLog(c, bytes).Failure?)
  }

  /** Why an append fails: I/O, a log no reader accepts, or a sequence the file does not accept. */
  ghost predicate AppendRefused(c: Codec, before: seq<byte>, sequence: Option<nat>, e: StoreError) {
    || IoFailure(e)
    || InspectRefused(c, before, e)
    || (e.UnexpectedSequence? && e.found == sequence && !MayAppend(c, before, sequence))
  }

  /** A failure is blamed on the operating system only when it did refuse something; success means it refused nothing. */
  ghost predicate FaultsExplain(before: nat, after: nat, error: Option<StoreError>) {
    && before <= after
    && (error.None? ==> after == before)
    && (error.Some? && IoFailure(error.value) ==> after > before)
  }

  function ErrorOf<T>(r: Result<T, StoreError>): Option<StoreError> {
    match r
    case Success(_) => None
    case Failure(e) => Some(e)
  }

  class JsonlEventStore {
    const file: LogFile
    const codec: Codec
    var handle: Option<AppendFile>

    ghost predicate Valid()
      reads this, file
    {
      && file.Valid()
      && (handle.Some? ==> file.exists_)
      && (handle.Some? && !handle.value.parentNeedsSync ==> file.entrySynced)
    }

    /** A store over a path that may or may not exist. */
    constructor (file: LogFile, codec: Codec)
      requires file.Valid()
      ensures Valid() && this.file == file && this.codec == codec
    {
      this.file, this.codec, this.handle := file, codec, None;
    }

    method OpenAppendFile() returns (ok: bool)
      requires Valid()
      modifies this, file`exists_, file`faults
      ensures Valid() && file.faults == old(file.faults) + if ok then 0 else 1
      ensures ok ==> handle.Some?
      ensures !ok ==> handle == old(handle)
    {
      var refused := file.Refuses();
      ok := !refused;
      if ok {
        file.exists_ := true;
        handle := Some(AppendFile(true, false, 0));
      }
    }

    /** Where the next record goes, by the last record alone once the log was validated. */
    method InspectAppendPosition() returns (r: Result<(Position, nat), StoreError>)
      requires Valid() && handle.Some?
      modifies `handle, file`faults
      ensures Valid() && handle.Some? && handle.value.parentNeedsSync == old(handle).value.parentNeedsSync
      ensures FaultsExplain(old(file.faults), file.faults, ErrorOf(r))
      ensures r.Success? ==> PositionOf(codec, file.bytes) == Some(r.value.0)
      ensures r == Failure(UnterminatedLog) ==>
                file.bytes != [] && file.bytes[|file.bytes| - 1] != NEWLINE
      ensures r.Failure? ==> InspectRefused(codec, file.bytes, r.error)
      ensures file.bytes != [] && file.bytes[|file.bytes| - 1] != NEWLINE ==> r.Failure?
    {
      hide ReadFrom;
      var bytes := file.bytes;
      if bytes == [] {
        handle := Some(handle.value.(fullyValidated := true, lineCount := 0));
        return Success((EmptyLog, 1));
      }
      var failed := file.Refuses();
      if failed { return Failure(InspectForAppend); }
      if ReadLog(codec, bytes).Success? {
        ScanEndsAtLastRecord(codec, bytes, 0, None);
      }
      if bytes[|bytes| - 1] != NEWLINE { return Failure(UnterminatedLog); }
      var last: AgentEvent;
      if handle.value.fullyValidated {
        var start := RecordStart(bytes, |bytes| - 1);
        match codec.decode(bytes[start..|bytes| - 1]) {
          case None => return Failure(BadRecord(if handle.value.lineCount < 1 then 1 else handle.value.lineCount));
          case Some(event) => last := event;
        }
      } else {
        var records := ReadAllRecordsFrom(codec, bytes);
        if records.Failure? { return Failure(Unreadable(records.error)); }
        FastPathAgrees(codec, bytes);
        handle := Some(handle.value.(fullyValidated := true, lineCount := |records.value|));
        last := records.value[|records.value| - 1];
      }
      var line := if last.sequence.Some? then Successor(last.sequence.value) else handle.value.lineCount + 1;
      return Success((PositionAfter(last), line));
    }

    method ValidateAppendSequence(found: Option<nat>) returns (r: Result<(), StoreError>)
      requires Valid() && handle.Some?
      modifies `handle, file`faults
      ensures Valid() && handle.Some? && handle.value.parentNeedsSync == old(handle).value.parentNeedsSync
      ensures FaultsExplain(old(file.faults), file.faults, ErrorOf(r))
      ensures r.Success? ==> MayAppend(codec, file.bytes, found)
      ensures r.Failure? ==> AppendRefused(codec, file.bytes, found, r.error)
    {
      var inspected := InspectAppendPosition();
      if inspected.Failure? { return Failure(inspected.error); }
      var (position, line) := inspected.value;
      var expected: Option<nat>;
      match position {
        case EmptyLog =>
          if found == None || found == Some(1) { return Success(()); }
          expected := Some(1);
        case LegacyLog =>
          if found == None { return Success(()); }
          expected := None;
        case SequencedLog(next) =>
          if found == Some(next) { return Success(()); }
          expected := Some(next);
      }
      return Failure(UnexpectedSequence(line, expected, found));
    }

    /** The locked part of an append. */
    method AppendLocked(record: AgentEvent, durable: bool) returns (r: Result<(), StoreError>)
      requires Valid() && handle.Some?
      modifies this, file
      ensures Valid() && handle.Some?
      ensures file.synced >= old(file.synced) && (old(file.entrySynced) ==> file.entrySynced)
      ensures AppendEffect(codec, old(file.bytes), file.bytes, record, r.Success?)
      ensures r.Failure? ==> AppendRefused(codec, old(file.bytes), record.sequence, r.error)
      ensures FaultsExplain(old(file.faults), file.faults, ErrorOf(r))
      ensures r.Success? && durable ==> file.Durable() == |file.bytes|
    {
      var valid := ValidateAppendSequence(record.sequence);
      if valid.Failure? { return Failure(valid.error); }
      var bytes := Frame(codec, record);
      var ok := file.WriteAll(bytes);
      assert bytes[..|bytes|] == bytes;
      if !ok { return Failure(AppendFailed); }
      if durable {
        ok := file.SyncData();
        if !ok { return Failure(AppendFailed); }
        if handle.value.parentNeedsSync {
          ok := file.SyncParentDirectory();
          if !ok { return Failure(AppendFailed); }
          handle := Some(handle.value.(parentNeedsSync := false));
        }
      }
      handle := Some(handle.value.(lineCount := handle.value.lineCount + 1));
      return Success(());
    }

    method AppendWithDurability(sequence: Option<nat>, event: AgentEvent, durable: bool) returns (r: Result<(), StoreError>)
      requires Valid()
      modifies this, file
      ensures Valid()
      ensures file.synced >= old(file.synced) && (old(file.entrySynced) ==> file.entrySynced)
      ensures AppendEffect(codec, old(file.bytes), file.bytes, Stamped(sequence, event), r.Success?)
      ensures r.Failure? ==> AppendRefused(codec, old(file.bytes), Stamped(sequence, event).sequence, r.error)
      ensures FaultsExplain(old(file.faults), file.faults, ErrorOf(r))
      ensures r.Success? && durable ==> file.Durable() == |file.bytes|
    {
      hide ReadLog, MayAppend;
      var record := Stamped(if sequence.Some? then sequence else event.sequence, event);
      assert record == Stamped(sequence, event);
      if handle.None? {
        var ready := OpenAppendFile();
        if !ready { return Failure(OpenForAppend); }
      }
      var failed := file.Refuses();
      if failed { return Failure(InspectForAppend); }
      r := AppendLocked(record, durable);
      failed := file.Refuses();
      if r.Success? && failed {
        r := Failure(AppendFailed);
        assert Frame(codec, record)[..|Frame(codec, record)|] == Frame(codec, record);
      }
      if r.Failure? {
        handle := None;
      }
    }

    /** Removes only the final record when it lacks the newline commit marker. */
    method RepairTruncatedTail() returns (r: Result<nat, StoreError>)
      requires Valid()
      modifies this, file
      ensures Valid() && handle.None?
      ensures file.bytes == old(file.bytes)[..CommittedLength(old(file.bytes))] || (r.Failure? && file.bytes == old(file.bytes))
      ensures file.synced == (if old(file.synced) <= |file.bytes| then old(file.synced) else |file.bytes|)
      ensures file.entrySynced == old(file.entrySynced) && file.exists_ == old(file.exists_)
      ensures r.Success? ==> r.value == |old(file.bytes)| - CommittedLength(old(file.bytes))
      ensures r.Failure? ==> r.error.OpenForRepair? || r.error.RepairTail?
      ensures FaultsExplain(old(file.faults), file.faults, ErrorOf(r))
    {
      handle := None;
      if !file.exists_ {
        file.faults := file.faults + 1;
        return Failure(OpenForRepair);
      }
      var failed := file.Refuses();
      if failed { return Failure(RepairTail); }
      var length := |file.bytes|;
      assert file.bytes[..length] == file.bytes;
      if length == 0 || file.bytes[length - 1] == NEWLINE { return Success(0); }
      var committed := RecordStart(file.bytes, length);
      var ok := file.Truncate(committed);
      if !ok { return Failure(RepairTail); }
      return Success(length - committed);
    }

    method ReadAllRecords() returns (r: Result<Log, StoreError>)
      requires Valid()
      modifies file`faults
      ensures Valid()
      ensures r.Success? ==> ReadLog(codec, file.bytes) == Success(r.value)
      ensures r.Failure? ==>
                r.error.OpenForRead? || r.error.LockForRead? || (r.error.Unreadable? && ReadLog(codec, file.bytes) == Failure(r.error.error))
      ensures FaultsExplain(old(file.faults), file.faults, ErrorOf(r))
    {
      if !file.exists_ {
        file.faults := file.faults + 1;
        return Failure(OpenForRead);
      }
      var failed := file.Refuses();
      if failed { return Failure(LockForRead); }
      var records := ReadAllRecordsFrom(codec, file.bytes);
      if records.Failure? { return Failure(Unreadable(records.error)); }
      return Success(records.value);
    }

    method SyncExistingLog() returns (ok: bool)
      requires Valid() && file.exists_
      modifies file
      ensures Valid() && file.bytes == old(file.bytes) && (if ok then file.faults == old(file.faults) else file.faults > old(file.faults))
      ensures ok ==> file.Durable() == |file.bytes|
    {
      ok := file.SyncData();
      if ok {
        ok := file.SyncParentDirectory();
      }
    }

    /** Idempotently establishes one sequenced event after an ambiguous append. */
    method Reconcile(sequence: nat, event: AgentEvent, durable: bool) returns (r: Result<(), StoreError>)
      requires Valid()
      modifies this, file
      ensures Valid()
      ensures Reconciled(codec, old(file.bytes), file.bytes, sequence, event.WithSequence(sequence), durable, r)
      ensures FaultsExplain(old(file.faults), file.faults, ErrorOf(r))
      ensures r.Success? && durable ==> file.Durable() == |file.bytes|
    {
      hide ReadLog, Matching, MayAppend, Conflicting;
      var records: Log := [];
      ghost var before := file.bytes;
      if file.exists_ {
        var repaired := RepairTruncatedTail();
        if repaired.Failure? { return Failure(repaired.error); }
        var read := ReadAllRecords();
        if read.Failure? { return Failure(read.error); }
        records := read.value;
      } else {
        NothingToRead(codec);
      }
      CommittedAgain(before);
      ghost var base := file.bytes;
      r := ReconcileRecords(records, sequence, event, durable);
      ReconciledFromBase(codec, before, base, file.bytes, sequence, event.WithSequence(sequence), durable, r);
    }

    /** The decision, once the tail is repaired and the committed records are read. */
    method ReconcileRecords(records: Log, sequence: nat, event: AgentEvent, durable: bool) returns (r: Result<(), StoreError>)
      requires Valid() && file.bytes[..CommittedLength(file.bytes)] == file.bytes && ReadLog(codec, file.bytes) == Success(records)
      modifies this, file
      ensures Valid()
      ensures Reconciled(codec, old(file.bytes), file.bytes, sequence, event.WithSequence(sequence), durable, r)
      ensures FaultsExplain(old(file.faults), file.faults, ErrorOf(r))
      ensures r.Success? && durable ==> file.Durable() == |file.bytes|
    {
      hide ReadLog, Matching, MayAppend;
      var attempted := event.WithSequence(sequence);
      var unsequenced := exists i :: 0 <= i < |records| && records[i].sequence.None?;
      if unsequenced {
        return Failure(ReconciliationConflict(sequence, records, attempted));
      }
      var persisted := Matching(records, attempted, durable);
      if persisted == [attempted] {
        if durable {
          ScanNonEmpty(codec, file.bytes, records, attempted, durable);
          var ok := SyncExistingLog();
          if !ok { return Failure(AppendFailed); }
        }
        return Success(());
      }
      if persisted != [] {
        return Failure(ReconciliationConflict(sequence, persisted, attempted));
      }
      if sequence != |records| + 1 {
        return Failure(ReconciliationConflict(
          sequence, if records == [] then [] else [records[|records| - 1]], attempted));
      }
      r := AppendWithDurability(Some(sequence), event, durable);
    }
  }

  lemma NothingToRead(c: Codec)
    ensures ReadLog(c, []) == Success([])
  {
  }

  /** What is committed of the committed bytes is all of them. */
  lemma CommittedAgain(bytes: seq<byte>)
    ensures var base := bytes[..CommittedLength(bytes)]; base[..CommittedLength(base)] == base
  {
    var n := CommittedLength(bytes);
    CommittedLengthIs(bytes[..n], n);
  }

  /** A reconciliation of the repaired file is one of the file before the repair. */
  lemma ReconciledFromBase(
    c: Codec, before: seq<byte>, base: seq<byte>, after: seq<byte>, sequence: nat, attempted: AgentEvent, durable: bool, r: Result<(), StoreError>)
    requires base == before[..CommittedLength(before)] && base[..CommittedLength(base)] == base
    requires Reconciled(c, base, after, sequence, attempted, durable, r)
    ensures Reconciled(c, before, after, sequence, attempted, durable, r)
  {
    hide ReadLog, Matching, MayAppend, Conflicting;
  }

  // ---- reconciliation -----------------------------------------------------------------

  /** Two events that record the same durable step of a run. */
  predicate SameDurableIdentity(left: AgentEvent, right: AgentEvent) {
    && left.runId == right.runId
    && match (left.body, right.body)
       case (ToolCallRequested(_, _, a), ToolCallRequested(_, _, b)) => a.id == b.id
       case (ApprovalRequested(_, a), ApprovalRequested(_, b)) => a.id == b.id
       case (ApprovalResolved(_, a, _), ApprovalResolved(_, b, _)) => a == b
       case (ToolResult(_, a), ToolResult(_, b)) => a.callId == b.callId
       case (RunFinished(_), RunFinished(_)) => true
       case _ => false
  }

  predicate Matches(record: AgentEvent, attempted: AgentEvent, durable: bool) {
    record.sequence == attempted.sequence || (durable && SameDurableIdentity(record, attempted))
  }

  function Matching(records: Log, attempted: AgentEvent, durable: bool): Log {
    if records == [] then []
    else
      var rest := Matching(records[..|records| - 1], attempted, durable);
      var last := records[|records| - 1];
      if Matches(last, attempted, durable) then rest + [last] else rest
  }

  /**
   What a reconciliation may do. It only ever cuts off an unterminated tail and adds
   (part of) the attempted record; success leaves the record in place exactly once.
   */
  ghost predicate ReconcileEffect(
    c: Codec, before: seq<byte>, after: seq<byte>, sequence: nat, attempted: AgentEvent, durable: bool, ok: bool)
  {
    var base := before[..CommittedLength(before)];
    if ok then
      var read := ReadLog(c, base);
      && read.Success?
      && (forall i :: 0 <= i < |read.value| ==> read.value[i].sequence.Some?)
      && (|| (Matching(read.value, attempted, durable) == [attempted] && after == base)
          || (&& Matching(read.value, attempted, durable) == []
              && sequence == |read.value| + 1
              && MayAppend(c, base, Some(sequence))
              && after == base + Frame(c, attempted)))
    else
      || after == before
      || after == base
      || (Missing(c, base, sequence, attempted, durable)
          && exists k :: 0 <= k <= |Frame(c, attempted)| && after == base + Frame(c, attempted)[..k])
  }

  /** The committed records are numbered, none of them is the attempted one, and its number is the next. */
  ghost predicate Missing(c: Codec, base: seq<byte>, sequence: nat, attempted: AgentEvent, durable: bool) {
    && ReadLog(c, base).Success?
    && var records := ReadLog(c, base).value;
    && (forall i :: 0 <= i < |records| ==> records[i].sequence.Some?)
    && Matching(records, attempted, durable) == []
    && sequence == |records| + 1
    && MayAppend(c, base, Some(sequence))
  }

  /** The committed records a reconciliation cannot be squared with. */
  function Conflicting(records: Log, sequence: nat, attempted: AgentEvent, durable: bool): Option<Log> {
    var persisted := Matching(records, attempted, durable);
    if exists i :: 0 <= i < |records| && records[i].sequence.None? then Some(records)
    else if persisted == [attempted] then None
    else if persisted != [] then Some(persisted)
    else if sequence != |records| + 1 then Some(if records == [] then [] else [records[|records| - 1]])
    else None
  }

  /**
   Why a reconciliation fails: I/O, committed bytes no reader accepts, a conflict with what is
   committed, or a next number the file does not accept.
   */
  ghost predicate ReconcileRefused(c: Codec, before: seq<byte>, sequence: nat, attempted: AgentEvent, durable: bool, e: StoreError) {
    var base := before[..CommittedLength(before)];
    var read := ReadLog(c, base);
    || IoFailure(e)
    || (e.Unreadable? && read == Failure(e.error))
    || (e.ReconciliationConflict? && e.sequence == sequence && e.attempted == attempted
        && read.Success? && Conflicting(read.value, sequence, attempted, durable) == Some(e.persisted))
    || (e.UnexpectedSequence? && read.Success? && sequence == |read.value| + 1
        && Matching(read.value, attempted, durable) == [] && !MayAppend(c, base, Some(sequence)))
  }

  ghost predicate Reconciled(
    c: Codec, before: seq<byte>, after: seq<byte>, sequence: nat, attempted: AgentEvent, durable: bool, r: Result<(), StoreError>)
  {
    && ReconcileEffect(c, before, after, sequence, attempted, durable, r.Success?)
    && (r.Failure? ==> ReconcileRefused(c, before, sequence, attempted, durable, r.error))
  }

  lemma {:induction false} MatchingNone(records: Log, attempted: AgentEvent, durable: bool)
    ensures (forall i :: 0 <= i < |records| ==> !Matches(records[i], attempted, durable)) <==>
            Matching(records, attempted, durable) == []
  {
    if records != [] {
      var front := records[..|records| - 1];
      assert records == front + [records[|records| - 1]];
      MatchingNone(front, attempted, durable);
      if forall i :: 0 <= i < |records| ==> !Matches(records[i], attempted, durable) {
        assert forall i :: 0 <= i < |front| ==> front[i] == records[i];
      }
    }
  }

  lemma ScanNonEmpty(c: Codec, bytes: seq<byte>, records: Log, attempted: AgentEvent, durable: bool)
    requires ReadLog(c, bytes) == Success(records) && Matching(records, attempted, durable) != []
    ensures bytes != []
  {
  }

  lemma MatchingLast(log: Log, e: AgentEvent, durable: bool)
    requires e.sequence.Some? && forall i :: 0 <= i < |log| ==> !Matches(log[i], e, durable)
    ensures Matching(log + [e], e, durable) == [e]
  {
    MatchingNone(log, e, durable);
    assert (log + [e])[..|log|] == log;
  }

  /** The attempted record is already complete. */
  lemma RecordComplete(c: Codec, log: Log, e: AgentEvent, durable: bool)
    requires c.Lawful() && Sequenced(log) && |log| < U64_MAX && e.sequence == Some(|log| + 1)
    requires durable ==> forall i :: 0 <= i < |log| ==> !SameDurableIdentity(log[i], e)
    ensures var bytes := FrameAll(c, log) + Frame(c, e);
      && bytes[..CommittedLength(bytes)] == bytes
      && ReadLog(c, bytes) == Success(log + [e]) && Matching(log + [e], e, durable) == [e]
  {
    var bytes := FrameAll(c, log) + Frame(c, e);
    FrameAllSnoc(c, log, e);
    assert bytes + [] == bytes;
    assert Holds(c, bytes, log + [e], []);
    HoldsCommitted(c, bytes, log + [e], []);
    ReadBack(c, bytes, log + [e], []);
    assert forall i :: 0 <= i < |log| ==> !Matches(log[i], e, durable);
    MatchingLast(log, e, durable);
  }

  /** Only a proper prefix of the attempted record was written. */
  lemma RecordTorn(c: Codec, log: Log, e: AgentEvent, k: nat, durable: bool)
    requires c.Lawful() && Sequenced(log) && |log| < U64_MAX && e.sequence == Some(|log| + 1)
    requires k < |Frame(c, e)|
    requires durable ==> forall i :: 0 <= i < |log| ==> !SameDurableIdentity(log[i], e)
    ensures var bytes := FrameAll(c, log) + Frame(c, e)[..k];
      && bytes[..CommittedLength(bytes)] == FrameAll(c, log)
      && ReadLog(c, FrameAll(c, log)) == Success(log) && Matching(log, e, durable) == []
  {
    var bytes, torn := FrameAll(c, log) + Frame(c, e)[..k], Frame(c, e)[..k];
    MatchingNone(log, e, durable);
    assert torn == c.encode(e)[..k];
    assert Holds(c, bytes, log, torn);
    HoldsCommitted(c, bytes, log, torn);
    assert FrameAll(c, log) + [] == FrameAll(c, log);
    ReadBack(c, FrameAll(c, log), log, []);
  }

  /** A sequenced log accepts its next number. */
  lemma NextAccepted(c: Codec, log: Log)
    requires c.Lawful() && Sequenced(log) && |log| < U64_MAX
    ensures ReadLog(c, FrameAll(c, log)) == Success(log) && MayAppend(c, FrameAll(c, log), Some(|log| + 1))
  {
    assert FrameAll(c, log) + [] == FrameAll(c, log);
    ReadBack(c, FrameAll(c, log), log, []);
    FastPathAgrees(c, FrameAll(c, log));
  }

  /** Where the record is found committed, a reconciliation changes nothing. */
  lemma ReconcileFound(c: Codec, bytes: seq<byte>, records: Log, sequence: nat, e: AgentEvent, after: seq<byte>, durable: bool, r: Result<(), StoreError>)
    requires bytes[..CommittedLength(bytes)] == bytes && ReadLog(c, bytes) == Success(records)
    requires Matching(records, e, durable) == [e] && forall i :: 0 <= i < |records| ==> records[i].sequence.Some?
    requires Reconciled(c, bytes, after, sequence, e, durable, r)
    ensures after == bytes
    ensures r.Failure? ==> IoFailure(r.error)
  {
  }

  /** With the record complete, a reconciliation changes nothing. */
  lemma ReconcileComplete(c: Codec, log: Log, e: AgentEvent, after: seq<byte>, durable: bool, r: Result<(), StoreError>)
    requires c.Lawful() && Sequenced(log) && |log| < U64_MAX && e.sequence == Some(|log| + 1)
    requires durable ==> forall i :: 0 <= i < |log| ==> !SameDurableIdentity(log[i], e)
    requires Reconciled(c, FrameAll(c, log) + Frame(c, e), after, |log| + 1, e, durable, r)
    ensures after == FrameAll(c, log) + Frame(c, e)
    ensures r.Failure? ==> IoFailure(r.error)
  {
    RecordComplete(c, log, e, durable);
    ReconcileFound(c, FrameAll(c, log) + Frame(c, e), log + [e], |log| + 1, e, after, durable, r);
  }

  /** With the record torn or missing, a reconciliation completes it or leaves it torn or missing. */
  lemma ReconcileTorn(c: Codec, log: Log, e: AgentEvent, k: nat, after: seq<byte>, durable: bool, r: Result<(), StoreError>) returns (j: nat)
    requires c.Lawful() && Sequenced(log) && |log| < U64_MAX && e.sequence == Some(|log| + 1)
    requires k < |Frame(c, e)|
    requires durable ==> forall i :: 0 <= i < |log| ==> !SameDurableIdentity(log[i], e)
    requires Reconciled(c, FrameAll(c, log) + Frame(c, e)[..k], after, |log| + 1, e, durable, r)
    ensures r.Success? ==> after == FrameAll(c, log) + Frame(c, e)
    ensures r.Failure? ==> IoFailure(r.error)
    ensures j <= |Frame(c, e)| && after == FrameAll(c, log) + Frame(c, e)[..j]
  {
    RecordTorn(c, log, e, k, durable);
    NextAccepted(c, log);
    var base, frame := FrameAll(c, log), Frame(c, e);
    assert base + frame[..0] == base && frame[..|frame|] == frame;
    if r.Success? {
      j := |frame|;
    } else if after == base + frame[..k] {
      j := k;
    } else if after == base {
      j := 0;
    } else {
      j :| 0 <= j <= |frame| && after == base + frame[..j];
    }
  }

  /**
   Exactly once. After a missing, torn or complete write of the next record, a reconciliation
   leaves the old log plus that record, once, or fails by I/O alone and leaves the file in the same
   family, so that it can be repeated. With the record complete, repeating it changes nothing.
   */
  lemma ReconcileExactlyOnce(c: Codec, log: Log, e: AgentEvent, k: nat, after: seq<byte>, durable: bool, r: Result<(), StoreError>)
    requires c.Lawful() && Sequenced(log) && |log| < U64_MAX && e.sequence == Some(|log| + 1)
    requires k <= |Frame(c, e)|
    requires durable ==> forall i :: 0 <= i < |log| ==> !SameDurableIdentity(log[i], e)
    requires Reconciled(c, FrameAll(c, log) + Frame(c, e)[..k], after, |log| + 1, e, durable, r)
    ensures r.Success? || k == |Frame(c, e)| ==> after == FrameAll(c, log + [e])
    ensures r.Failure? ==> IoFailure(r.error)
    ensures exists j :: 0 <= j <= |Frame(c, e)| && after == FrameAll(c, log) + Frame(c, e)[..j]
  {
    FrameAllSnoc(c, log, e);
    if k == |Frame(c, e)| {
      assert Frame(c, e)[..k] == Frame(c, e);
      ReconcileComplete(c, log, e, after, durable, r);
    } else {
      var j := ReconcileTorn(c, log, e, k, after, durable, r);
    }
  }

  /** A durable identity that is already recorded elsewhere is refused as a conflict, unless I/O fails first; no record is added. */
  lemma ReconcileRefusesRepeatedIdentity(
    c: Codec, log: Log, tail: seq<byte>, e: AgentEvent, i: nat, after: seq<byte>, r: Result<(), StoreError>)
    requires c.Lawful() && Sequenced(log) && Holds(c, FrameAll(c, log) + tail, log, tail)
    requires i < |log| && SameDurableIdentity(log[i], e) && log[i] != e
    requires Reconciled(c, FrameAll(c, log) + tail, after, |log| + 1, e, true, r)
    ensures r.Failure? && (r.error.ReconciliationConflict? || IoFailure(r.error))
    ensures r.error.ReconciliationConflict? ==> log[i] in r.error.persisted
    ensures after == FrameAll(c, log) + tail || after == FrameAll(c, log)
  {
    var bytes := FrameAll(c, log) + tail;
    HoldsCommitted(c, bytes, log, tail);
    assert FrameAll(c, log) + [] == FrameAll(c, log);
    ReadBack(c, FrameAll(c, log), log, []);
    MatchingMember(log, e, true, i);
  }

  lemma {:induction false} MatchingMember(records: Log, attempted: AgentEvent, durable: bool, i: nat)
    requires i < |records| && Matches(records[i], attempted, durable)
    ensures records[i] in Matching(records, attempted, durable)
  {
    if i < |records| - 1 {
      MatchingMember(records[..|records| - 1], attempted, durable, i);
    }
  }

  /** Whatever happens, no committed record is removed or altered and at most one is added. */
  lemma ReconcilePreserves(
    c: Codec, before: seq<byte>, after: seq<byte>, log: Log, tail: seq<byte>, sequence: nat, e: AgentEvent, durable: bool, ok: bool)
    requires c.Lawful() && Holds(c, before, log, tail) && e.sequence == Some(sequence)
    requires ReconcileEffect(c, before, after, sequence, e, durable, ok)
    ensures exists tail' :: Holds(c, after, log, tail') || Holds(c, after, log + [e], tail')
  {
    HoldsCommitted(c, before, log, tail);
    var base := FrameAll(c, log);
    assert base + [] == base;
    assert Holds(c, base, log, []);
    if after == before {
      assert Holds(c, after, log, tail);
    } else if after == base {
      assert Holds(c, after, log, []);
    } else {
      assert Frame(c, e)[..|Frame(c, e)|] == Frame(c, e);
      var k :| 0 <= k <= |Frame(c, e)| && after == base + Frame(c, e)[..k];
      AppendKeepsLog(c, base, log, [], e, k);
    }
  }

  /** The same for one append: the log grows by the record or not at all. */
  lemma AppendPreserves(c: Codec, before: seq<byte>, after: seq<byte>, log: Log, tail: seq<byte>, e: AgentEvent, ok: bool)
    requires c.Lawful() && Holds(c, before, log, tail) && AppendEffect(c, before, after, e, ok)
    ensures tail != [] ==> !ok && after == before
    ensures ok ==> Holds(c, after, log + [e], [])
    ensures exists tail' :: Holds(c, after, log, tail') || Holds(c, after, log + [e], tail')
  {
    if after == before && !ok {
      assert Holds(c, after, log, tail);
    } else {
      assert Frame(c, e)[..|Frame(c, e)|] == Frame(c, e);
      var k :| 0 <= k <= |Frame(c, e)| && after == before + Frame(c, e)[..k] && (ok ==> k == |Frame(c, e)|);
      AppendKeepsLog(c, before, log, tail, e, k);
    }
  }
}

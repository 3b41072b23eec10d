/**
 The atomic patch commit (crates/capability-coding/src/workspace.rs): staging, publication by
 rename or exchange, cleanup and recovery evidence, under interference before every system call.
 Random names are taken not to collide with the target's own name.
 */
module PatchCommit {
  import opened Prelude
  import opened FileSlots

  const RECOVERY_DIRECTORY := ".young-agent-recovery"
  const GITIGNORE := ".gitignore"
  const MAX_FILE_SNAPSHOT_BYTES: nat := 32 * 1024 * 1024
  const NAME_ATTEMPTS: nat := 100

  datatype PublishedRecovery =
    | LocatedVerified(path: string)
    | LocatedContentUnverified(path: string)
    | LocatedPolicyUnverified(path: string)
    | LocatedContentAndPolicyUnverified(path: string)
    | Unlocated

  /** An I/O error, which may carry where owned staging data was preserved. */
  datatype IoError = IoError(kind: Errno, recovery: Option<PublishedRecovery>)

  datatype StagedFile = StagedFile(name: string, inode: nat, snapshot: Snapshot)

  // ---- what may happen to the target ----------------------------------------------------------

  /** The step leaves the target slot alone, or makes the recovery directory where the target has that name. */
  predicate Quiet(step: Step, target: Slot) {
    Touches(step.action, target) ==> step.action == MakeDirectory(Slot(target.dir, RECOVERY_DIRECTORY))
  }

  ghost predicate QuietBetween(steps: seq<Step>, n: nat, m: nat, target: Slot)
    requires m <= |steps|
  {
    forall k :: n <= k < m ==> Quiet(steps[k], target)
  }

  ghost predicate QuietFrom(steps: seq<Step>, n: nat, target: Slot) {
    QuietBetween(steps, n, |steps|, target)
  }

  /** No step since touched the target slot. */
  ghost predicate UntouchedFrom(steps: seq<Step>, n: nat, target: Slot) {
    forall k :: n <= k < |steps| ==> !Touches(steps[k].action, target)
  }

  /** Undisturbed, an occupied target keeps its file, and no step touches its slot, whatever its name. */
  twostate predicate KeepsOccupied(fs: FileSystem, target: Slot)
    reads fs
  {
    !fs.disturbed && target in old(fs.now.slots) ==>
      && target in fs.now.slots && fs.now.slots[target] == old(fs.now.slots)[target]
      && UntouchedFrom(fs.steps, |old(fs.steps)|, target)
  }

  /** The protocol has gone on without publishing. */
  twostate predicate Unpublished(fs: FileSystem, target: Slot)
    reads fs
  {
    fs.Continues() && QuietFrom(fs.steps, |old(fs.steps)|, target) && KeepsOccupied(fs, target)
  }

  ghost predicate HeldFrom(fs: FileSystem, n: nat, slot: Slot, snapshot: Snapshot)
    reads fs
  {
    exists k :: n <= k < |fs.moments| && Held(fs.moments[k], slot, snapshot)
  }

  // ---- observations -------------------------------------------------------------------------------

  /** A check of ownership, links or security metadata that the model does not describe. */
  method OtherCheck() returns (error: Option<Errno>)
    ensures error.Some? ==> error.value == Other
  {
    var fails: bool := *;
    return if fails then Some(Other) else None;
  }

  /** `file_snapshot`: metadata, content, metadata again. */
  method TakeSnapshot(fs: FileSystem, inode: nat) returns (r: Result<Snapshot, Errno>)
    requires fs.Valid() && IsFile(fs.now, inode)
    modifies fs
    ensures fs.Observes()
    ensures r.Success? ==> r.value.inode == inode && Taken(fs.now, r.value)
  {
    fs.Interfere();
    var before := fs.now.nodes[inode];
    if |before.content| > MAX_FILE_SNAPSHOT_BYTES { return Failure(Other); }
    fs.Interfere();
    var read := fs.now.nodes[inode].content;
    var fails: bool := *;
    if fails { return Failure(Other); }
    fs.Interfere();
    var after := fs.now.nodes[inode];
    if before.meta != after.meta || before.changed != after.changed { return Failure(WouldBlock); }
    return Success(Snapshot(inode, read, after.meta, after.changed));
  }

  /** `refresh_snapshot_after_rename`. */
  method RefreshSnapshotAfterRename(fs: FileSystem, inode: nat, snapshot: Snapshot) returns (r: Result<Snapshot, Errno>)
    requires fs.Valid() && IsFile(fs.now, inode)
    modifies fs
    ensures fs.Observes()
    ensures r.Success? ==> r.value.inode == inode && SamePayload(r.value, snapshot) && Taken(fs.now, r.value)
  {
    var insecure := OtherCheck();
    if insecure.Some? { return Failure(insecure.value); }
    var refreshed := TakeSnapshot(fs, inode);
    if refreshed.Success? && !SamePayload(refreshed.value, snapshot) { return Failure(WouldBlock); }
    return refreshed;
  }

  /** `symlink_metadata` of a slot: the inode of the regular file it names. */
  method InspectEntry(fs: FileSystem, slot: Slot) returns (r: Result<nat, Errno>)
    requires fs.Valid()
    modifies fs
    ensures fs.Observes() && |fs.moments| > |old(fs.moments)| && fs.moments[|fs.moments| - 1] == fs.now
    ensures r.Success? ==> slot in fs.now.slots && fs.now.slots[slot] == r.value && IsFile(fs.now, r.value)
  {
    fs.Interfere();
    var fails: bool := *;
    if fails { return Failure(Other); }
    if slot !in fs.now.slots { return Failure(NotFound); }
    if !fs.now.nodes[fs.now.slots[slot]].Regular? { return Failure(InvalidInput); }
    return Success(fs.now.slots[slot]);
  }

  /** Opening a regular file without following symbolic links. */
  method OpenRegular(fs: FileSystem, slot: Slot) returns (r: Result<nat, Errno>)
    requires fs.Valid()
    modifies fs
    ensures fs.Observes()
    ensures r.Success? ==> slot in fs.now.slots && fs.now.slots[slot] == r.value && IsFile(fs.now, r.value)
  {
    fs.Interfere();
    var fails: bool := *;
    if fails { return Failure(Other); }
    if slot !in fs.now.slots { return Failure(NotFound); }
    var inode := fs.now.slots[slot];
    if fs.now.nodes[inode].Symlink? { return Failure(Loop); }
    if fs.now.nodes[inode].Directory? { return Failure(InvalidInput); }
    return Success(inode);
  }

  /**
   `validate_snapshot_slot`: entry, open file, entry again, then the metadata of the open file.
   For a snapshot that was right when taken, success means the slot held exactly that file.
   */
  method ValidateSnapshotSlot(fs: FileSystem, slot: Slot, expected: Snapshot) returns (error: Option<Errno>)
    requires fs.Valid()
    modifies fs
    ensures fs.Observes()
    ensures error.None? && Taken(old(fs.now), expected) ==> HeldFrom(fs, |old(fs.moments)|, slot, expected)
    ensures error.None? && Taken(old(fs.now), expected) && !fs.disturbed ==> Held(fs.now, slot, expected)
  {
    ghost var start := fs.now;
    var entry := OpenEntry(fs, slot);
    if entry.Failure? { return Some(entry.error); }
    ghost var k, at := |fs.moments| - 1, fs.now;
    error := OtherCheck();
    if error.Some? { return; }
    fs.Interfere();
    var node := fs.now.nodes[entry.value];
    if entry.value != expected.inode || node.meta != expected.meta || node.changed != expected.changed { return Some(WouldBlock); }
    if Taken(start, expected) {
      HeldBetween(start, at, fs.now, slot, expected);
      assert fs.moments[k] == at;
    }
    return None;
  }

  /** The entry before, the open file and the entry after are one and the same regular file. */
  method OpenEntry(fs: FileSystem, slot: Slot) returns (r: Result<nat, Errno>)
    requires fs.Valid()
    modifies fs
    ensures fs.Observes()
    ensures r.Success? ==>
      && |fs.moments| > |old(fs.moments)| && fs.moments[|fs.moments| - 1] == fs.now
      && slot in fs.now.slots && fs.now.slots[slot] == r.value && IsFile(fs.now, r.value)
  {
    var before := InspectEntry(fs, slot);
    if before.Failure? { return before; }
    var handle := OpenRegular(fs, slot);
    if handle.Failure? { return handle; }
    var after := InspectEntry(fs, slot);
    if after.Failure? { return after; }
    if before.value != handle.value || after.value != handle.value { return Failure(WouldBlock); }
    return after;
  }

  // ---- the recovery namespace ----------------------------------------------------------------------

  ghost predicate NamespaceSeen(fs: FileSystem, n: nat, parent: nat, dir: nat)
    reads fs
  {
    exists k :: n <= k < |fs.moments| && NamesRecovery(fs.moments[k], parent, dir)
  }

  predicate NamesRecovery(s: FsState, parent: nat, dir: nat) {
    var slot := Slot(parent, RECOVERY_DIRECTORY);
    slot in s.slots && s.slots[slot] == dir
  }

  /** A directory never contains itself, so the recovery directory is not its own parent. */
  method OpenRecoveryDirectorySlot(fs: FileSystem, parent: nat) returns (r: Result<nat, Errno>)
    requires fs.Valid()
    modifies fs
    ensures fs.Observes()
    ensures r.Success? ==> r.value != parent && NamespaceSeen(fs, |old(fs.moments)|, parent, r.value)
    ensures r.Success? && !fs.disturbed ==> NamesRecovery(fs.now, parent, r.value)
  {
    fs.Interfere();
    var fails: bool := *;
    if fails { return Failure(Other); }
    var slot := Slot(parent, RECOVERY_DIRECTORY);
    if slot !in fs.now.slots { return Failure(NotFound); }
    var dir := fs.now.slots[slot];
    if !fs.now.nodes[dir].Directory? || dir == parent { return Failure(InvalidInput); }
    assert NamesRecovery(fs.moments[|fs.moments| - 1], parent, dir);
    return Success(dir);
  }

  /** `ensure_recovery_gitignore`: creates the ignore rule, or checks the one that is there. */
  method EnsureRecoveryGitignore(fs: FileSystem, dir: nat, target: Slot) returns (error: Option<Errno>)
    requires fs.Valid() && dir != target.dir
    modifies fs
    ensures Unpublished(fs, target) && fs.Adds()
  {
    var slot := Slot(dir, GITIGNORE);
    var file := fs.CreateNew(slot);
    if file.Success? {
      error := fs.WriteOwn(file.value, [42, NEWLINE]);
      return;
    }
    if file.error != AlreadyExists { return Some(file.error); }
    var handle := OpenRegular(fs, slot);
    if handle.Failure? { return Some(handle.error); }
    fs.Interfere();
    return if fs.now.nodes[handle.value].content == [42, NEWLINE] then None else Some(Other);
  }

  method OpenRecoveryNamespace(fs: FileSystem, target: Slot) returns (r: Result<nat, Errno>)
    requires fs.Valid()
    modifies fs
    ensures Unpublished(fs, target)
    ensures r.Success? ==> r.value != target.dir
  {
    var error := fs.CreateDir(Slot(target.dir, RECOVERY_DIRECTORY));
    if error.Some? && error.value != AlreadyExists { return Failure(error.value); }
    r := OpenRecoveryDirectorySlot(fs, target.dir);
    if r.Failure? { return; }
    error := EnsureRecoveryGitignore(fs, r.value, target);
    if error.Some? { return Failure(error.value); }
  }

  datatype NamespaceCheck = Intact | IdentityChanged(kind: Errno) | PolicyFailed(kind: Errno)

  method ValidateRecoveryNamespaceSlot(fs: FileSystem, recovery: nat, target: Slot) returns (check: NamespaceCheck)
    requires fs.Valid() && recovery != target.dir
    modifies fs
    ensures Unpublished(fs, target) && fs.Adds()
    ensures !check.IdentityChanged? ==> NamespaceSeen(fs, |old(fs.moments)|, target.dir, recovery)
    ensures !check.IdentityChanged? && !fs.disturbed ==> NamesRecovery(fs.now, target.dir, recovery)
  {
    var slot := OpenRecoveryDirectorySlot(fs, target.dir);
    if slot.Failure? { return IdentityChanged(WouldBlock); }
    var inspection := OtherCheck();
    if inspection.Some? { return IdentityChanged(inspection.value); }
    if slot.value != recovery { return IdentityChanged(WouldBlock); }
    var policy := EnsureRecoveryGitignore(fs, recovery, target);
    return if policy.Some? then PolicyFailed(policy.value) else Intact;
  }

  // ---- recovery evidence ---------------------------------------------------------------------------------

  /** The slot holds the file of the snapshot with its content, whatever its change time. */
  predicate HoldsPayload(s: FsState, slot: Slot, snapshot: Snapshot) {
    && slot in s.slots && s.slots[slot] == snapshot.inode && IsFile(s, snapshot.inode)
    && s.nodes[snapshot.inode].content == snapshot.content && s.nodes[snapshot.inode].meta == snapshot.meta
  }

  ghost predicate PayloadSeen(fs: FileSystem, n: nat, slot: Slot, snapshot: Snapshot)
    reads fs
  {
    exists k :: n <= k < |fs.moments| && HoldsPayload(fs.moments[k], slot, snapshot)
  }

  /**
   What recovery evidence means: the recovery slot of the target's directory named a directory,
   and, where the content is called verified, that directory's slot held exactly the expected file.
   */
  ghost predicate EvidenceHolds(fs: FileSystem, n: nat, evidence: PublishedRecovery, parent: nat, expected: Snapshot)
    reads fs
  {
    match evidence
    case LocatedVerified(path) =>
      exists dir :: NamespaceSeen(fs, n, parent, dir) && PayloadSeen(fs, n, Slot(dir, path), expected)
    case LocatedPolicyUnverified(path) =>
      exists dir :: NamespaceSeen(fs, n, parent, dir) && PayloadSeen(fs, n, Slot(dir, path), expected)
    case LocatedContentUnverified(_) => exists dir :: NamespaceSeen(fs, n, parent, dir)
    case LocatedContentAndPolicyUnverified(_) => exists dir :: NamespaceSeen(fs, n, parent, dir)
    case Unlocated => true
  }

  /** Evidence gathered later is evidence for any earlier start. */
  lemma EvidenceEarlier(fs: FileSystem, n: nat, m: nat, evidence: PublishedRecovery, parent: nat, expected: Snapshot)
    requires n <= m && EvidenceHolds(fs, m, evidence, parent, expected)
    ensures EvidenceHolds(fs, n, evidence, parent, expected)
  {
    if !evidence.Unlocated? {
      var dir :| NamespaceSeen(fs, m, parent, dir)
        && (evidence.LocatedVerified? || evidence.LocatedPolicyUnverified? ==> PayloadSeen(fs, m, Slot(dir, evidence.path), expected));
      assert NamespaceSeen(fs, n, parent, dir);
      if PayloadSeen(fs, m, Slot(dir, evidence.path), expected) {
        assert PayloadSeen(fs, n, Slot(dir, evidence.path), expected);
      }
    }
  }

  datatype ContentEvidence = Verified | InspectionFailed | Mismatch

  /** `recovery_content_failure_kind`. */
  function FailureKind(error: Errno): ContentEvidence {
    match error
    case Other => InspectionFailed
    case AlreadyExists => InspectionFailed
    case _ => Mismatch
  }

  method InspectPreservedRecoveryContent(fs: FileSystem, slot: Slot, inode: nat, expected: Snapshot) returns (content: ContentEvidence)
    requires fs.Valid() && IsFile(fs.now, inode)
    modifies fs
    ensures fs.Observes()
    ensures content == Verified ==> PayloadSeen(fs, |old(fs.moments)|, slot, expected)
  {
    var refreshed := RefreshSnapshotAfterRename(fs, inode, expected);
    if refreshed.Failure? { return FailureKind(refreshed.error); }
    ghost var n := |fs.moments|;
    var error := ValidateSnapshotSlot(fs, slot, refreshed.value);
    if error.Some? { return FailureKind(error.value); }
    ghost var k :| n <= k < |fs.moments| && Held(fs.moments[k], slot, refreshed.value);
    assert HoldsPayload(fs.moments[k], slot, expected);
    return Verified;
  }

  /** `preserved_recovery_evidence`: the namespace before, the content, the namespace after. */
  method PreservedRecoveryEvidence(fs: FileSystem, recovery: nat, name: string, inode: nat, expected: Snapshot, target: Slot)
    returns (evidence: PublishedRecovery)
    requires fs.Valid() && IsFile(fs.now, inode) && recovery != target.dir
    modifies fs
    ensures Unpublished(fs, target)
    ensures EvidenceHolds(fs, |old(fs.moments)|, evidence, target.dir, expected)
    ensures evidence.Unlocated? || evidence.path == name
  {
    ghost var n := |fs.moments|;
    var before := ValidateRecoveryNamespaceSlot(fs, recovery, target);
    if before.IdentityChanged? { return Unlocated; }
    ghost var seen := fs.moments;
    var content := InspectPreservedRecoveryContent(fs, Slot(recovery, name), inode, expected);
    if content == Mismatch { return Unlocated; }
    var after := ValidateRecoveryNamespaceSlot(fs, recovery, target);
    if after.IdentityChanged? { return Unlocated; }
    assert NamespaceSeen(fs, n, target.dir, recovery);
    assert content == Verified ==> PayloadSeen(fs, n, Slot(recovery, name), expected);
    match (content, before.Intact? && after.Intact?)
    case (Verified, true) => return LocatedVerified(name);
    case (Verified, false) => return LocatedPolicyUnverified(name);
    case (InspectionFailed, true) => return LocatedContentUnverified(name);
    case (_, _) => return LocatedContentAndPolicyUnverified(name);
  }

  // ---- renames to random names ------------------------------------------------------------------------

  method RandomPatchPath(kind: string, target: Slot) returns (name: Option<string>)
    ensures name.Some? ==> name.value != target.name && name.value != RECOVERY_DIRECTORY
  {
    var nonce: string := *;
    var drawn := ".young-agent-patch-" + (kind + "-" + nonce + ".tmp");
    if drawn == target.name { return None; }
    assert drawn[13] == 'p' && RECOVERY_DIRECTORY[13] == 'r';
    return Some(drawn);
  }

  /** `claim_path` and `move_to_recovery_namespace`: a rename to a fresh random name in `dir`. */
  method MoveToRandom(fs: FileSystem, from: Slot, dir: nat, kind: string, target: Slot) returns (r: Result<string, Errno>)
    requires fs.Valid() && from != target
    modifies fs
    ensures Unpublished(fs, target)
    ensures r.Success? ==> r.value != target.name
  {
    for i := 0 to NAME_ATTEMPTS
      invariant Unpublished(fs, target)
    {
      var name := RandomPatchPath(kind, target);
      if name.None? { return Failure(Other); }
      var error := fs.RenameNoReplace(from, Slot(dir, name.value));
      if error.None? { return Success(name.value); }
      if error.value != AlreadyExists { return Failure(error.value); }
    }
    return Failure(AlreadyExists);
  }

  // ---- cleanup ----------------------------------------------------------------------------------------------

  /** Is the claimed entry still the staging file, with the expected content? */
  method ClaimedStagingMatches(fs: FileSystem, claimed: Slot, inode: nat, expected: Snapshot) returns (r: Result<bool, Errno>)
    requires fs.Valid() && IsFile(fs.now, inode)
    modifies fs
    ensures fs.Observes()
  {
    var handle := OpenRegular(fs, claimed);
    if handle.Failure? { return Failure(handle.error); }
    var insecure := OtherCheck();
    if insecure.Some? { return Success(false); }
    var retained := TakeSnapshot(fs, inode);
    if retained.Failure? { return Failure(retained.error); }
    var found := TakeSnapshot(fs, handle.value);
    if found.Failure? { return Failure(found.error); }
    return Success(SamePayload(retained.value, expected) && SamePayload(found.value, expected));
  }

  /**
   `cleanup_expected_staging_after_error`: claims the staging entry by renaming it; puts it back when
   it is not the protocol's own file; else moves it to the recovery directory. It unlinks nothing.
   */
  method CleanupExpectedStaging(fs: FileSystem, name: string, inode: nat, expected: Snapshot, source: Errno, target: Slot)
    returns (error: IoError)
    requires fs.Valid() && IsFile(fs.now, inode) && name != target.name
    modifies fs
    ensures Unpublished(fs, target)
    ensures error.recovery.Some? ==> EvidenceHolds(fs, |old(fs.moments)|, error.recovery.value, target.dir, expected)
  {
    ghost var n := |fs.moments|;
    var claimed := MoveToRandom(fs, Slot(target.dir, name), target.dir, "cleanup", target);
    if claimed.Failure? {
      return IoError(if claimed.error == NotFound then source else claimed.error, None);
    }
    ghost var m := |fs.moments|;
    error := CleanupClaimed(fs, name, claimed.value, inode, expected, source, target);
    if error.recovery.Some? { EvidenceEarlier(fs, n, m, error.recovery.value, target.dir, expected); }
  }

  /** The claimed entry goes back unless it is the protocol's own file. */
  method CleanupClaimed(fs: FileSystem, name: string, claimed: string, inode: nat, expected: Snapshot, source: Errno, target: Slot)
    returns (error: IoError)
    requires fs.Valid() && IsFile(fs.now, inode) && name != target.name && claimed != target.name
    modifies fs
    ensures Unpublished(fs, target)
    ensures error.recovery.Some? ==> EvidenceHolds(fs, |old(fs.moments)|, error.recovery.value, target.dir, expected)
  {
    ghost var n := |fs.moments|;
    var matches := ClaimedStagingMatches(fs, Slot(target.dir, claimed), inode, expected);
    if matches != Success(true) {
      var restored := fs.RenameNoReplace(Slot(target.dir, claimed), Slot(target.dir, name));
      return IoError(if restored.Some? then restored.value else WouldBlock, None);
    }
    ghost var m := |fs.moments|;
    error := PreserveClaimed(fs, claimed, inode, expected, source, target);
    if error.recovery.Some? { EvidenceEarlier(fs, n, m, error.recovery.value, target.dir, expected); }
  }

  /** `move_claimed_to_recovery_namespace`. */
  method MoveClaimed(fs: FileSystem, claimed: string, target: Slot) returns (r: Result<(nat, string), Errno>)
    requires fs.Valid() && claimed != target.name
    modifies fs
    ensures Unpublished(fs, target)
    ensures r.Success? ==> r.value.0 != target.dir
  {
    var recovery := OpenRecoveryNamespace(fs, target);
    if recovery.Failure? { return Failure(recovery.error); }
    var moved := MoveToRandom(fs, Slot(target.dir, claimed), recovery.value, "failed", target);
    if moved.Failure? { return Failure(moved.error); }
    return Success((recovery.value, moved.value));
  }

  /** Owned staging data goes to the recovery directory, with evidence. */
  method PreserveClaimed(fs: FileSystem, claimed: string, inode: nat, expected: Snapshot, source: Errno, target: Slot)
    returns (error: IoError)
    requires fs.Valid() && IsFile(fs.now, inode) && claimed != target.name
    modifies fs
    ensures Unpublished(fs, target)
    ensures error.recovery.Some? ==> EvidenceHolds(fs, |old(fs.moments)|, error.recovery.value, target.dir, expected)
  {
    ghost var n := |fs.moments|;
    var moved := MoveClaimed(fs, claimed, target);
    if moved.Failure? { return IoError(moved.error, None); }
    ghost var m := |fs.moments|;
    var evidence := PreservedRecoveryEvidence(fs, moved.value.0, moved.value.1, inode, expected, target);
    EvidenceEarlier(fs, n, m, evidence, target.dir, expected);
    return IoError(source, Some(evidence));
  }

  // ---- staging --------------------------------------------------------------------------------------------------

  /** The writes and checks on the open staging file. */
  method FillStaging(fs: FileSystem, inode: nat, content: seq<byte>, replacement: bool, target: Slot)
    returns (error: Option<Errno>)
    requires fs.Valid() && IsFile(fs.now, inode) && inode in fs.created
    modifies fs
    ensures Unpublished(fs, target)
  {
    if replacement {
      error := OtherCheck();
      if error.Some? { return; }
    }
    error := fs.WriteOwn(inode, content);
    if error.Some? { return; }
    if replacement {
      fs.Interfere();
      error := fs.WriteOwn(inode, fs.now.nodes[inode].content);
      if error.Some? { return; }
    }
    error := OtherCheck();
  }

  /** Metadata before and after, with the digest of the content that was to be written. */
  method SnapshotFromContent(fs: FileSystem, inode: nat, content: seq<byte>) returns (r: Result<Snapshot, Errno>)
    requires fs.Valid() && IsFile(fs.now, inode)
    modifies fs
    ensures fs.Observes()
    ensures r.Success? ==> r.value.inode == inode && r.value.content == content
  {
    fs.Interfere();
    var before := fs.now.nodes[inode];
    if |before.content| != |content| { return Failure(WouldBlock); }
    fs.Interfere();
    var after := fs.now.nodes[inode];
    if before.meta != after.meta || before.changed != after.changed { return Failure(WouldBlock); }
    return Success(Snapshot(inode, content, after.meta, after.changed));
  }

  /** Everything done on the open staging file, up to its snapshot. */
  method FillAndSnapshot(fs: FileSystem, inode: nat, content: seq<byte>, replacement: bool, target: Slot) returns (r: Result<Snapshot, Errno>)
    requires fs.Valid() && IsFile(fs.now, inode) && inode in fs.created
    modifies fs
    ensures Unpublished(fs, target)
    ensures r.Success? ==> r.value.inode == inode && r.value.content == content
  {
    var filled := FillStaging(fs, inode, content, replacement, target);
    if filled.Some? { return Failure(filled.value); }
    r := SnapshotFromContent(fs, inode, content);
  }

  /** `cleanup_open_staging_after_error`; `kept` is the content the evidence is about. */
  method CleanupOpenStaging(fs: FileSystem, name: string, inode: nat, source: Errno, target: Slot)
    returns (error: IoError, ghost kept: Snapshot)
    requires fs.Valid() && IsFile(fs.now, inode) && name != target.name
    modifies fs
    ensures Unpublished(fs, target)
    ensures error.recovery.Some? ==>
      kept.inode == inode && EvidenceHolds(fs, |old(fs.moments)|, error.recovery.value, target.dir, kept)
  {
    kept := Snapshot(inode, [], 0, 0);
    ghost var n := |fs.moments|;
    var expected := TakeSnapshot(fs, inode);
    if expected.Failure? { return IoError(WouldBlock, None), kept; }
    kept := expected.value;
    ghost var m := |fs.moments|;
    error := CleanupExpectedStaging(fs, name, inode, expected.value, source, target);
    if error.recovery.Some? { EvidenceEarlier(fs, n, m, error.recovery.value, target.dir, kept); }
  }

  /** `stage_content`: a new file beside the target, never the target itself. */
  method StageContent(fs: FileSystem, content: seq<byte>, replacement: bool, target: Slot)
    returns (staged: Result<StagedFile, IoError>, ghost kept: Snapshot)
    requires fs.Valid()
    modifies fs
    ensures Unpublished(fs, target)
    ensures staged.Success? ==>
      && IsFile(fs.now, staged.value.inode) && staged.value.name != target.name
      && staged.value.snapshot.inode == staged.value.inode && staged.value.snapshot.content == content
    ensures staged.Failure? && staged.error.recovery.Some? ==>
      EvidenceHolds(fs, |old(fs.moments)|, staged.error.recovery.value, target.dir, kept)
  {
    ghost var n := |fs.moments|;
    kept := Snapshot(0, [], 0, 0);
    if |content| > MAX_FILE_SNAPSHOT_BYTES { return Failure(IoError(Other, None)), kept; }
    for i := 0 to NAME_ATTEMPTS
      invariant Unpublished(fs, target)
    {
      ghost var m := |fs.moments|;
      var taken;
      taken, staged, kept := TryStaging(fs, content, replacement, target);
      if !taken {
        if staged.Failure? && staged.error.recovery.Some? {
          EvidenceEarlier(fs, n, m, staged.error.recovery.value, target.dir, kept);
        }
        return;
      }
    }
    return Failure(IoError(AlreadyExists, None)), kept;
  }

  /** One random name; when it is taken, nothing was done. */
  method TryStaging(fs: FileSystem, content: seq<byte>, replacement: bool, target: Slot)
    returns (taken: bool, staged: Result<StagedFile, IoError>, ghost kept: Snapshot)
    requires fs.Valid()
    modifies fs
    ensures Unpublished(fs, target)
    ensures !taken && staged.Success? ==>
      && IsFile(fs.now, staged.value.inode) && staged.value.name != target.name
      && staged.value.snapshot.inode == staged.value.inode && staged.value.snapshot.content == content
    ensures !taken && staged.Failure? && staged.error.recovery.Some? ==>
      EvidenceHolds(fs, |old(fs.moments)|, staged.error.recovery.value, target.dir, kept)
  {
    ghost var n := |fs.moments|;
    kept := Snapshot(0, [], 0, 0);
    var name := RandomPatchPath("stage", target);
    if name.None? { return false, Failure(IoError(Other, None)), kept; }
    var file := fs.CreateNew(Slot(target.dir, name.value));
    if file.Failure? { return file.error == AlreadyExists, Failure(IoError(file.error, None)), kept; }
    ghost var m := |fs.moments|;
    taken := false;
    staged, kept := FinishStaging(fs, name.value, file.value, content, replacement, target);
    if staged.Failure? && staged.error.recovery.Some? {
      EvidenceEarlier(fs, n, m, staged.error.recovery.value, target.dir, kept);
    }
  }

  method FinishStaging(fs: FileSystem, name: string, inode: nat, content: seq<byte>, replacement: bool, target: Slot)
    returns (staged: Result<StagedFile, IoError>, ghost kept: Snapshot)
    requires fs.Valid() && IsFile(fs.now, inode) && inode in fs.created && name != target.name
    modifies fs
    ensures Unpublished(fs, target)
    ensures staged.Success? ==>
      && IsFile(fs.now, staged.value.inode) && staged.value.name == name
      && staged.value.snapshot.inode == staged.value.inode && staged.value.snapshot.content == content
    ensures staged.Failure? && staged.error.recovery.Some? ==>
      EvidenceHolds(fs, |old(fs.moments)|, staged.error.recovery.value, target.dir, kept)
  {
    ghost var n := |fs.moments|;
    kept := Snapshot(inode, [], 0, 0);
    var snapshot := FillAndSnapshot(fs, inode, content, replacement, target);
    if snapshot.Failure? {
      ghost var m := |fs.moments|;
      var error;
      error, kept := CleanupOpenStaging(fs, name, inode, snapshot.error, target);
      if error.recovery.Some? { EvidenceEarlier(fs, n, m, error.recovery.value, target.dir, kept); }
      return Failure(error), kept;
    }
    return Success(StagedFile(name, inode, snapshot.value)), kept;
  }

  // ---- commits ----------------------------------------------------------------------------------------------------

  datatype CommitResult =
    | Committed(recovery: Option<string>)
    | BeforePublication(error: IoError)
    | Published(evidence: Option<PublishedRecovery>)

  /** Step `p`, and no other since `n`, publishes at the target. */
  ghost predicate PublishedOnce(steps: seq<Step>, n: nat, p: nat, action: Action, target: Slot) {
    && n <= p < |steps| && steps[p].action == action
    && forall k :: n <= k < |steps| && k != p ==> Quiet(steps[k], target)
  }

  /** Quiet steps, one publishing step, quiet steps. */
  lemma OncePublished(steps: seq<Step>, n: nat, p: nat, target: Slot)
    requires n <= p < |steps| && QuietBetween(steps, n, p, target) && QuietFrom(steps, p + 1, target)
    ensures PublishedOnce(steps, n, p, steps[p].action, target)
  {
  }

  /** Steps that were quiet stay quiet as history grows. */
  lemma QuietStill(a: seq<Step>, b: seq<Step>, n: nat, m: nat, target: Slot)
    requires a <= b && m <= |a| && QuietBetween(a, n, m, target)
    ensures QuietBetween(b, n, m, target)
  {
    forall k | n <= k < m
      ensures Quiet(b[k], target)
    {
      assert b[k] == a[k];
    }
  }

  method ValidateStagingSlot(fs: FileSystem, staged: StagedFile, target: Slot) returns (error: Option<Errno>)
    requires fs.Valid() && IsFile(fs.now, staged.inode)
    modifies fs
    ensures fs.Observes()
  {
    error := OtherCheck();
    if error.Some? { return; }
    fs.Interfere();
    var node := fs.now.nodes[staged.inode];
    if node.meta != staged.snapshot.meta || node.changed != staged.snapshot.changed { return Some(WouldBlock); }
    error := ValidateSnapshotSlot(fs, Slot(target.dir, staged.name), staged.snapshot);
  }

  /** `validate_replacement_slot`: the original is still what was read, by content and by slot. */
  method ValidateReplacementSlot(fs: FileSystem, target: Slot, expected: Snapshot) returns (error: Option<Errno>)
    requires fs.Valid() && IsFile(fs.now, expected.inode)
    modifies fs
    ensures fs.Observes()
    ensures error.None? ==> Taken(fs.now, expected)
  {
    error := OtherCheck();
    if error.Some? { return; }
    var current := TakeSnapshot(fs, expected.inode);
    if current.Failure? { return Some(current.error); }
    if current.value != expected { return Some(WouldBlock); }
    ghost var taken := fs.now;
    error := ValidateSnapshotSlot(fs, target, expected);
    TakenLater(taken, fs.now, expected);
  }

  /** Refreshes a snapshot after a rename and checks that the slot holds its file. */
  method RefreshAndValidate(fs: FileSystem, slot: Slot, inode: nat, snapshot: Snapshot) returns (r: Result<Snapshot, Errno>)
    requires fs.Valid() && IsFile(fs.now, inode)
    modifies fs
    ensures fs.Observes()
    ensures r.Success? ==> r.value.inode == inode && SamePayload(r.value, snapshot) && PayloadSeen(fs, |old(fs.moments)|, slot, snapshot)
    ensures r.Success? && !fs.disturbed ==> HoldsPayload(fs.now, slot, snapshot)
  {
    r := RefreshSnapshotAfterRename(fs, inode, snapshot);
    if r.Failure? { return; }
    ghost var m := |fs.moments|;
    var error := ValidateSnapshotSlot(fs, slot, r.value);
    if error.Some? { return Failure(error.value); }
    ghost var k :| m <= k < |fs.moments| && Held(fs.moments[k], slot, r.value);
    assert HoldsPayload(fs.moments[k], slot, snapshot);
  }

  /** `cleanup_owned_staging_after_error`, with evidence since `n`. */
  method CleanupOwnedStaging(fs: FileSystem, staged: StagedFile, source: Errno, target: Slot, ghost n: nat) returns (error: IoError)
    requires fs.Valid() && IsFile(fs.now, staged.inode) && staged.name != target.name && n <= |fs.moments|
    modifies fs
    ensures Unpublished(fs, target)
    ensures error.recovery.Some? ==> EvidenceHolds(fs, n, error.recovery.value, target.dir, staged.snapshot)
  {
    ghost var m := |fs.moments|;
    error := CleanupExpectedStaging(fs, staged.name, staged.inode, staged.snapshot, source, target);
    if error.recovery.Some? { EvidenceEarlier(fs, n, m, error.recovery.value, target.dir, staged.snapshot); }
  }

  /** `commit_new_file`: published by one rename that replaces nothing, or not at all. */
  method CommitNewFile(fs: FileSystem, staged: StagedFile, target: Slot)
    returns (result: CommitResult, ghost published: nat, ghost since: nat)
    requires fs.Valid() && IsFile(fs.now, staged.inode) && staged.name != target.name && staged.snapshot.inode == staged.inode
    modifies fs
    ensures fs.Continues()
    ensures result.BeforePublication? ==>
      && Unpublished(fs, target)
      && (result.error.recovery.Some? ==> EvidenceHolds(fs, |old(fs.moments)|, result.error.recovery.value, target.dir, staged.snapshot))
    ensures !result.BeforePublication? ==>
      && PublishedOnce(fs.steps, |old(fs.steps)|, published, Rename(Slot(target.dir, staged.name), target), target)
      && 0 < since <= |fs.moments| && fs.moments[since - 1] == fs.steps[published].after
    ensures result.Committed? ==>
      && PayloadSeen(fs, since, target, staged.snapshot)
      && (!fs.disturbed ==> HoldsPayload(fs.now, target, staged.snapshot))
  {
    ghost var n, m := |fs.steps|, |fs.moments|;
    published, since := 0, 0;
    var failed := ValidateStagingSlot(fs, staged, target);
    if failed.None? {
      failed := fs.RenameNoReplace(Slot(target.dir, staged.name), target);
    }
    if failed.Some? {
      var error := CleanupOwnedStaging(fs, staged, failed.value, target, m);
      return BeforePublication(error), 0, 0;
    }
    published, since := |fs.steps| - 1, |fs.moments|;
    var installed := RefreshAndValidate(fs, target, staged.inode, staged.snapshot);
    OncePublished(fs.steps, n, published, target);
    return if installed.Failure? then Published(None) else Committed(None), published, since;
  }

  /** `preserved_content_failure` and `preserved_commit_failure`: not published, with evidence for the staged file. */
  method PreservedFailure(fs: FileSystem, recovery: nat, name: string, inode: nat, expected: Snapshot, source: Errno, target: Slot, ghost n: nat)
    returns (error: IoError)
    requires fs.Valid() && IsFile(fs.now, inode) && recovery != target.dir && n <= |fs.moments|
    modifies fs
    ensures Unpublished(fs, target)
    ensures error.recovery.Some? && EvidenceHolds(fs, n, error.recovery.value, target.dir, expected)
  {
    ghost var m := |fs.moments|;
    var evidence := PreservedRecoveryEvidence(fs, recovery, name, inode, expected, target);
    EvidenceEarlier(fs, n, m, evidence, target.dir, expected);
    return IoError(source, Some(evidence));
  }

  method ValidateBeforeMove(fs: FileSystem, staged: StagedFile, target: Slot, expected: Snapshot) returns (error: Option<Errno>)
    requires fs.Valid() && IsFile(fs.now, staged.inode) && IsFile(fs.now, expected.inode)
    modifies fs
    ensures fs.Observes()
    ensures error.None? ==> Taken(fs.now, expected)
  {
    error := ValidateStagingSlot(fs, staged, target);
    if error.None? { error := ValidateReplacementSlot(fs, target, expected); }
  }

  /** Moves the staged file into the recovery directory; on failure it is cleaned up or preserved there. */
  method MoveStagedToRecovery(fs: FileSystem, recovery: nat, staged: StagedFile, target: Slot, expected: Snapshot)
    returns (moved: Result<string, IoError>)
    requires fs.Valid() && IsFile(fs.now, staged.inode) && staged.name != target.name
    requires IsFile(fs.now, expected.inode) && recovery != target.dir
    modifies fs
    ensures Unpublished(fs, target)
    ensures moved.Failure? && moved.error.recovery.Some? ==>
      EvidenceHolds(fs, |old(fs.moments)|, moved.error.recovery.value, target.dir, staged.snapshot)
    ensures moved.Success? ==> Taken(fs.now, expected)
  {
    ghost var n := |fs.moments|;
    var failed := ValidateBeforeMove(fs, staged, target, expected);
    if failed.None? {
      ghost var taken := fs.now;
      var name := MoveToRandom(fs, Slot(target.dir, staged.name), recovery, "displaced", target);
      TakenLater(taken, fs.now, expected);
      if name.Success? { return Success(name.value); }
      failed := Some(name.error);
    }
    var error := CleanupOwnedStaging(fs, staged, failed.value, target, n);
    return Failure(error);
  }

  /** The last checks and the exchange itself. */
  method ExchangeStaged(fs: FileSystem, recovery: nat, staged: StagedFile, name: string, target: Slot, ghost n: nat)
    returns (error: Option<IoError>)
    requires fs.Valid() && IsFile(fs.now, staged.inode) && recovery != target.dir && n <= |fs.moments|
    modifies fs
    ensures fs.Continues()
    ensures error.Some? ==>
      && Unpublished(fs, target)
      && error.value.recovery.Some? && EvidenceHolds(fs, n, error.value.recovery.value, target.dir, staged.snapshot)
    ensures error.None? ==>
      && |fs.steps| > |old(fs.steps)| && QuietBetween(fs.steps, |old(fs.steps)|, |fs.steps| - 1, target)
      && fs.steps[|fs.steps| - 1].action == Exchange(Slot(recovery, name), target)
      && fs.steps[|fs.steps| - 1].after == fs.now
      && |fs.moments| > 0 && fs.moments[|fs.moments| - 1] == fs.now
  {
    hide LawfulHistory, EvidenceHolds;
    ghost var before := fs.steps;
    var failed := CheckMoved(fs, recovery, staged, name, target);
    if failed.None? {
      ghost var steps := fs.steps;
      failed := fs.ExchangeFiles(Slot(recovery, name), target);
      if failed.None? {
        QuietStill(steps, fs.steps, |before|, |steps|, target);
        return None;
      }
    }
    var preserved := PreservedFailure(fs, recovery, name, staged.inode, staged.snapshot, failed.value, target, n);
    return Some(preserved);
  }

  /** The staged file is in its recovery slot, and the recovery directory in its place. */
  method CheckMoved(fs: FileSystem, recovery: nat, staged: StagedFile, name: string, target: Slot) returns (error: Option<Errno>)
    requires fs.Valid() && IsFile(fs.now, staged.inode) && recovery != target.dir
    modifies fs
    ensures Unpublished(fs, target)
  {
    var entered := RefreshAndValidate(fs, Slot(recovery, name), staged.inode, staged.snapshot);
    if entered.Failure? { return Some(entered.error); }
    var check := ValidateRecoveryNamespaceSlot(fs, recovery, target);
    return if check.Intact? then None else Some(check.kind);
  }

  /** The slot checks after the exchange, for refreshed snapshots. */
  method ValidateBothSlots(fs: FileSystem, target: Slot, installed: Snapshot, displacedTo: Slot, displaced: Snapshot)
    returns (error: Option<Errno>)
    requires fs.Valid() && Taken(fs.now, installed) && Taken(fs.now, displaced)
    modifies fs
    ensures fs.Observes()
    ensures error.None? ==> HeldFrom(fs, |old(fs.moments)|, target, installed) && HeldFrom(fs, |old(fs.moments)|, displacedTo, displaced)
    ensures error.None? && !fs.disturbed ==> Held(fs.now, target, installed) && Held(fs.now, displacedTo, displaced)
  {
    ghost var n, start := |fs.moments|, fs.now;
    error := ValidateSnapshotSlot(fs, target, installed);
    if error.Some? { return; }
    TakenLater(start, fs.now, displaced);
    assert HeldFrom(fs, n, target, installed);
    error := ValidateSnapshotSlot(fs, displacedTo, displaced);
  }

  /** After the exchange: the new file is at the target, the old one in the recovery directory. */
  method ValidateExchange(fs: FileSystem, recovery: nat, staged: StagedFile, name: string, target: Slot, expected: Snapshot)
    returns (error: Option<Errno>)
    requires fs.Valid() && IsFile(fs.now, staged.inode) && staged.snapshot.inode == staged.inode
    requires IsFile(fs.now, expected.inode)
    modifies fs
    ensures fs.Observes()
    ensures error.None? ==>
      && PayloadSeen(fs, |old(fs.moments)|, target, staged.snapshot)
      && PayloadSeen(fs, |old(fs.moments)|, Slot(recovery, name), expected)
    ensures error.None? && !fs.disturbed ==>
      HoldsPayload(fs.now, target, staged.snapshot) && HoldsPayload(fs.now, Slot(recovery, name), expected)
  {
    ghost var n := |fs.moments|;
    var installed := RefreshSnapshotAfterRename(fs, staged.inode, staged.snapshot);
    if installed.Failure? { return Some(installed.error); }
    ghost var start := fs.now;
    var displaced := RefreshSnapshotAfterRename(fs, expected.inode, expected);
    if displaced.Failure? { return Some(displaced.error); }
    TakenLater(start, fs.now, installed.value);
    ghost var m := |fs.moments|;
    error := ValidateBothSlots(fs, target, installed.value, Slot(recovery, name), displaced.value);
    if error.None? {
      PayloadFromHeld(fs, m, n, target, installed.value, staged.snapshot);
      PayloadFromHeld(fs, m, n, Slot(recovery, name), displaced.value, expected);
    }
  }

  lemma PayloadFromHeld(fs: FileSystem, m: nat, n: nat, slot: Slot, found: Snapshot, expected: Snapshot)
    requires n <= m && HeldFrom(fs, m, slot, found) && SamePayload(found, expected)
    ensures PayloadSeen(fs, n, slot, expected)
  {
    var k :| m <= k < |fs.moments| && Held(fs.moments[k], slot, found);
    assert HoldsPayload(fs.moments[k], slot, expected);
  }

  /** New bytes at the target, original file at the recovery path. */
  predicate Exchanged(s: FsState, recovery: nat, staged: Snapshot, name: string, target: Slot, expected: Snapshot) {
    && HoldsPayload(s, target, staged)
    && HoldsPayload(s, Slot(recovery, name), expected)
    && NamesRecovery(s, target.dir, recovery)
  }

  /** `commit_existing_file`: published by one exchange, or not at all. */
  method CommitExistingFile(fs: FileSystem, recovery: nat, staged: StagedFile, target: Slot, expected: Snapshot)
    returns (result: CommitResult, ghost published: nat, ghost since: nat, ghost name: string)
    requires fs.Valid() && IsFile(fs.now, staged.inode) && staged.name != target.name && staged.snapshot.inode == staged.inode
    requires IsFile(fs.now, expected.inode) && recovery != target.dir
    modifies fs
    ensures fs.Continues()
    ensures result.BeforePublication? ==>
      && Unpublished(fs, target)
      && (result.error.recovery.Some? ==> EvidenceHolds(fs, |old(fs.moments)|, result.error.recovery.value, target.dir, staged.snapshot))
    ensures !result.BeforePublication? ==>
      && PublishedOnce(fs.steps, |old(fs.steps)|, published, Exchange(Slot(recovery, name), target), target)
      && 0 < since <= |fs.moments| && fs.moments[since - 1] == fs.steps[published].after
    ensures result.Published? ==>
      result.evidence.Some? && EvidenceHolds(fs, since, result.evidence.value, target.dir, expected)
    ensures result.Committed? ==>
      && result.recovery == Some(name)
      && PayloadSeen(fs, since, target, staged.snapshot)
      && PayloadSeen(fs, since, Slot(recovery, name), expected) && NamespaceSeen(fs, since, target.dir, recovery)
      && (!fs.disturbed ==> Exchanged(fs.now, recovery, staged.snapshot, name, target, expected))
  {
    ghost var first := |fs.steps|;
    published, since, name := 0, 0, "";
    var moved := PublishStaged(fs, recovery, staged, target, expected);
    if moved.Failure? { return BeforePublication(moved.error), 0, 0, ""; }
    name := moved.value;
    published, since := |fs.steps| - 1, |fs.moments|;
    ghost var steps := fs.steps;
    result := ConcludeExchange(fs, recovery, staged, moved.value, target, expected);
    QuietStill(steps, fs.steps, first, published, target);
    OncePublished(fs.steps, first, published, target);
  }

  /** Everything up to and including the exchange. */
  method PublishStaged(fs: FileSystem, recovery: nat, staged: StagedFile, target: Slot, expected: Snapshot)
    returns (r: Result<string, IoError>)
    requires fs.Valid() && IsFile(fs.now, staged.inode) && staged.name != target.name && staged.snapshot.inode == staged.inode
    requires IsFile(fs.now, expected.inode) && recovery != target.dir
    modifies fs
    ensures fs.Continues()
    ensures r.Failure? ==>
      && Unpublished(fs, target)
      && (r.error.recovery.Some? ==> EvidenceHolds(fs, |old(fs.moments)|, r.error.recovery.value, target.dir, staged.snapshot))
    ensures r.Success? ==>
      && |fs.steps| > |old(fs.steps)| && QuietBetween(fs.steps, |old(fs.steps)|, |fs.steps| - 1, target)
      && fs.steps[|fs.steps| - 1].action == Exchange(Slot(recovery, r.value), target)
      && fs.steps[|fs.steps| - 1].after == fs.now
      && |fs.moments| > 0 && fs.moments[|fs.moments| - 1] == fs.now
  {
    ghost var n, first := |fs.moments|, |fs.steps|;
    r := MoveStagedToRecovery(fs, recovery, staged, target, expected);
    if r.Failure? { return; }
    ghost var steps := fs.steps;
    var error := ExchangeStaged(fs, recovery, staged, r.value, target, n);
    if error.Some? { return Failure(error.value); }
    QuietStill(steps, fs.steps, first, |steps|, target);
  }

  /** Validation after publication; a failure is reported with evidence for the displaced original. */
  method ConcludeExchange(fs: FileSystem, recovery: nat, staged: StagedFile, name: string, target: Slot, expected: Snapshot)
    returns (result: CommitResult)
    requires fs.Valid() && IsFile(fs.now, staged.inode) && staged.snapshot.inode == staged.inode
    requires IsFile(fs.now, expected.inode) && recovery != target.dir
    modifies fs
    ensures Unpublished(fs, target)
    ensures !result.BeforePublication?
    ensures result.Published? ==>
      result.evidence.Some? && EvidenceHolds(fs, |old(fs.moments)|, result.evidence.value, target.dir, expected)
    ensures result.Committed? ==>
      && result.recovery == Some(name)
      && PayloadSeen(fs, |old(fs.moments)|, target, staged.snapshot)
      && PayloadSeen(fs, |old(fs.moments)|, Slot(recovery, name), expected)
      && NamespaceSeen(fs, |old(fs.moments)|, target.dir, recovery)
      && (!fs.disturbed ==> Exchanged(fs.now, recovery, staged.snapshot, name, target, expected))
  {
    ghost var n := |fs.moments|;
    var confirmed := ConfirmExchange(fs, recovery, staged, name, target, expected);
    if confirmed { return Committed(Some(name)); }
    result := ReportDisplaced(fs, recovery, name, target, expected, n);
  }

  /** The checks after the exchange: both slots, then the recovery directory. */
  method ConfirmExchange(fs: FileSystem, recovery: nat, staged: StagedFile, name: string, target: Slot, expected: Snapshot)
    returns (confirmed: bool)
    requires fs.Valid() && IsFile(fs.now, staged.inode) && staged.snapshot.inode == staged.inode
    requires IsFile(fs.now, expected.inode) && recovery != target.dir
    modifies fs
    ensures Unpublished(fs, target)
    ensures confirmed ==>
      && PayloadSeen(fs, |old(fs.moments)|, target, staged.snapshot)
      && PayloadSeen(fs, |old(fs.moments)|, Slot(recovery, name), expected)
      && NamespaceSeen(fs, |old(fs.moments)|, target.dir, recovery)
      && (!fs.disturbed ==> Exchanged(fs.now, recovery, staged.snapshot, name, target, expected))
  {
    ghost var n := |fs.moments|;
    var failed := ValidateExchange(fs, recovery, staged, name, target, expected);
    if failed.Some? { return false; }
    var check := ValidateRecoveryNamespaceSlot(fs, recovery, target);
    assert !check.IdentityChanged? ==> NamespaceSeen(fs, n, target.dir, recovery);
    return check.Intact?;
  }

  /** `published_commit_failure`: published all the same, with evidence for the displaced original. */
  method ReportDisplaced(fs: FileSystem, recovery: nat, name: string, target: Slot, expected: Snapshot, ghost n: nat)
    returns (result: CommitResult)
    requires fs.Valid() && IsFile(fs.now, expected.inode) && recovery != target.dir && n <= |fs.moments|
    modifies fs
    ensures Unpublished(fs, target)
    ensures result.Published? && result.evidence.Some? && EvidenceHolds(fs, n, result.evidence.value, target.dir, expected)
  {
    ghost var m := |fs.moments|;
    var evidence := PreservedRecoveryEvidence(fs, recovery, name, expected.inode, expected, target);
    EvidenceEarlier(fs, n, m, evidence, target.dir, expected);
    return Published(Some(evidence));
  }

  // ---- the two entry points ---------------------------------------------------------------------------------------

  /** `replacement_metadata`: the target is still the file that was read. */
  method ReplacementMetadata(fs: FileSystem, target: Slot, expected: Snapshot) returns (error: Option<Errno>)
    requires fs.Valid()
    modifies fs
    ensures fs.Observes()
    ensures error.None? ==> IsFile(fs.now, expected.inode)
    ensures error.None? && !fs.disturbed ==> target in old(fs.now.slots)
  {
    var handle := OpenRegular(fs, target);
    if handle.Failure? { return Some(handle.error); }
    error := OtherCheck();
    if error.Some? { return; }
    fs.Interfere();
    var node := fs.now.nodes[handle.value];
    if handle.value != expected.inode || node.meta != expected.meta || node.changed != expected.changed { return Some(WouldBlock); }
    return None;
  }

  /** What the ghost results of a replacement refer to: the publishing step and what was installed. */
  datatype Publication = Publication(step: nat, since: nat, recovery: nat, name: string, installed: Snapshot)

  /** The recovery directory and the staged file a replacement needs. */
  method PrepareReplacement(fs: FileSystem, target: Slot, content: seq<byte>, expected: Snapshot)
    returns (r: Result<(nat, StagedFile), IoError>, ghost kept: Snapshot)
    requires fs.Valid()
    modifies fs
    ensures Unpublished(fs, target)
    ensures !fs.disturbed ==> UntouchedFrom(fs.steps, |old(fs.steps)|, target)
    ensures r.Success? && !fs.disturbed ==> target in old(fs.now.slots)
    ensures r.Failure? && r.error.recovery.Some? ==>
      EvidenceHolds(fs, |old(fs.moments)|, r.error.recovery.value, target.dir, kept)
    ensures r.Success? ==>
      && r.value.0 != target.dir && IsFile(fs.now, expected.inode)
      && IsFile(fs.now, r.value.1.inode) && r.value.1.name != target.name
      && r.value.1.snapshot.inode == r.value.1.inode && r.value.1.snapshot.content == content
  {
    ghost var n := |fs.moments|;
    kept := expected;
    var changed := ReplacementMetadata(fs, target, expected);
    if changed.Some? { return Failure(IoError(changed.value, None)), kept; }
    var recovery := OpenRecoveryNamespace(fs, target);
    if recovery.Failure? { return Failure(IoError(recovery.error, None)), kept; }
    ghost var m := |fs.moments|;
    var staged;
    staged, kept := StageContent(fs, content, true, target);
    if staged.Failure? {
      if staged.error.recovery.Some? { EvidenceEarlier(fs, n, m, staged.error.recovery.value, target.dir, kept); }
      return Failure(staged.error), kept;
    }
    return Success((recovery.value, staged.value)), kept;
  }

  /**
   `replace_existing_atomically`. Before publication the target slot was not touched; otherwise exactly
   one exchange put the staged file there. On success the new bytes were seen at the target and the
   original file at the recovery path after that exchange, and undisturbed they still are there.
   */
  method ReplaceExistingAtomically(fs: FileSystem, target: Slot, content: seq<byte>, expected: Snapshot)
    returns (result: CommitResult, ghost p: Publication, ghost kept: Snapshot)
    requires fs.Valid()
    modifies fs
    ensures fs.Continues()
    ensures result.BeforePublication? ==>
      && Unpublished(fs, target)
      && (!fs.disturbed ==> UntouchedFrom(fs.steps, |old(fs.steps)|, target))
      && (result.error.recovery.Some? ==> EvidenceHolds(fs, |old(fs.moments)|, result.error.recovery.value, target.dir, kept))
    ensures !result.BeforePublication? ==>
      && PublishedOnce(fs.steps, |old(fs.steps)|, p.step, Exchange(Slot(p.recovery, p.name), target), target)
      && 0 < p.since <= |fs.moments| && fs.moments[p.since - 1] == fs.steps[p.step].after
    ensures result.Published? ==>
      result.evidence.Some? && EvidenceHolds(fs, p.since, result.evidence.value, target.dir, expected)
    ensures result.Committed? ==>
      && result.recovery == Some(p.name) && p.installed.content == content
      && PayloadSeen(fs, p.since, target, p.installed)
      && PayloadSeen(fs, p.since, Slot(p.recovery, p.name), expected) && NamespaceSeen(fs, p.since, target.dir, p.recovery)
      && (!fs.disturbed ==> Exchanged(fs.now, p.recovery, p.installed, p.name, target, expected))
  {
    p := Publication(0, 0, 0, "", expected);
    ghost var n, first := |fs.moments|, |fs.steps|;
    var ready;
    ready, kept := PrepareReplacement(fs, target, content, expected);
    if ready.Failure? { return BeforePublication(ready.error), p, kept; }
    var recovery, staged := ready.value.0, ready.value.1;
    kept := staged.snapshot;
    ghost var m, steps := |fs.moments|, fs.steps;
    ghost var step, since, name;
    result, step, since, name := CommitExistingFile(fs, recovery, staged, target, expected);
    p := Publication(step, since, recovery, name, staged.snapshot);
    QuietStill(steps, fs.steps, first, |steps|, target);
    if result.BeforePublication? && result.error.recovery.Some? {
      EvidenceEarlier(fs, n, m, result.error.recovery.value, target.dir, kept);
    }
  }

  /** `create_new`: published by one rename to a free name, or the target slot was not touched. */
  method CreateNewAtomically(fs: FileSystem, target: Slot, content: seq<byte>)
    returns (result: CommitResult, ghost p: Publication, ghost kept: Snapshot)
    requires fs.Valid()
    modifies fs
    ensures fs.Continues()
    ensures result.BeforePublication? ==>
      && Unpublished(fs, target)
      && (result.error.recovery.Some? ==> EvidenceHolds(fs, |old(fs.moments)|, result.error.recovery.value, target.dir, kept))
    ensures !result.BeforePublication? ==>
      && PublishedOnce(fs.steps, |old(fs.steps)|, p.step, Rename(Slot(target.dir, p.name), target), target)
      && 0 < p.since <= |fs.moments| && fs.moments[p.since - 1] == fs.steps[p.step].after
    ensures result.Committed? ==>
      && p.installed.content == content && PayloadSeen(fs, p.since, target, p.installed)
      && (!fs.disturbed ==> HoldsPayload(fs.now, target, p.installed))
  {
    p := Publication(0, 0, 0, "", Snapshot(0, [], 0, 0));
    ghost var n, first := |fs.moments|, |fs.steps|;
    var staged;
    staged, kept := StageContent(fs, content, false, target);
    if staged.Failure? { return BeforePublication(staged.error), p, kept; }
    kept := staged.value.snapshot;
    ghost var m, steps := |fs.moments|, fs.steps;
    ghost var step, since;
    result, step, since := CommitNewFile(fs, staged.value, target);
    p := Publication(step, since, 0, staged.value.name, kept);
    QuietStill(steps, fs.steps, first, |steps|, target);
    if result.BeforePublication? && result.error.recovery.Some? {
      EvidenceEarlier(fs, n, m, result.error.recovery.value, target.dir, kept);
    }
  }

  // ---- what no step ever does -------------------------------------------------------------------------------------

  /** In no step of the protocol is anything reachable unlinked, or a file written that the protocol did not create. */
  lemma NoLostData(steps: seq<Step>, created: set<nat>, n: nat, k: nat, inode: nat)
    requires LawfulHistory(steps, created) && Preserving(steps, n) && n <= k < |steps|
    ensures inode in steps[k].before.slots.Values ==> inode in steps[k].after.slots.Values
    ensures IsFile(steps[k].before, inode) && inode !in created ==>
      IsFile(steps[k].after, inode) && steps[k].after.nodes[inode].content == steps[k].before.nodes[inode].content
  {
    var step := steps[k];
    assert LawfulStep(step, created);
    if inode in step.before.slots.Values { NothingUnlinked(step, inode); }
  }

  /** Before publication no step changes what the target slot names, unless the target is named like the recovery directory. */
  lemma TargetUnchanged(steps: seq<Step>, n: nat, k: nat, target: Slot)
    requires QuietFrom(steps, n, target) && n <= k < |steps| && Lawful(steps[k])
    requires target.name != RECOVERY_DIRECTORY
    ensures target in steps[k].after.slots <==> target in steps[k].before.slots
    ensures target in steps[k].before.slots ==> steps[k].after.slots[target] == steps[k].before.slots[target]
  {
    assert Quiet(steps[k], target);
    SlotUntouched(steps[k], target);
  }

  // ---- the one exception --------------------------------------------------------------------------------------------

  /** Each step starts where the one before it ended: nobody else changed anything. */
  ghost predicate Chained(steps: seq<Step>) {
    forall k {:trigger steps[k]} :: 0 < k < |steps| ==> steps[k].before == steps[k - 1].after
  }

  /** Inodes and names the environment hands out: fresh in the state in which a run begins. */
  datatype Draws = Draws(staged: nat, recovery: nat, ignore: nat, stage: string, claim: string, keep: string)

  predicate Fresh(s: FsState, d: Draws, dir: nat) {
    && WellFormed(s)
    && d.staged !in s.nodes && d.recovery !in s.nodes && d.ignore !in s.nodes
    && d.staged != d.recovery && d.staged != d.ignore && d.recovery != d.ignore && d.recovery != dir
    && d.stage != d.claim && d.stage != RECOVERY_DIRECTORY && d.claim != RECOVERY_DIRECTORY
    && Slot(dir, d.stage) !in s.slots && Slot(dir, d.claim) !in s.slots
    && d.keep != GITIGNORE && Slot(d.recovery, GITIGNORE) !in s.slots && Slot(d.recovery, d.keep) !in s.slots
  }

  /**
   The calls of `create_new` when its publishing rename is refused: stage and write the new file, (the
   refused rename,) claim it for cleanup, make the recovery directory and its ignore rule, move it there.
   */
  function RefusedCreation(d: Draws, target: Slot): seq<Action> {
    [Create(Slot(target.dir, d.stage), d.staged), Write(d.staged),
     Rename(Slot(target.dir, d.stage), Slot(target.dir, d.claim)),
     MakeDirectory(Slot(target.dir, RECOVERY_DIRECTORY)),
     Create(Slot(d.recovery, GITIGNORE), d.ignore), Write(d.ignore),
     Rename(Slot(target.dir, d.claim), Slot(d.recovery, d.keep))]
  }

  /** The first half of that run: the new file is staged, written and claimed. */
  lemma StagedAndClaimed(s: FsState, d: Draws, dir: nat, content: seq<byte>, meta: nat) returns (steps: seq<Step>)
    requires Fresh(s, d, dir)
    ensures |steps| == 3 && Chained(steps) && LawfulHistory(steps, {d.staged}) && steps[0].before == s
    ensures steps[0].action == Create(Slot(dir, d.stage), d.staged) && steps[1].action == Write(d.staged)
    ensures steps[2].action == Rename(Slot(dir, d.stage), Slot(dir, d.claim))
    ensures var end := steps[2].after;
      && WellFormed(end) && end.slots == s.slots[Slot(dir, d.claim) := d.staged]
      && end.nodes == s.nodes[d.staged := Regular(content, meta, 2)]
  {
    hide Lawful, WellFormed;
    var a := Created(s, Slot(dir, d.stage), d.staged);
    CreatedLawful(s, Slot(dir, d.stage), d.staged);
    var b := Written(a, d.staged, content, meta);
    WrittenLawful(a, d.staged, content, meta);
    MovedLawful(b, Slot(dir, d.stage), Slot(dir, d.claim));
    var e := Moved(b, Slot(dir, d.stage), Slot(dir, d.claim));
    steps := [Step(Create(Slot(dir, d.stage), d.staged), s, a), Step(Write(d.staged), a, b),
              Step(Rename(Slot(dir, d.stage), Slot(dir, d.claim)), b, e)];
    assert e.slots == s.slots[Slot(dir, d.claim) := d.staged];
  }

  /** The second half: the recovery directory, its ignore rule, and the claimed file moved into it. */
  lemma ClaimedAndKept(s: FsState, d: Draws, dir: nat, staged: Node) returns (steps: seq<Step>)
    requires WellFormed(s) && Slot(dir, RECOVERY_DIRECTORY) !in s.slots
    requires Slot(dir, d.claim) in s.slots && s.slots[Slot(dir, d.claim)] == d.staged && d.claim != RECOVERY_DIRECTORY
    requires d.staged in s.nodes && s.nodes[d.staged] == staged && staged.Regular?
    requires d.recovery !in s.nodes && d.ignore !in s.nodes && d.recovery != d.ignore && d.recovery != dir
    requires d.keep != GITIGNORE && Slot(d.recovery, GITIGNORE) !in s.slots && Slot(d.recovery, d.keep) !in s.slots
    ensures |steps| == 4 && Chained(steps) && LawfulHistory(steps, {d.ignore}) && steps[0].before == s
    ensures steps[0].action == MakeDirectory(Slot(dir, RECOVERY_DIRECTORY))
    ensures steps[1].action == Create(Slot(d.recovery, GITIGNORE), d.ignore) && steps[2].action == Write(d.ignore)
    ensures steps[3].action == Rename(Slot(dir, d.claim), Slot(d.recovery, d.keep))
    ensures var end := steps[3].after;
      && NamesRecovery(end, dir, d.recovery) && Slot(d.recovery, d.keep) in end.slots
      && end.slots[Slot(d.recovery, d.keep)] == d.staged && IsFile(end, d.staged) && end.nodes[d.staged].content == staged.content
  {
    hide Lawful, WellFormed;
    var a := WithDirectory(s, Slot(dir, RECOVERY_DIRECTORY), d.recovery);
    DirectoryLawful(s, Slot(dir, RECOVERY_DIRECTORY), d.recovery);
    var b := Created(a, Slot(d.recovery, GITIGNORE), d.ignore);
    CreatedLawful(a, Slot(d.recovery, GITIGNORE), d.ignore);
    var e := Written(b, d.ignore, [42, NEWLINE], 0);
    WrittenLawful(b, d.ignore, [42, NEWLINE], 0);
    MovedLawful(e, Slot(dir, d.claim), Slot(d.recovery, d.keep));
    steps := [Step(MakeDirectory(Slot(dir, RECOVERY_DIRECTORY)), s, a), Step(Create(Slot(d.recovery, GITIGNORE), d.ignore), a, b),
              Step(Write(d.ignore), b, e),
              Step(Rename(Slot(dir, d.claim), Slot(d.recovery, d.keep)), e, Moved(e, Slot(dir, d.claim), Slot(d.recovery, d.keep)))];
  }

  /**
   The exception is real, in every state: create a file at a free target of that name, with nobody
   else acting and only the publishing rename refused. No step publishes and the new bytes end up in
   the recovery directory, but that directory is now what the target names.
   */
  lemma RecoveryNameCollision(s: FsState, target: Slot, d: Draws, content: seq<byte>, meta: nat) returns (steps: seq<Step>)
    requires target.name == RECOVERY_DIRECTORY && target !in s.slots && Fresh(s, d, target.dir)
    ensures |steps| == 7 && steps[0].before == s && Chained(steps)
    ensures forall k :: 0 <= k < 7 ==> steps[k].action == RefusedCreation(d, target)[k]
    ensures LawfulHistory(steps, {d.staged, d.ignore}) && Preserving(steps, 0) && QuietFrom(steps, 0, target)
    ensures var end := steps[6].after;
      && target in end.slots && end.slots[target] == d.recovery
      && Slot(d.recovery, d.keep) in end.slots && end.slots[Slot(d.recovery, d.keep)] == d.staged
      && IsFile(end, d.staged) && end.nodes[d.staged].content == content
  {
    hide LawfulHistory, Lawful, WellFormed;
    var first := StagedAndClaimed(s, d, target.dir, content, meta);
    var second := ClaimedAndKept(first[2].after, d, target.dir, Regular(content, meta, 2));
    LawfulWithMore(first, {d.staged}, {d.staged, d.ignore});
    LawfulWithMore(second, {d.ignore}, {d.staged, d.ignore});
    steps := first + second;
    assert forall k :: 0 <= k < 3 ==> steps[k] == first[k];
    assert forall k :: 3 <= k < 7 ==> steps[k] == second[k - 3];
    LawfulJoin(first, second, {d.staged, d.ignore});
  }

  lemma LawfulJoin(first: seq<Step>, second: seq<Step>, created: set<nat>)
    requires LawfulHistory(first, created) && LawfulHistory(second, created)
    ensures LawfulHistory(first + second, created)
  {
    forall k | 0 <= k < |first + second|
      ensures LawfulStep((first + second)[k], created)
    {
      if k < |first| { assert LawfulStep(first[k], created); } else { assert LawfulStep(second[k - |first|], created); }
    }
  }
}

/**
 Directory slots, inodes and the system calls of the patch commit
 (crates/capability-coding/src/workspace.rs), with an environment that acts before every call.
 */
module FileSlots {
  import opened Prelude

  // ---- state ------------------------------------------------------------------------------

  datatype Slot = Slot(dir: nat, name: string)

  /** `meta` stands for size, times, owner and mode; `changed` is the change time. */
  datatype Node = Regular(content: seq<byte>, meta: nat, changed: nat) | Directory | Symlink

  datatype FsState = FsState(slots: map<Slot, nat>, nodes: map<nat, Node>)

  predicate WellFormed(s: FsState) {
    forall slot :: slot in s.slots ==> s.slots[slot] in s.nodes
  }

  /** A node keeps its kind, and every change of a file advances its change time. */
  predicate Later(x: Node, y: Node) {
    match x
    case Regular(_, _, changed) => y.Regular? && changed <= y.changed && (changed == y.changed ==> x == y)
    case _ => x == y
  }

  /** Inode numbers are not reused; directory slots may change in any way. */
  predicate Evolves(a: FsState, b: FsState) {
    forall i :: i in a.nodes ==> i in b.nodes && Later(a.nodes[i], b.nodes[i])
  }

  // ---- system calls ---------------------------------------------------------------------------

  datatype Action =
    | Create(slot: Slot, inode: nat)
    | MakeDirectory(slot: Slot)
    | Write(inode: nat)
    | Rename(from: Slot, to: Slot)
    | Exchange(left: Slot, right: Slot)
    | Unlink(slot: Slot)
    | Replace(from: Slot, to: Slot)

  datatype Step = Step(action: Action, before: FsState, after: FsState)

  predicate Touches(action: Action, slot: Slot) {
    match action
    case Create(s, _) => s == slot
    case MakeDirectory(s) => s == slot
    case Write(_) => false
    case Rename(from, to) => from == slot || to == slot
    case Exchange(left, right) => left == slot || right == slot
    case Unlink(s) => s == slot
    case Replace(from, to) => from == slot || to == slot
  }

  /** The calls that can take a name from a file without giving it another. */
  predicate Destructive(action: Action) {
    action.Unlink? || action.Replace?
  }

  /** The same files with the same content, but for one that is written. */
  predicate KeepsContent(a: FsState, b: FsState, written: Option<nat>) {
    forall i :: i in a.nodes && Some(i) != written ==>
      && i in b.nodes
      && (if a.nodes[i].Regular? then b.nodes[i].Regular? && b.nodes[i].content == a.nodes[i].content else b.nodes[i] == a.nodes[i])
  }

  /** The effect of each system call on the slots. */
  predicate Lawful(step: Step) {
    var a, b := step.before, step.after;
    && WellFormed(a) && WellFormed(b) && Evolves(a, b)
    && KeepsContent(a, b, if step.action.Write? then Some(step.action.inode) else None)
    && match step.action
       case Create(slot, inode) => slot !in a.slots && inode !in a.nodes && b.slots == a.slots[slot := inode]
       case MakeDirectory(slot) => slot !in a.slots && slot in b.slots && b.slots[slot] !in a.nodes && b.slots == a.slots[slot := b.slots[slot]]
       case Write(_) => b.slots == a.slots
       case Rename(from, to) => from in a.slots && to !in a.slots && b.slots == (a.slots - {from})[to := a.slots[from]]
       case Exchange(left, right) =>
         left in a.slots && right in a.slots && b.slots == a.slots[left := a.slots[right]][right := a.slots[left]]
       case Unlink(slot) => slot in a.slots && b.slots == a.slots - {slot}
       case Replace(from, to) => from in a.slots && b.slots == (a.slots - {from})[to := a.slots[from]]
  }

  /** The slot that loses its inode in a destructive step. */
  predicate TakesName(step: Step, slot: Slot)
    requires Lawful(step)
  {
    match step.action
    case Unlink(s) => s == slot
    case Replace(from, to) => to == slot && from != to && to in step.before.slots
    case _ => false
  }

  /** An inode becomes unreachable exactly when a destructive step takes its only name. */
  lemma LostIff(step: Step, inode: nat)
    requires Lawful(step) && inode in step.before.slots.Values
    ensures inode !in step.after.slots.Values <==>
      exists slot :: TakesName(step, slot) && forall other :: other in step.before.slots && step.before.slots[other] == inode ==> other == slot
  {
    var a, b := step.before.slots, step.after.slots;
    if slot :| slot in a && a[slot] == inode && !TakesName(step, slot) {
      var now := match step.action
        case Rename(from, to) => if slot == from then to else slot
        case Replace(from, to) => if slot == from then to else slot
        case Exchange(left, right) => if slot == right then left else if slot == left then right else slot
        case _ => slot;
      assert now in b && b[now] == inode;
    } else {
      var only :| only in a && a[only] == inode;
      assert TakesName(step, only);
      if now :| now in b && b[now] == inode {
        assert TakesName(step, if step.action.Replace? && now == step.action.to then step.action.from else now);
      }
    }
  }

  /** Other steps unlink nothing: whatever was reachable by some slot still is. */
  lemma NothingUnlinked(step: Step, inode: nat)
    requires Lawful(step) && !Destructive(step.action) && inode in step.before.slots.Values
    ensures inode in step.after.slots.Values
  {
    LostIff(step, inode);
  }

  /** A step that does not touch a slot leaves it as it was. */
  lemma SlotUntouched(step: Step, slot: Slot)
    requires Lawful(step) && !Touches(step.action, slot)
    ensures slot in step.after.slots <==> slot in step.before.slots
    ensures slot in step.before.slots ==> step.after.slots[slot] == step.before.slots[slot]
  {
  }

  /** A lawful step that writes only files the protocol created. */
  predicate LawfulStep(step: Step, created: set<nat>) {
    Lawful(step) && (step.action.Write? ==> step.action.inode in created)
  }

  ghost predicate LawfulHistory(steps: seq<Step>, created: set<nat>) {
    forall k {:trigger LawfulStep(steps[k], created)} :: 0 <= k < |steps| ==> LawfulStep(steps[k], created)
  }

  /** No step from `n` on was destructive. */
  ghost predicate Preserving(steps: seq<Step>, n: nat) {
    forall k :: n <= k < |steps| ==> !Destructive(steps[k].action)
  }

  lemma LawfulSnoc(steps: seq<Step>, created: set<nat>, step: Step)
    requires LawfulHistory(steps, created) && LawfulStep(step, created)
    ensures LawfulHistory(steps + [step], created)
  {
    var longer := steps + [step];
    forall k | 0 <= k < |longer|
      ensures LawfulStep(longer[k], created)
    {
      if k < |steps| { assert LawfulStep(steps[k], created); }
    }
  }

  lemma LawfulWithMore(steps: seq<Step>, few: set<nat>, many: set<nat>)
    requires LawfulHistory(steps, few) && few <= many
    ensures LawfulHistory(steps, many)
  {
    forall k | 0 <= k < |steps|
      ensures LawfulStep(steps[k], many)
    {
      assert LawfulStep(steps[k], few);
    }
  }

  // ---- snapshots --------------------------------------------------------------------------------

  /** Device, inode, metadata and digest of a file; equal digests mean equal content. */
  datatype Snapshot = Snapshot(inode: nat, content: seq<byte>, meta: nat, changed: nat)

  predicate SamePayload(a: Snapshot, b: Snapshot) {
    a.inode == b.inode && a.content == b.content && a.meta == b.meta
  }

  predicate IsFile(s: FsState, inode: nat) {
    inode in s.nodes && s.nodes[inode].Regular?
  }

  /** The snapshot was right when it was taken, and is right as long as the change time is its own. */
  predicate Taken(s: FsState, snapshot: Snapshot) {
    && IsFile(s, snapshot.inode)
    && snapshot.changed <= s.nodes[snapshot.inode].changed
    && (snapshot.changed == s.nodes[snapshot.inode].changed ==>
        s.nodes[snapshot.inode] == Regular(snapshot.content, snapshot.meta, snapshot.changed))
  }

  /** The slot holds exactly the file of the snapshot. */
  predicate Held(s: FsState, slot: Slot, snapshot: Snapshot) {
    && slot in s.slots && s.slots[slot] == snapshot.inode && snapshot.inode in s.nodes
    && s.nodes[snapshot.inode] == Regular(snapshot.content, snapshot.meta, snapshot.changed)
  }

  lemma TakenLater(a: FsState, b: FsState, snapshot: Snapshot)
    requires Evolves(a, b) && Taken(a, snapshot)
    ensures Taken(b, snapshot)
  {
    assert Later(a.nodes[snapshot.inode], b.nodes[snapshot.inode]);
  }

  /** A snapshot that is right before and after a moment is right at that moment. */
  lemma HeldBetween(a: FsState, at: FsState, b: FsState, slot: Slot, snapshot: Snapshot)
    requires Evolves(a, at) && Evolves(at, b) && Taken(a, snapshot)
    requires slot in at.slots && at.slots[slot] == snapshot.inode
    requires IsFile(b, snapshot.inode) && b.nodes[snapshot.inode].changed == snapshot.changed
    ensures Held(at, slot, snapshot)
  {
    assert Later(a.nodes[snapshot.inode], at.nodes[snapshot.inode]);
    assert Later(at.nodes[snapshot.inode], b.nodes[snapshot.inode]);
  }

  datatype Errno = NotFound | AlreadyExists | WouldBlock | InvalidInput | Loop | Other

  // ---- the effect of each call -----------------------------------------------------------------------

  /** Renaming a file advances its change time. */
  function Renamed(nodes: map<nat, Node>, inode: nat): map<nat, Node>
    requires inode in nodes
  {
    match nodes[inode]
    case Regular(content, meta, changed) => nodes[inode := Regular(content, meta, changed + 1)]
    case _ => nodes
  }

  function Created(s: FsState, slot: Slot, inode: nat): FsState {
    FsState(s.slots[slot := inode], s.nodes[inode := Regular([], 0, 0)])
  }

  function WithDirectory(s: FsState, slot: Slot, inode: nat): FsState {
    FsState(s.slots[slot := inode], s.nodes[inode := Directory])
  }

  function Written(s: FsState, inode: nat, content: seq<byte>, meta: nat): FsState
    requires IsFile(s, inode)
  {
    FsState(s.slots, s.nodes[inode := Regular(content, meta, s.nodes[inode].changed + 1)])
  }

  function Moved(s: FsState, from: Slot, to: Slot): FsState
    requires WellFormed(s) && from in s.slots
  {
    FsState((s.slots - {from})[to := s.slots[from]], Renamed(s.nodes, s.slots[from]))
  }

  lemma CreatedLawful(s: FsState, slot: Slot, inode: nat)
    requires WellFormed(s) && slot !in s.slots && inode !in s.nodes
    ensures Lawful(Step(Create(slot, inode), s, Created(s, slot, inode)))
    ensures WellFormed(Created(s, slot, inode))
  {
  }

  lemma DirectoryLawful(s: FsState, slot: Slot, inode: nat)
    requires WellFormed(s) && slot !in s.slots && inode !in s.nodes
    ensures Lawful(Step(MakeDirectory(slot), s, WithDirectory(s, slot, inode)))
    ensures WellFormed(WithDirectory(s, slot, inode))
  {
  }

  lemma WrittenLawful(s: FsState, inode: nat, content: seq<byte>, meta: nat)
    requires WellFormed(s) && IsFile(s, inode)
    ensures Lawful(Step(Write(inode), s, Written(s, inode, content, meta)))
    ensures WellFormed(Written(s, inode, content, meta))
  {
  }

  lemma MovedLawful(s: FsState, from: Slot, to: Slot)
    requires WellFormed(s) && from in s.slots && to !in s.slots
    ensures Lawful(Step(Rename(from, to), s, Moved(s, from, to)))
    ensures WellFormed(Moved(s, from, to))
  {
  }

  // ---- the file system ------------------------------------------------------------------------------

  class FileSystem {
    var now: FsState
    /** The protocol's own steps. */
    ghost var steps: seq<Step>
    /** The states the protocol's calls saw. */
    ghost var moments: seq<FsState>
    /** Has the environment changed anything? */
    ghost var disturbed: bool
    /** Inodes the protocol created. */
    ghost var created: set<nat>

    ghost predicate Valid()
      reads this
    {
      WellFormed(now) && LawfulHistory(steps, created)
    }

    /** History is only added to, files only move forward, and no step since was destructive. */
    twostate predicate Continues()
      reads this
    {
      && Valid()
      && old(steps) <= steps && old(moments) <= moments && old(created) <= created
      && Evolves(old(now), now)
      && (old(disturbed) ==> disturbed)
      && Preserving(steps, |old(steps)|)
    }

    /** Nothing but observations. */
    twostate predicate Observes()
      reads this
    {
      && Continues() && steps == old(steps)
      && (!disturbed ==> now == old(now))
    }

    /** Exactly one more step, which led to the present state. */
    twostate predicate Did(action: Action)
      reads this
    {
      && |steps| == |old(steps)| + 1 && old(steps) <= steps
      && steps[|steps| - 1].action == action && steps[|steps| - 1].after == now
      && |moments| > |old(moments)| && moments[|moments| - 1] == now
    }

    /** Undisturbed, everything that was there still is, unchanged. */
    twostate predicate Adds()
      reads this
    {
      !disturbed ==>
        && (forall slot :: slot in old(now.slots) ==> slot in now.slots && now.slots[slot] == old(now.slots[slot]))
        && (forall i :: i in old(now.nodes) ==> i in now.nodes && now.nodes[i] == old(now.nodes[i]))
    }

    constructor (initial: FsState)
      requires WellFormed(initial)
      ensures Valid() && now == initial && steps == [] && moments == [] && !disturbed && created == {}
    {
      now, steps, moments, disturbed, created := initial, [], [], false, {};
    }

    /** Anything other processes do before the next system call. */
    method Interfere()
      requires Valid()
      modifies this
      ensures Observes() && moments == old(moments) + [now]
    {
      var next: FsState := *;
      if WellFormed(next) && Evolves(now, next) {
        disturbed := disturbed || next != now;
        now := next;
      }
      moments := moments + [now];
    }

    /** `renameat2` with `RENAME_NOREPLACE`. */
    method RenameNoReplace(from: Slot, to: Slot) returns (error: Option<Errno>)
      requires Valid()
      modifies this
      ensures Continues()
      ensures error.Some? ==> steps == old(steps) && (!disturbed ==> now == old(now))
      ensures error.None? ==> Did(Rename(from, to))
      ensures error.None? && !disturbed ==>
        from in old(now.slots) && to !in old(now.slots) && now.slots == (old(now.slots) - {from})[to := old(now.slots)[from]]
    {
      Interfere();
      var fails: bool := *;
      if fails { return Some(Other); }
      if from !in now.slots { return Some(NotFound); }
      if to in now.slots { return Some(AlreadyExists); }
      MovedLawful(now, from, to);
      Advance(Step(Rename(from, to), now, Moved(now, from, to)));
      return None;
    }

    /** `renameat2` with `RENAME_EXCHANGE`. */
    method ExchangeFiles(left: Slot, right: Slot) returns (error: Option<Errno>)
      requires Valid()
      modifies this
      ensures Continues()
      ensures error.Some? ==> steps == old(steps) && (!disturbed ==> now == old(now))
      ensures error.None? ==> Did(Exchange(left, right))
    {
      Interfere();
      var fails: bool := *;
      if fails { return Some(Other); }
      if left !in now.slots || right !in now.slots { return Some(NotFound); }
      var slots := now.slots[left := now.slots[right]][right := now.slots[left]];
      var nodes := Renamed(Renamed(now.nodes, now.slots[left]), now.slots[right]);
      Advance(Step(Exchange(left, right), now, FsState(slots, nodes)));
      return None;
    }

    /** Exclusive creation of an empty file. */
    method CreateNew(slot: Slot) returns (file: Result<nat, Errno>)
      requires Valid()
      modifies this
      ensures Continues() && Adds()
      ensures file.Failure? ==> steps == old(steps)
      ensures file.Success? ==>
        && (!disturbed ==> file.value !in old(now.nodes) && slot !in old(now.slots))
        && IsFile(now, file.value) && file.value in created
        && Did(Create(slot, file.value))
    {
      Interfere();
      var fails: bool := *;
      if fails { return Failure(Other); }
      if slot in now.slots { return Failure(AlreadyExists); }
      var inode: nat := *;
      if inode in now.nodes { return Failure(Other); }
      LawfulWithMore(steps, created, created + {inode});
      created := created + {inode};
      CreatedLawful(now, slot, inode);
      Advance(Step(Create(slot, inode), now, Created(now, slot, inode)));
      return Success(inode);
    }

    method CreateDir(slot: Slot) returns (error: Option<Errno>)
      requires Valid()
      modifies this
      ensures Continues() && Adds()
      ensures error.Some? ==> steps == old(steps)
      ensures error.None? ==> Did(MakeDirectory(slot)) && (!disturbed ==> slot !in old(now.slots))
    {
      Interfere();
      var fails: bool := *;
      if fails { return Some(Other); }
      if slot in now.slots { return Some(AlreadyExists); }
      var inode: nat := *;
      if inode in now.nodes { return Some(Other); }
      DirectoryLawful(now, slot, inode);
      Advance(Step(MakeDirectory(slot), now, WithDirectory(now, slot, inode)));
      return None;
    }

    /** Writing, or setting the mode of, a file the protocol created. */
    method WriteOwn(inode: nat, content: seq<byte>) returns (error: Option<Errno>)
      requires Valid() && IsFile(now, inode) && inode in created
      modifies this
      ensures Continues()
      ensures error.Some? ==> steps == old(steps)
      ensures error.None? ==> Did(Write(inode))
      ensures !disturbed ==>
        now.slots == old(now.slots) && forall i :: i in old(now.nodes) && i != inode ==> i in now.nodes && now.nodes[i] == old(now.nodes[i])
    {
      Interfere();
      var fails: bool := *;
      if fails { return Some(Other); }
      var meta: nat := *;
      WrittenLawful(now, inode, content, meta);
      Advance(Step(Write(inode), now, Written(now, inode, content, meta)));
      return None;
    }

    method Advance(step: Step)
      requires Valid() && step.before == now && Lawful(step)
      requires step.action.Write? ==> step.action.inode in created
      modifies `now, `steps, `moments
      ensures Valid() && now == step.after && moments == old(moments) + [now]
      ensures steps == old(steps) + [step]
    {
      now := step.after;
      moments := moments + [now];
      LawfulSnoc(steps, created, step);
      steps := steps + [step];
    }
  }
}

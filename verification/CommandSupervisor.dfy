/**
 The process-wide command supervisor (crates/capability-coding/src/command.rs) as a transition
 system: runner threads racing for slots with compare-and-exchange, one worker, a heap ordered by
 due time, panics, signals and waits, and operating-system answers chosen by the environment.
 Times are milliseconds.
 */
module CommandSupervisor {
  import opened Prelude
  import opened CommandRun

  const MAX_COMMAND_SUPERVISION_SLOTS: nat := 64
  const MAX_COMMAND_PROCESSING_PANICS: nat := 8
  const INITIAL_PROCESSING_PANIC_BACKOFF: nat := 10
  const MAX_PROCESSING_PANIC_BACKOFF: nat := 250
  const RETRY_DELAY: nat := 250

  /** A supervised command; it carries its permit. */
  datatype Command = Command(id: nat, processingPanics: nat, terminationAttempts: nat, retryDelay: nat, nextAction: nat)

  /** Where a runner thread is: past the health check, in the reservation loop, with a permit, with a child. */
  datatype Phase = Admitted | Reserving(observed: nat) | Holding | Running(id: nat, stage: Stage)

  /** The command the worker has taken, and what it has done to it since. */
  datatype InFlight = InFlight(command: Command, stage: Stage)

  datatype System = System(
    clock: nat,
    activeSlots: nat,
    threads: map<nat, Phase>,
    queue: set<Command>,
    inFlight: Option<InFlight>,
    degraded: bool,
    spawned: set<nat>,
    handedOff: set<nat>,
    completed: set<nat>,
    reaped: set<nat>)

  datatype Event =
    | Tick(now: nat)
    | Admit(thread: nat)
    | Load(thread: nat)
    | CompareExchange(thread: nat, spurious: bool)
    | SpawnFails(thread: nat)
    | Spawn(thread: nat, id: nat)
    | RunnerActs(thread: nat, step: ProcessStep)
    | RunnerReturns(thread: nat)
    | HandOff(thread: nat)
    | Take(command: Command)
    | WorkerActs(step: ProcessStep)
    | Requeue(started: nat, next: Command)
    | Complete
    | Panic

  const INITIAL := System(0, 0, map[], {}, None, false, {}, {}, {}, {})

  // ---- one command, one round -----------------------------------------------------------------------

  function Min(a: nat, b: nat): nat {
    if a < b then a else b
  }

  /** `record_processing_panic`: the count saturates, the delay doubles up to its maximum. */
  function Panicked(c: Command, now: nat): Command {
    var panics := Min(c.processingPanics + 1, 255);
    var delay := Min(INITIAL_PROCESSING_PANIC_BACKOFF * Doubled(Min(panics - 1, 5)), MAX_PROCESSING_PANIC_BACKOFF);
    c.(processingPanics := panics, nextAction := now + delay)
  }

  function Doubled(n: nat): nat {
    if n == 0 then 1 else 2 * Doubled(n - 1)
  }

  /** A live leader was signalled once more. */
  function Retried(c: Command, now: nat): Command
    requires c.terminationAttempts > 0
  {
    c.(terminationAttempts := c.terminationAttempts - 1, nextAction := now + c.retryDelay,
       retryDelay := Min(c.retryDelay * 2, RETRY_DELAY), processingPanics := 0)
  }

  /** The command is looked at again later. */
  function Deferred(c: Command, now: nat): Command {
    c.(nextAction := now + RETRY_DELAY, processingPanics := 0)
  }

  predicate MayRequeue(c: Command, now: nat, next: Command) {
    next == Deferred(c, now) || (c.terminationAttempts > 0 && next == Retried(c, now))
  }

  /**
   `supervise_command_once`, and the reset of the panic count after it. Whatever the operating system
   answers: the command comes back unless its child was reaped, and the steps taken are permitted
   ones, in whatever stage an earlier round left the child.
   */
  method SuperviseCommandOnce(child: CommandProcess, command: Command, now: nat)
    returns (again: bool, next: Command, ghost taken: seq<ProcessStep>)
    requires child.Sound() && !child.reaped
    modifies child
    ensures child.Sound() && (again <==> !child.reaped)
    ensures again ==> MayRequeue(command, now, next)
    ensures child.history == old(child.history) + taken
    ensures StageAfter(Live, taken).Some? && (again <==> StageAfter(Live, taken) != Some(Gone))
  {
    ghost var before := child.history;
    ghost var stage := child.CurrentStage().value;
    taken := [];
    next := command;
    var terminal := child.LeaderTerminal();
    if terminal == Success(true) {
      var failed := child.SealAndReapTerminalGroup();
      taken := child.history[|before|..];
      RoundFrom(stage, before, taken);
      if failed.None? { return false, command, taken; }
      return true, Deferred(command, now), taken;
    }
    if command.terminationAttempts > 0 {
      var _ := child.TerminateGroup();
      taken := [Signal];
      RoundFrom(stage, before, taken);
      return true, Retried(command, now), taken;
    }
    return true, Deferred(command, now), taken;
  }

  lemma RoundFrom(stage: Stage, before: seq<ProcessStep>, taken: seq<ProcessStep>)
    requires StageAfter(Live, before) == Some(stage) && stage != Gone
    requires taken != [] && taken[0] == Signal
    ensures StageAfter(Live, before + taken) == StageAfter(Live, taken)
  {
    StageJoin(Live, before, taken);
    SignalFirst(stage, taken);
  }

  // ---- transitions ------------------------------------------------------------------------------

  /** The heap order: earlier due time first, then smaller id. */
  predicate NotAfter(a: Command, b: Command) {
    a.nextAction < b.nextAction || (a.nextAction == b.nextAction && a.id <= b.id)
  }

  predicate At(s: System, thread: nat, phase: Phase) {
    thread in s.threads && s.threads[thread] == phase
  }

  predicate RunsChild(s: System, thread: nat) {
    thread in s.threads && s.threads[thread].Running?
  }

  /** May the event happen now? An actor knows only what it has done to its child itself. */
  predicate Enabled(s: System, e: Event) {
    match e
    case Tick(now) => s.clock <= now
    case Admit(t) => t !in s.threads && !s.degraded
    case Load(t) => At(s, t, Admitted)
    case CompareExchange(t, _) => t in s.threads && s.threads[t].Reserving?
    case SpawnFails(t) => At(s, t, Holding)
    case Spawn(t, id) => At(s, t, Holding) && id !in s.spawned
    case RunnerActs(t, step) => RunsChild(s, t) && Permitted(s.threads[t].stage, step)
    case RunnerReturns(t) => RunsChild(s, t) && s.threads[t].stage == Gone
    case HandOff(t) => RunsChild(s, t) && s.threads[t].stage != Gone
    case Take(c) => s.inFlight.None? && c in s.queue && c.nextAction <= s.clock && forall d :: d in s.queue ==> NotAfter(c, d)
    case WorkerActs(step) => s.inFlight.Some? && Permitted(s.inFlight.value.stage, step)
    case Requeue(started, next) =>
      s.inFlight.Some? && s.inFlight.value.stage != Gone && started <= s.clock && MayRequeue(s.inFlight.value.command, started, next)
    case Complete => s.inFlight.Some? && s.inFlight.value.stage == Gone
    case Panic => s.inFlight.Some? && s.inFlight.value.stage != Gone
  }

  /** One turn of the reservation loop. */
  function Reserve(s: System, t: nat, observed: nat, spurious: bool): System {
    if observed >= MAX_COMMAND_SUPERVISION_SLOTS then s.(threads := s.threads - {t})
    else if observed == s.activeSlots && !spurious then s.(activeSlots := observed + 1, threads := s.threads[t := Holding])
    else s.(threads := s.threads[t := Reserving(s.activeSlots)])
  }

  /** Dropping a permit; the invariant keeps the count positive while one is held. */
  function Released(slots: nat): nat {
    if slots == 0 then 0 else slots - 1
  }

  function ReapedBy(reaped: set<nat>, id: nat, step: ProcessStep): set<nat> {
    if step.Wait? && step.reaps then reaped + {id} else reaped
  }

  function RunnerActed(s: System, t: nat, step: ProcessStep): System
    requires RunsChild(s, t)
  {
    var id := s.threads[t].id;
    s.(threads := s.threads[t := Running(id, Next(s.threads[t].stage, step))], reaped := ReapedBy(s.reaped, id, step))
  }

  function WorkerActed(s: System, step: ProcessStep): System
    requires s.inFlight.Some?
  {
    var f := s.inFlight.value;
    s.(inFlight := Some(InFlight(f.command, Next(f.stage, step))), reaped := ReapedBy(s.reaped, f.command.id, step))
  }

  /** The command in flight goes back to the queue as `c`. */
  function Requeued(s: System, c: Command): System {
    s.(queue := s.queue + {c}, inFlight := None)
  }

  function Apply(s: System, e: Event): System
    requires Enabled(s, e)
  {
    match e
    case Tick(now) => s.(clock := now)
    case Admit(t) => s.(threads := s.threads[t := Admitted])
    case Load(t) => s.(threads := s.threads[t := Reserving(s.activeSlots)])
    case CompareExchange(t, spurious) => Reserve(s, t, s.threads[t].observed, spurious)
    case SpawnFails(t) => s.(activeSlots := Released(s.activeSlots), threads := s.threads - {t})
    case Spawn(t, id) => s.(threads := s.threads[t := Running(id, Live)], spawned := s.spawned + {id})
    case RunnerActs(t, step) => RunnerActed(s, t, step)
    case RunnerReturns(t) => s.(activeSlots := Released(s.activeSlots), threads := s.threads - {t})
    case HandOff(t) =>
      var id := s.threads[t].id;
      s.(threads := s.threads - {t}, queue := s.queue + {Command(id, 0, 8, 10, s.clock)}, handedOff := s.handedOff + {id})
    case Take(c) => s.(queue := s.queue - {c}, inFlight := Some(InFlight(c, Live)))
    case WorkerActs(step) => WorkerActed(s, step)
    case Requeue(_, next) => Requeued(s, next)
    case Complete =>
      s.(activeSlots := Released(s.activeSlots), inFlight := None, completed := s.completed + {s.inFlight.value.command.id})
    case Panic =>
      var c := Panicked(s.inFlight.value.command, s.clock);
      Requeued(s, c).(degraded := s.degraded || c.processingPanics >= MAX_COMMAND_PROCESSING_PANICS)
  }

  // ---- the invariant --------------------------------------------------------------------------------

  predicate HasPermit(phase: Phase) {
    phase.Holding? || phase.Running?
  }

  function Permits(threads: map<nat, Phase>): set<nat> {
    set t | t in threads && HasPermit(threads[t])
  }

  /** Every permit is held by a runner, a queued command or the command in flight. */
  ghost predicate PermitsConserved(s: System) {
    s.activeSlots == |Permits(s.threads)| + |s.queue| + (if s.inFlight.Some? then 1 else 0)
  }

  predicate IsInFlight(s: System, id: nat) {
    s.inFlight.Some? && s.inFlight.value.command.id == id
  }

  predicate Queued(s: System, id: nat) {
    exists c :: c in s.queue && c.id == id
  }

  predicate Supervised(s: System, id: nat) {
    Queued(s, id) || IsInFlight(s, id)
  }

  /** No two queued commands are the same child, and none is the one in flight. */
  ghost predicate QueuedOnce(s: System) {
    && (forall c, d :: c in s.queue && d in s.queue && c.id == d.id ==> c == d)
    && (forall c :: c in s.queue ==> !IsInFlight(s, c.id))
  }

  /** Queued children are not reaped, and the worker knows whether the one in flight is. */
  ghost predicate ReapsKnown(s: System) {
    && (forall c :: c in s.queue ==> c.id !in s.reaped)
    && (s.inFlight.Some? ==> (s.inFlight.value.stage == Gone <==> s.inFlight.value.command.id in s.reaped))
    && (forall t :: RunsChild(s, t) ==> (s.threads[t].stage == Gone <==> s.threads[t].id in s.reaped))
  }

  /** A child handed over is queued, in flight or completed, and completed only once it was reaped. */
  ghost predicate OwnedOnce(s: System) {
    && (forall c :: c in s.queue ==> c.id in s.handedOff && c.id !in s.completed)
    && (s.inFlight.Some? ==> s.inFlight.value.command.id in s.handedOff && s.inFlight.value.command.id !in s.completed)
    && s.completed <= s.handedOff && s.completed <= s.reaped
    && (forall id :: id in s.handedOff && id !in s.completed ==> Supervised(s, id))
    && s.handedOff <= s.spawned && s.reaped <= s.spawned
  }

  /** A running child belongs to one thread only. */
  ghost predicate RunnersDistinct(s: System) {
    && (forall t :: RunsChild(s, t) ==> s.threads[t].id in s.spawned && s.threads[t].id !in s.handedOff)
    && (forall t, u :: RunsChild(s, t) && RunsChild(s, u) && s.threads[t].id == s.threads[u].id ==> t == u)
  }

  ghost predicate Inv(s: System) {
    && PermitsConserved(s) && s.activeSlots <= MAX_COMMAND_SUPERVISION_SLOTS
    && QueuedOnce(s) && ReapsKnown(s) && OwnedOnce(s) && RunnersDistinct(s)
  }

  // ---- permits ----------------------------------------------------------------------------------------

  lemma PermitPositive(s: System, t: nat)
    requires PermitsConserved(s) && t in s.threads && HasPermit(s.threads[t])
    ensures s.activeSlots > 0
  {
    assert t in Permits(s.threads);
  }

  lemma PermitsWithout(threads: map<nat, Phase>, t: nat)
    ensures Permits(threads - {t}) == Permits(threads) - {t}
  {
  }

  lemma PermitsWith(threads: map<nat, Phase>, t: nat, phase: Phase)
    ensures Permits(threads[t := phase]) == if HasPermit(phase) then Permits(threads) + {t} else Permits(threads) - {t}
  {
  }

  lemma PermitsUpdated(threads: map<nat, Phase>, t: nat, phase: Phase)
    ensures var had := if t in threads && HasPermit(threads[t]) then 1 else 0;
      && |Permits(threads[t := phase])| == |Permits(threads)| - had + (if HasPermit(phase) then 1 else 0)
      && |Permits(threads - {t})| == |Permits(threads)| - had
  {
    PermitsWithout(threads, t);
    PermitsWith(threads, t, phase);
    var permits := Permits(threads);
    assert t in permits <==> t in threads && HasPermit(threads[t]);
  }

  predicate OfWorker(e: Event) {
    e.Take? || e.WorkerActs? || e.Requeue? || e.Complete? || e.Panic?
  }

  /** Two threads that observed the same count cannot both take the last slot. */
  lemma ReserveConservesPermits(s: System, t: nat, spurious: bool)
    requires PermitsConserved(s) && s.activeSlots <= MAX_COMMAND_SUPERVISION_SLOTS
    requires t in s.threads && s.threads[t].Reserving?
    ensures var next := Reserve(s, t, s.threads[t].observed, spurious);
      PermitsConserved(next) && next.activeSlots <= MAX_COMMAND_SUPERVISION_SLOTS
  {
    PermitsUpdated(s.threads, t, Holding);
    PermitsUpdated(s.threads, t, Reserving(s.activeSlots));
  }

  lemma RunnerConservesPermits(s: System, e: Event)
    requires PermitsConserved(s) && s.activeSlots <= MAX_COMMAND_SUPERVISION_SLOTS && Enabled(s, e) && !OfWorker(e) && !e.HandOff?
    ensures PermitsConserved(Apply(s, e)) && Apply(s, e).activeSlots <= MAX_COMMAND_SUPERVISION_SLOTS
  {
    match e
    case Tick(_) =>
    case Admit(t) => PermitsUpdated(s.threads, t, Admitted);
    case Load(t) => PermitsUpdated(s.threads, t, Reserving(s.activeSlots));
    case CompareExchange(t, spurious) => ReserveConservesPermits(s, t, spurious);
    case SpawnFails(t) => PermitPositive(s, t); PermitsUpdated(s.threads, t, Admitted);
    case Spawn(t, id) => PermitsUpdated(s.threads, t, Running(id, Live));
    case RunnerActs(t, step) => PermitsUpdated(s.threads, t, Running(s.threads[t].id, Next(s.threads[t].stage, step)));
    case RunnerReturns(t) => PermitPositive(s, t); PermitsUpdated(s.threads, t, Admitted);
  }

  lemma HandOffConservesPermits(s: System, t: nat)
    requires PermitsConserved(s) && OwnedOnce(s) && RunnersDistinct(s) && Enabled(s, HandOff(t))
    ensures PermitsConserved(Apply(s, HandOff(t))) && Apply(s, HandOff(t)).activeSlots == s.activeSlots
  {
    var c := Command(s.threads[t].id, 0, 8, 10, s.clock);
    PermitsUpdated(s.threads, t, Admitted);
    assert t in Permits(s.threads);
    assert c !in s.queue;
  }

  // ---- runners ------------------------------------------------------------------------------------------

  /** What a runner leaves alone keeps its children owned, queued and known as they were. */
  lemma QueueAlone(s: System, next: System)
    requires QueuedOnce(s) && OwnedOnce(s)
    requires next.queue == s.queue && next.inFlight == s.inFlight && next.handedOff == s.handedOff && next.completed == s.completed
    requires s.spawned <= next.spawned && s.reaped <= next.reaped <= next.spawned
    ensures QueuedOnce(next) && OwnedOnce(next)
  {
    forall id | id in next.handedOff && id !in next.completed
      ensures Supervised(next, id)
    {
      assert Supervised(s, id);
      if c :| c in s.queue && c.id == id { assert c in next.queue; }
    }
  }

  /** A thread without a child, or a thread gone. */
  lemma RunnersStay(s: System, next: System)
    requires RunnersDistinct(s) && ReapsKnown(s)
    requires forall u :: RunsChild(next, u) ==> RunsChild(s, u) && s.threads[u] == next.threads[u]
    requires next.spawned == s.spawned && next.handedOff == s.handedOff && next.reaped == s.reaped
    requires next.queue == s.queue && next.inFlight == s.inFlight
    ensures RunnersDistinct(next) && ReapsKnown(next)
  {
  }

  lemma SpawnKeepsRunners(s: System, t: nat, id: nat)
    requires Inv(s) && Enabled(s, Event.Spawn(t, id))
    ensures RunnersDistinct(Apply(s, Event.Spawn(t, id))) && ReapsKnown(Apply(s, Event.Spawn(t, id)))
  {
    assert id !in s.handedOff && id !in s.reaped;
  }

  /** A runner's step on its own child is seen by nobody else. */
  lemma RunnerActsKeepsRunners(s: System, t: nat, step: ProcessStep)
    requires Inv(s) && Enabled(s, RunnerActs(t, step))
    ensures RunnersDistinct(RunnerActed(s, t, step)) && ReapsKnown(RunnerActed(s, t, step))
  {
    var next, id := RunnerActed(s, t, step), s.threads[t].id;
    assert forall u :: RunsChild(next, u) <==> RunsChild(s, u);
    assert forall u :: RunsChild(next, u) ==> next.threads[u].id == s.threads[u].id;
    assert forall c :: c in s.queue ==> c.id != id;
  }

  lemma HandOffKeepsRunners(s: System, t: nat)
    requires Inv(s) && Enabled(s, HandOff(t))
    ensures RunnersDistinct(Apply(s, HandOff(t))) && ReapsKnown(Apply(s, HandOff(t))) && QueuedOnce(Apply(s, HandOff(t)))
  {
    var next := Apply(s, HandOff(t));
    assert forall u :: RunsChild(next, u) ==> RunsChild(s, u) && u != t;
    assert forall c :: c in s.queue ==> c.id != s.threads[t].id;
  }

  lemma HandOffKeepsOwnership(s: System, t: nat)
    requires Inv(s) && Enabled(s, HandOff(t))
    ensures OwnedOnce(Apply(s, HandOff(t)))
  {
    var next := Apply(s, HandOff(t));
    var c := Command(s.threads[t].id, 0, 8, 10, s.clock);
    forall id | id in next.handedOff && id !in next.completed
      ensures Supervised(next, id)
    {
      if id == c.id {
        assert c in next.queue;
      } else {
        assert Supervised(s, id);
        if d :| d in s.queue && d.id == id { assert d in next.queue; }
      }
    }
  }

  lemma InvKeptByRunner(s: System, e: Event)
    requires Inv(s) && Enabled(s, e) && !OfWorker(e)
    ensures Inv(Apply(s, e))
  {
    hide PermitsConserved, QueuedOnce, ReapsKnown, OwnedOnce, RunnersDistinct;
    if e.HandOff? {
      HandOffConservesPermits(s, e.thread);
      HandOffKeepsRunners(s, e.thread);
      HandOffKeepsOwnership(s, e.thread);
    } else {
      RunnerConservesPermits(s, e);
      ReapsAreSpawned(s, e);
      QueueAlone(s, Apply(s, e));
      if e.Spawn? {
        SpawnKeepsRunners(s, e.thread, e.id);
      } else if e.RunnerActs? {
        RunnerActsKeepsRunners(s, e.thread, e.step);
      } else {
        RunnersStay(s, Apply(s, e));
      }
    }
  }

  lemma ReapsAreSpawned(s: System, e: Event)
    requires Inv(s) && Enabled(s, e) && !OfWorker(e) && !e.HandOff?
    ensures s.reaped <= Apply(s, e).reaped <= Apply(s, e).spawned && s.spawned <= Apply(s, e).spawned
  {
  }

  // ---- the worker -----------------------------------------------------------------------------------------

  lemma TakeKeepsInv(s: System, c: Command)
    requires Inv(s) && Enabled(s, Take(c))
    ensures Inv(Apply(s, Take(c)))
  {
    var next := Apply(s, Take(c));
    forall id | id in next.handedOff && id !in next.completed
      ensures Supervised(next, id)
    {
      assert Supervised(s, id);
      if d :| d in s.queue && d.id == id {
        if d != c { assert d in next.queue; }
      }
    }
  }

  lemma WorkerActsKeepsInv(s: System, step: ProcessStep)
    requires Inv(s) && Enabled(s, WorkerActs(step))
    ensures Inv(WorkerActed(s, step))
  {
    var next, id := WorkerActed(s, step), s.inFlight.value.command.id;
    forall other | other in next.handedOff && other !in next.completed
      ensures Supervised(next, other)
    {
      assert Supervised(s, other);
      if d :| d in s.queue && d.id == other { assert d in next.queue; }
    }
  }

  lemma CompletionKeepsInv(s: System)
    requires Inv(s) && Enabled(s, Complete)
    ensures Inv(Apply(s, Complete))
  {
    var next := Apply(s, Complete);
    forall id | id in next.handedOff && id !in next.completed
      ensures Supervised(next, id)
    {
      assert Supervised(s, id);
      if d :| d in s.queue && d.id == id { assert d in next.queue; }
    }
  }

  /** A command goes back to the queue, changed or not, as long as it was not reaped. */
  lemma RequeueKeepsInv(s: System, c: Command, degraded: bool)
    requires Inv(s) && s.inFlight.Some? && s.inFlight.value.stage != Gone && c.id == s.inFlight.value.command.id
    ensures Inv(Requeued(s, c).(degraded := degraded))
  {
    var next := Requeued(s, c).(degraded := degraded);
    assert c !in s.queue;
    forall id | id in next.handedOff && id !in next.completed
      ensures Supervised(next, id)
    {
      assert Supervised(s, id);
      if d :| d in s.queue && d.id == id {
        assert d in next.queue;
      } else {
        assert c in next.queue;
      }
    }
  }

  /** Every event keeps the invariant. */
  lemma InvKept(s: System, e: Event)
    requires Inv(s) && Enabled(s, e)
    ensures Inv(Apply(s, e))
  {
    hide Inv;
    match e
    case Take(c) => TakeKeepsInv(s, c);
    case WorkerActs(step) => WorkerActsKeepsInv(s, step);
    case Complete => CompletionKeepsInv(s);
    case Requeue(_, next) => RequeueKeepsInv(s, next, s.degraded);
    case Panic => RequeueKeepsInv(s, Panicked(s.inFlight.value.command, s.clock), Apply(s, e).degraded);
    case _ => InvKeptByRunner(s, e);
  }

  // ---- whole runs ----------------------------------------------------------------------------------------

  /** The state after the events, if each may happen when it does. */
  function StateAfter(events: seq<Event>): Option<System>
    decreases |events|
  {
    if events == [] then Some(INITIAL)
    else
      var before := StateAfter(events[..|events| - 1]);
      var e := events[|events| - 1];
      if before.Some? && Enabled(before.value, e) then Some(Apply(before.value, e)) else None
  }

  lemma StateSnoc(events: seq<Event>, e: Event)
    ensures StateAfter(events + [e]) ==
      var before := StateAfter(events);
      if before.Some? && Enabled(before.value, e) then Some(Apply(before.value, e)) else None
  {
    assert (events + [e])[..|events|] == events;
  }

  lemma {:induction false} InvAlways(events: seq<Event>)
    requires StateAfter(events).Some?
    ensures Inv(StateAfter(events).value)
    decreases |events|
  {
    if events != [] {
      InvAlways(events[..|events| - 1]);
      InvKept(StateAfter(events[..|events| - 1]).value, events[|events| - 1]);
    }
  }

  /** What only grows in one event. */
  ghost predicate Grown(s: System, next: System) {
    s.spawned <= next.spawned && s.handedOff <= next.handedOff && s.completed <= next.completed && s.reaped <= next.reaped
    && (s.degraded ==> next.degraded)
  }

  lemma GrownBy(s: System, e: Event)
    requires Enabled(s, e)
    ensures Grown(s, Apply(s, e))
  {
  }

  lemma {:induction false} GrownAlong(events: seq<Event>, i: nat)
    requires StateAfter(events).Some? && i <= |events|
    ensures StateAfter(events[..i]).Some? && Grown(StateAfter(events[..i]).value, StateAfter(events).value)
    decreases |events|
  {
    if i == |events| {
      assert events[..i] == events;
    } else {
      var front := events[..|events| - 1];
      GrownAlong(front, i);
      assert front[..i] == events[..i];
      GrownBy(StateAfter(front).value, events[|events| - 1]);
    }
  }

  /**
   In every interleaving from the start: the slot counter equals the live permits and never exceeds
   64; a command handed over is in exactly one of queue, flight and completion, and it is completed
   only after its child was reaped, which is nowhere else but in flight then.
   */
  lemma EveryInterleaving(events: seq<Event>, id: nat)
    requires StateAfter(events).Some?
    ensures var s := StateAfter(events).value;
      && PermitsConserved(s) && s.activeSlots <= MAX_COMMAND_SUPERVISION_SLOTS
      && (id in s.handedOff <==> Queued(s, id) || IsInFlight(s, id) || id in s.completed)
      && !(Queued(s, id) && IsInFlight(s, id)) && !(Queued(s, id) && id in s.completed) && !(IsInFlight(s, id) && id in s.completed)
      && (id in s.completed ==> id in s.reaped)
      && (id in s.handedOff && id in s.reaped ==> id in s.completed || IsInFlight(s, id))
  {
    InvAlways(events);
  }

  /** The event does something to child `id`. */
  predicate ActsOn(s: System, e: Event, id: nat) {
    match e
    case RunnerActs(t, _) => RunsChild(s, t) && s.threads[t].id == id
    case WorkerActs(_) => IsInFlight(s, id)
    case _ => false
  }

  lemma ActsOnLiveOnly(s: System, e: Event, id: nat)
    requires Inv(s) && Enabled(s, e) && ActsOn(s, e, id)
    ensures id !in s.reaped
  {
    hide PermitsConserved, QueuedOnce, OwnedOnce, RunnersDistinct;
  }

  /** The event that came after a prefix was enabled there. */
  lemma EnabledThen(events: seq<Event>, j: nat)
    requires StateAfter(events).Some? && j < |events|
    ensures StateAfter(events[..j]).Some? && Enabled(StateAfter(events[..j]).value, events[j])
  {
    GrownAlong(events, j + 1);
    assert events[..j + 1] == events[..j] + [events[j]];
    StateSnoc(events[..j], events[j]);
  }

  /** No group signal and no wait, by any thread, ever follows the reap of a child. */
  lemma NeverTouchedAfterReap(events: seq<Event>, i: nat, j: nat, id: nat)
    requires StateAfter(events).Some? && i <= j < |events|
    requires StateAfter(events[..i]).Some? && id in StateAfter(events[..i]).value.reaped
    ensures StateAfter(events[..j]).Some? && !ActsOn(StateAfter(events[..j]).value, events[j], id)
  {
    hide StateAfter, Inv, Enabled, ActsOn;
    EnabledThen(events, j);
    assert events[..j][..i] == events[..i];
    GrownAlong(events[..j], i);
    InvAlways(events[..j]);
    if ActsOn(StateAfter(events[..j]).value, events[j], id) {
      ActsOnLiveOnly(StateAfter(events[..j]).value, events[j], id);
    }
  }

  /** While a runner has a child, no other runner and no supervisor has it. */
  lemma OneActorAtATime(events: seq<Event>, id: nat)
    requires StateAfter(events).Some?
    ensures var s := StateAfter(events).value;
      && (forall t, u :: RunsChild(s, t) && RunsChild(s, u) && s.threads[t].id == id && s.threads[u].id == id ==> t == u)
      && (forall t :: RunsChild(s, t) && s.threads[t].id == id ==> !Queued(s, id) && !IsInFlight(s, id) && id !in s.completed)
  {
    InvAlways(events);
  }

  // ---- the degraded latch -----------------------------------------------------------------------------------

  /** How often in a row, up to now, the processing of command `id` panicked. */
  function PanicsInARow(events: seq<Event>, id: nat): nat
    decreases |events|
  {
    if events == [] then 0
    else
      var before := StateAfter(events[..|events| - 1]);
      var panics := PanicsInARow(events[..|events| - 1], id);
      match events[|events| - 1]
      case Panic => if before.Some? && IsInFlight(before.value, id) then panics + 1 else panics
      case Requeue(_, _) => if before.Some? && IsInFlight(before.value, id) then 0 else panics
      case _ => panics
  }

  /** Every supervised command carries its count, up to 255; others have none. */
  ghost predicate PanicsCounted(events: seq<Event>, s: System) {
    && (forall c :: c in s.queue ==> c.processingPanics == Min(PanicsInARow(events, c.id), 255))
    && (s.inFlight.Some? ==> s.inFlight.value.command.processingPanics == Min(PanicsInARow(events, s.inFlight.value.command.id), 255))
    && (forall id :: id !in s.handedOff ==> PanicsInARow(events, id) == 0)
  }

  lemma PanicsSnoc(events: seq<Event>, e: Event, id: nat)
    ensures PanicsInARow(events + [e], id) ==
      var before, panics := StateAfter(events), PanicsInARow(events, id);
      match e
      case Panic => if before.Some? && IsInFlight(before.value, id) then panics + 1 else panics
      case Requeue(_, _) => if before.Some? && IsInFlight(before.value, id) then 0 else panics
      case _ => panics
  {
    assert (events + [e])[..|events|] == events;
  }

  lemma CountKept(events: seq<Event>, s: System, e: Event)
    requires StateAfter(events) == Some(s) && Inv(s) && Enabled(s, e) && PanicsCounted(events, s)
    ensures PanicsCounted(events + [e], Apply(s, e))
  {
    hide StateAfter, PanicsInARow, PermitsConserved, ReapsKnown;
    forall id
      ensures id !in Apply(s, e).handedOff ==> PanicsInARow(events + [e], id) == 0
    {
      PanicsSnoc(events, e, id);
    }
    forall c | c in Apply(s, e).queue
      ensures c.processingPanics == Min(PanicsInARow(events + [e], c.id), 255)
    {
      PanicsSnoc(events, e, c.id);
    }
    if Apply(s, e).inFlight.Some? {
      PanicsSnoc(events, e, Apply(s, e).inFlight.value.command.id);
    }
  }

  lemma {:induction false} CountAlways(events: seq<Event>)
    requires StateAfter(events).Some?
    ensures PanicsCounted(events, StateAfter(events).value)
    decreases |events|
  {
    if events != [] {
      var front := events[..|events| - 1];
      assert events == front + [events[|events| - 1]];
      CountAlways(front);
      InvAlways(front);
      CountKept(front, StateAfter(front).value, events[|events| - 1]);
    }
  }

  /** Some command's processing has just panicked at least eight times in a row. */
  ghost predicate PanickedTooOften(events: seq<Event>) {
    exists id :: PanicsInARow(events, id) >= MAX_COMMAND_PROCESSING_PANICS
  }

  lemma DegradesNow(events: seq<Event>, e: Event)
    requires StateAfter(events).Some? && Enabled(StateAfter(events).value, e)
    ensures Apply(StateAfter(events).value, e).degraded || PanickedTooOften(events) <==>
      StateAfter(events).value.degraded || PanickedTooOften(events) || PanickedTooOften(events + [e])
  {
    var s := StateAfter(events).value;
    CountAlways(events);
    if e.Panic? {
      PanicsSnoc(events, e, s.inFlight.value.command.id);
    }
    if id :| PanicsInARow(events + [e], id) >= MAX_COMMAND_PROCESSING_PANICS {
      PanicsSnoc(events, e, id);
    }
  }

  /** Admission is degraded exactly when, at some time so far, a command had panicked eight times in a row. */
  lemma {:induction false} DegradedIff(events: seq<Event>)
    requires StateAfter(events).Some?
    ensures StateAfter(events).value.degraded <==> exists n :: 0 <= n <= |events| && PanickedTooOften(events[..n])
    decreases |events|
  {
    if events == [] {
      assert forall n :: 0 <= n <= |events| ==> events[..n] == [];
    } else {
      var front := events[..|events| - 1];
      assert events == front + [events[|events| - 1]] && events[..|events|] == events;
      DegradedIff(front);
      DegradesNow(front, events[|events| - 1]);
      assert forall n :: 0 <= n <= |front| ==> front[..n] == events[..n];
      assert front[..|front|] == front;
    }
  }

  /** The latch never clears, and admits nobody. */
  lemma DegradedForGood(events: seq<Event>, i: nat, t: nat)
    requires StateAfter(events).Some? && i <= |events| && StateAfter(events[..i]).Some? && StateAfter(events[..i]).value.degraded
    ensures StateAfter(events).value.degraded && !Enabled(StateAfter(events).value, Admit(t))
  {
    GrownAlong(events, i);
  }

  // ---- the programs are runs of the system ---------------------------------------------------------------------

  function WorkerSteps(steps: seq<ProcessStep>): seq<Event> {
    if steps == [] then [] else WorkerSteps(steps[..|steps| - 1]) + [WorkerActs(steps[|steps| - 1])]
  }

  function RunnerSteps(t: nat, steps: seq<ProcessStep>): seq<Event> {
    if steps == [] then [] else RunnerSteps(t, steps[..|steps| - 1]) + [RunnerActs(t, steps[|steps| - 1])]
  }

  /** What the worker does in a stretch of events. */
  function WorkerPart(events: seq<Event>): seq<Event> {
    if events == [] then []
    else WorkerPart(events[..|events| - 1]) + (if OfWorker(events[|events| - 1]) then [events[|events| - 1]] else [])
  }

  lemma OthersLeaveFlight(s: System, e: Event)
    requires Enabled(s, e) && !OfWorker(e)
    ensures Apply(s, e).inFlight == s.inFlight && s.clock <= Apply(s, e).clock
  {
  }

  lemma SomeSteps(steps: seq<ProcessStep>)
    ensures steps != [] ==> WorkerSteps(steps) != []
  {
  }

  lemma LastWorkerStep(steps: seq<ProcessStep>, before: seq<Event>, e: Event)
    requires before + [e] == WorkerSteps(steps)
    ensures steps != [] && e == WorkerActs(steps[|steps| - 1]) && before == WorkerSteps(steps[..|steps| - 1])
  {
    if steps != [] {
      var front := WorkerSteps(steps[..|steps| - 1]);
      assert (before + [e])[|before|] == e && (before + [e])[..|before|] == before;
      assert (front + [WorkerActs(steps[|steps| - 1])])[..|front|] == front;
    }
  }

  /** Every event of another thread is one that may happen when it does. */
  ghost predicate OthersMay(events: seq<Event>, mixed: seq<Event>) {
    forall k {:trigger mixed[k]} :: 0 <= k < |mixed| && !OfWorker(mixed[k]) && StateAfter(events + mixed[..k]).Some? ==>
      Enabled(StateAfter(events + mixed[..k]).value, mixed[k])
  }

  lemma OthersMayFront(events: seq<Event>, mixed: seq<Event>)
    requires mixed != [] && OthersMay(events, mixed)
    ensures OthersMay(events, mixed[..|mixed| - 1])
  {
    hide StateAfter, Enabled;
    var front := mixed[..|mixed| - 1];
    forall k | 0 <= k < |front| && !OfWorker(front[k]) && StateAfter(events + front[..k]).Some?
      ensures Enabled(StateAfter(events + front[..k]).value, front[k])
    {
      assert front[..k] == mixed[..k] && front[k] == mixed[k];
    }
  }

  /** A worker that takes permitted steps on the command it took is never held up, whatever the others do meanwhile. */
  lemma {:induction false} WorkerStepsHappen(events: seq<Event>, mixed: seq<Event>, steps: seq<ProcessStep>) returns (s: System)
    requires StateAfter(events).Some? && StateAfter(events).value.inFlight.Some? && StateAfter(events).value.inFlight.value.stage == Live
    requires StageAfter(Live, steps).Some? && WorkerPart(mixed) == WorkerSteps(steps) && OthersMay(events, mixed)
    ensures StateAfter(events + mixed) == Some(s) && StateAfter(events).value.clock <= s.clock
    ensures s.inFlight == Some(InFlight(StateAfter(events).value.inFlight.value.command, StageAfter(Live, steps).value))
    decreases |mixed|
  {
    hide StateAfter, Enabled, OthersMay;
    if mixed == [] {
      assert events + [] == events;
      SomeSteps(steps);
      s := StateAfter(events).value;
    } else {
      var front, e := mixed[..|mixed| - 1], mixed[|mixed| - 1];
      assert events + mixed == (events + front) + [e];
      OthersMayFront(events, mixed);
      StateSnoc(events + front, e);
      if OfWorker(e) {
        LastWorkerStep(steps, WorkerPart(front), e);
        var mid := WorkerStepsHappen(events, front, steps[..|steps| - 1]);
        s := ActedOn(mid, steps[|steps| - 1]);
      } else {
        var mid := WorkerStepsHappen(events, front, steps);
        OtherMay(events, mixed, |mixed| - 1);
        OthersLeaveFlight(mid, e);
        s := Apply(mid, e);
      }
    }
  }

  lemma ActedOn(mid: System, step: ProcessStep) returns (s: System)
    requires mid.inFlight.Some? && Permitted(mid.inFlight.value.stage, step)
    ensures Enabled(mid, WorkerActs(step)) && s == Apply(mid, WorkerActs(step)) && s.clock == mid.clock
    ensures s.inFlight == Some(InFlight(mid.inFlight.value.command, Next(mid.inFlight.value.stage, step)))
  {
    s := WorkerActed(mid, step);
  }

  lemma OtherMay(events: seq<Event>, mixed: seq<Event>, k: nat)
    requires OthersMay(events, mixed) && k < |mixed| && !OfWorker(mixed[k]) && StateAfter(events + mixed[..k]).Some?
    ensures Enabled(StateAfter(events + mixed[..k]).value, mixed[k])
  {
  }

  /**
   A round of `SuperviseCommandOnce` that started at `started`, with the requeue or the completion after it,
   is part of a run of the system, whatever other threads do and however much time passes meanwhile: its
   steps are enabled one by one, and it leaves the command queued or completed.
   */
  lemma RoundHappens(events: seq<Event>, mixed: seq<Event>, taken: seq<ProcessStep>, again: bool, started: nat, next: Command) returns (s: System)
    requires StateAfter(events).Some? && StateAfter(events).value.inFlight.Some? && StateAfter(events).value.inFlight.value.stage == Live
    requires StageAfter(Live, taken).Some? && (again <==> StageAfter(Live, taken) != Some(Gone))
    requires WorkerPart(mixed) == WorkerSteps(taken) && OthersMay(events, mixed)
    requires StateAfter(events + mixed).Some? ==> started <= StateAfter(events + mixed).value.clock
    requires again ==> MayRequeue(StateAfter(events).value.inFlight.value.command, started, next)
    ensures StateAfter(events + mixed).Some?
    ensures StateAfter(events + mixed + [if again then Requeue(started, next) else Complete]) == Some(s)
    ensures var before := StateAfter(events + mixed).value; var id := StateAfter(events).value.inFlight.value.command.id;
      && s.inFlight.None? && s.queue == (if again then before.queue + {next} else before.queue)
      && s.completed == (if again then before.completed else before.completed + {id})
      && (id in s.reaped <==> !again)
      && s.activeSlots == before.activeSlots - (if again then 0 else 1)
  {
    var mid := WorkerStepsHappen(events, mixed, taken);
    var last := if again then Requeue(started, next) else Complete;
    StateSnoc(events + mixed, last);
    InvAlways(events + mixed);
    s := Apply(mid, last);
  }

  lemma {:induction false} RunnerStepsHappen(events: seq<Event>, t: nat, steps: seq<ProcessStep>) returns (s: System)
    requires StateAfter(events).Some? && RunsChild(StateAfter(events).value, t) && StateAfter(events).value.threads[t].stage == Live
    requires StageAfter(Live, steps).Some?
    ensures StateAfter(events + RunnerSteps(t, steps)) == Some(s)
    ensures var before := StateAfter(events).value; var id := before.threads[t].id;
      && s.(threads := before.threads, reaped := before.reaped) == before
      && s.threads == before.threads[t := Running(id, StageAfter(Live, steps).value)]
      && (StageAfter(Live, steps) == Some(Gone) ==> id in s.reaped)
  {
    if steps == [] {
      assert events + [] == events;
      s := StateAfter(events).value;
    } else {
      var front, last := steps[..|steps| - 1], steps[|steps| - 1];
      var mid := RunnerStepsHappen(events, t, front);
      assert events + RunnerSteps(t, steps) == (events + RunnerSteps(t, front)) + [RunnerActs(t, last)];
      StateSnoc(events + RunnerSteps(t, front), RunnerActs(t, last));
      s := RunnerActed(mid, t, last);
    }
  }

  /**
   What `RunShellCommand` does to its child, with its return, is a run of the system: it ends as
   `Settled` says, with the child reaped and the slot free, or queued once with the slot still taken.
   */
  lemma RunHappens(events: seq<Event>, t: nat, history: seq<ProcessStep>, supervised: bool) returns (s: System)
    requires StateAfter(events).Some? && RunsChild(StateAfter(events).value, t) && StateAfter(events).value.threads[t].stage == Live
    requires StageAfter(Live, history).Some? && (supervised <==> StageAfter(Live, history) != Some(Gone))
    ensures StateAfter(events + RunnerSteps(t, history) + [if supervised then HandOff(t) else RunnerReturns(t)]) == Some(s)
    ensures var before := StateAfter(events).value; var id := before.threads[t].id;
      && t !in s.threads
      && (supervised <==> id in s.handedOff) && (supervised ==> Queued(s, id)) && (!supervised ==> id in s.reaped)
      && s.activeSlots == before.activeSlots - (if supervised then 0 else 1)
  {
    var mid := RunnerStepsHappen(events, t, history);
    var last := if supervised then HandOff(t) else RunnerReturns(t);
    StateSnoc(events + RunnerSteps(t, history), last);
    InvAlways(events);
    PermitPositive(StateAfter(events).value, t);
    s := Apply(mid, last);
    if supervised {
      assert Command(StateAfter(events).value.threads[t].id, 0, 8, 10, mid.clock) in s.queue;
    }
  }
}

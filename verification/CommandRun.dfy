/**
 Ownership of a spawned command (`run_shell_command`, `cleanup_process_group`,
 `reconcile_control_and_cleanup` and the `CommandProcess` methods of
 crates/capability-coding/src/command.rs). Time, signals, waits and streams answer as the
 environment chooses; the loop runs for any number of turns.
 */
module CommandRun {
  import opened Prelude

  const TERMINAL_GROUP_SEAL_ROUNDS: nat := 8

  datatype CommandError =
    | Kill(denied: bool)
    | Wait
    | ReadOutput
    | TerminationUnverified
    | Cancelled
    | OutputIncomplete
    | ConfigureOutput
    | Spawn
    | Refused
    | TerminationSupervised

  // ---- what may be done to a process group ---------------------------------------------------

  /** A group signal, the descendant token seen closed, or a blocking wait for the leader. */
  datatype ProcessStep = Signal | Seal | Wait(exited: bool, reaps: bool)

  /** Not sealed since the last signal, sealed, or reaped. */
  datatype Stage = Live | Sealed | Gone

  /** Nothing is done to a reaped child; it is waited for only when its leader has exited and its descendants are sealed. */
  predicate Permitted(stage: Stage, step: ProcessStep) {
    stage != Gone && (step.Wait? ==> stage == Sealed && step.exited)
  }

  function Next(stage: Stage, step: ProcessStep): Stage {
    match step
    case Signal => Live
    case Seal => Sealed
    case Wait(_, reaps) => if reaps then Gone else stage
  }

  /** Where a history leads, if every step of it was permitted. */
  function StageAfter(stage: Stage, history: seq<ProcessStep>): Option<Stage> {
    if history == [] then Some(stage)
    else
      var before := StageAfter(stage, history[..|history| - 1]);
      var last := history[|history| - 1];
      if before.Some? && Permitted(before.value, last) then Some(Next(before.value, last)) else None
  }

  lemma StageSnoc(stage: Stage, history: seq<ProcessStep>, step: ProcessStep)
    ensures StageAfter(stage, history + [step]) ==
      var before := StageAfter(stage, history);
      if before.Some? && Permitted(before.value, step) then Some(Next(before.value, step)) else None
  {
    assert (history + [step])[..|history|] == history;
  }

  lemma {:induction false} StageJoin(stage: Stage, a: seq<ProcessStep>, b: seq<ProcessStep>)
    requires StageAfter(stage, a).Some?
    ensures StageAfter(stage, a + b) == StageAfter(StageAfter(stage, a).value, b)
  {
    if b == [] {
      assert a + b == a;
    } else {
      var front := b[..|b| - 1];
      StageJoin(stage, a, front);
      assert (a + b)[..|a + b| - 1] == a + front;
    }
  }

  /** Steps that begin with a signal lead to the same stage from wherever they are permitted. */
  lemma SignalFirst(stage: Stage, steps: seq<ProcessStep>)
    requires stage != Gone && steps != [] && steps[0] == Signal
    ensures StageAfter(stage, steps) == StageAfter(Live, steps)
  {
    assert steps == [Signal] + steps[1..];
    StageSnoc(stage, [], Signal);
    StageSnoc(Live, [], Signal);
    assert [] + [Signal] == [Signal];
    StageJoin(stage, [Signal], steps[1..]);
    StageJoin(Live, [Signal], steps[1..]);
  }

  /** A spawned process group with its tracking token. */
  class CommandProcess {
    /** The operating system's view: the leader has exited; it has been waited for. */
    var leaderExited: bool
    var reaped: bool
    /** The descendant token was seen closed. */
    var tokenClosed: bool
    /** Everything done to the group since it was spawned. */
    ghost var history: seq<ProcessStep>

    ghost function CurrentStage(): Option<Stage>
      reads this
    {
      StageAfter(Live, history)
    }

    /** Only permitted steps were taken, and the child was reaped only when its leader had exited and its descendants were gone. */
    ghost predicate Sound()
      reads this
    {
      && CurrentStage().Some?
      && (reaped <==> CurrentStage() == Some(Gone))
      && (CurrentStage() == Some(Sealed) ==> tokenClosed)
      && (reaped ==> leaderExited && tokenClosed)
    }

    constructor ()
      ensures Sound() && !reaped && history == []
    {
      leaderExited, reaped, tokenClosed, history := *, false, false, [];
    }

    /** `terminate_command_group`, by the wrapper or by the group id. */
    method TerminateGroup() returns (error: Option<CommandError>)
      modifies `leaderExited, `history
      ensures history == old(history) + [Signal] && (old(leaderExited) ==> leaderExited)
      ensures old(Sound()) && !reaped ==> Sound() && CurrentStage() == Some(Live)
      ensures error.Some? ==> error.value.Kill?
    {
      StageSnoc(Live, history, Signal);
      history := history + [Signal];
      var exits: bool := *;
      leaderExited := leaderExited || exits;
      var fails: bool, denied: bool := *, *;
      return if fails then Some(Kill(denied)) else None;
    }

    /** `command_leader_terminal`: looks without reaping. */
    method LeaderTerminal() returns (terminal: Result<bool, CommandError>)
      modifies `leaderExited
      ensures old(leaderExited) ==> leaderExited
      ensures terminal == Success(true) ==> leaderExited
      ensures terminal.Failure? ==> terminal.error == CommandError.Wait
    {
      var exits: bool, fails: bool := *, *;
      leaderExited := leaderExited || exits;
      return if fails then Failure(CommandError.Wait) else Success(leaderExited);
    }

    /** `wait_for_leader_terminal_bounded`: looks until terminal or the grace period is over. */
    method WaitForLeaderTerminal(looks: nat) returns (terminal: Result<bool, CommandError>)
      modifies `leaderExited
      ensures old(leaderExited) ==> leaderExited
      ensures terminal == Success(true) ==> leaderExited
      ensures terminal.Failure? ==> terminal.error == CommandError.Wait
    {
      var left := looks;
      while true
        invariant old(leaderExited) ==> leaderExited
        decreases left
      {
        terminal := LeaderTerminal();
        if terminal != Success(false) || left == 0 { return; }
        left := left - 1;
      }
    }

    /** `observe_close` and `wait_for_close`: is the descendant token closed by now? */
    method WaitForClose() returns (closed: Result<bool, CommandError>)
      modifies `tokenClosed, `history
      ensures old(tokenClosed) ==> tokenClosed
      ensures closed == Success(true) ==> tokenClosed && history == old(history) + [Seal]
      ensures closed != Success(true) ==> history == old(history) && !tokenClosed
      ensures old(Sound()) && !reaped ==> Sound() && (closed == Success(true) ==> CurrentStage() == Some(Sealed))
      ensures closed.Failure? ==> closed.error == ReadOutput
    {
      var closes: bool, fails: bool := *, *;
      if !tokenClosed && fails { return Failure(ReadOutput); }
      tokenClosed := tokenClosed || closes;
      if tokenClosed {
        StageSnoc(Live, history, Seal);
        history := history + [Seal];
      }
      return Success(tokenClosed);
    }

    /** Steps were added, the first of them a signal. */
    twostate predicate Signalled()
      reads this
    {
      |history| > |old(history)| && old(history) <= history && history[|old(history)|] == Signal
    }

    /** `seal_terminal_process_group`: signals until the descendant token is closed. */
    method SealTerminalProcessGroup() returns (error: Option<CommandError>)
      requires Sound() && !reaped
      modifies `leaderExited, `tokenClosed, `history
      ensures Sound() && Signalled() && (old(leaderExited) ==> leaderExited)
      ensures error.None? ==> CurrentStage() == Some(Sealed) && tokenClosed
      ensures error != Some(TerminationSupervised)
    {
      for round := 0 to TERMINAL_GROUP_SEAL_ROUNDS
        invariant Sound() && (old(leaderExited) ==> leaderExited)
        invariant if round == 0 then history == old(history) else Signalled()
      {
        error := TerminateGroup();
        if error.Some? && !error.value.denied { return; }
        var closed := WaitForClose();
        if closed.Failure? { return Some(closed.error); }
        if closed.value { return None; }
      }
      return Some(TerminationUnverified);
    }

    /** `seal_and_reap_terminal_group`: the last signal comes before the wait. */
    method SealAndReapTerminalGroup() returns (error: Option<CommandError>)
      requires Sound() && !reaped && leaderExited
      modifies this
      ensures Sound() && Signalled() && leaderExited
      ensures error.None? <==> reaped
      ensures error != Some(TerminationSupervised)
    {
      error := SealTerminalProcessGroup();
      if error.Some? { return; }
      var fails: bool := *;
      StageSnoc(Live, history, ProcessStep.Wait(leaderExited, !fails));
      history := history + [ProcessStep.Wait(leaderExited, !fails)];
      if fails { return Some(CommandError.Wait); }
      reaped := true;
      return None;
    }
  }

  /** The supervisor as a run sees it: its slots and the commands handed to it. */
  class Supervision {
    var activeSlots: nat
    var registry: seq<CommandProcess>

    constructor ()
      ensures activeSlots == 0 && registry == []
    {
      activeSlots, registry := 0, [];
    }
  }

  // ---- cleanup --------------------------------------------------------------------------------

  datatype Completion = AlreadyReaped | Reaped(sealed: bool)

  /** The child is reaped and its permit dropped, or it is queued exactly once with its permit. */
  twostate predicate Settled(s: Supervision, child: CommandProcess, supervised: bool)
    reads s, child
  {
    && child.Sound() && (child.reaped <==> !supervised)
    && s.registry == (if supervised then old(s.registry) + [child] else old(s.registry))
    && s.activeSlots + (if supervised then 0 else 1) == old(s.activeSlots)
  }

  /** `supervise_live_command`: ownership and permit go to the supervisor. */
  method SuperviseLiveCommand(s: Supervision, child: CommandProcess) returns (error: CommandError)
    requires child.Sound() && !child.reaped
    modifies s
    ensures Settled(s, child, true) && error == TerminationSupervised
  {
    s.registry := s.registry + [child];
    return TerminationSupervised;
  }

  method DropPermit(s: Supervision)
    requires s.activeSlots > 0
    modifies s`activeSlots
    ensures s.activeSlots == old(s.activeSlots) - 1
  {
    s.activeSlots := s.activeSlots - 1;
  }

  /**
   `cleanup_process_group`: afterwards the child is reaped, or the supervisor owns it; the error
   says which.
   */
  method CleanupProcessGroup(s: Supervision, child: CommandProcess, looks: nat) returns (result: Result<Completion, CommandError>)
    requires child.Sound() && s.activeSlots > 0
    modifies s, child
    ensures Settled(s, child, result == Failure(TerminationSupervised))
    ensures result.Success? ==> (result.value.AlreadyReaped? <==> old(child.reaped))
    ensures result.Success? && result.value.Reaped? ==> result.value.sealed
  {
    if child.reaped {
      DropPermit(s);
      return Success(AlreadyReaped);
    }
    var firstError := child.TerminateGroup();
    var terminal := child.WaitForLeaderTerminal(looks);
    if terminal != Success(true) {
      var supervised := SuperviseLiveCommand(s, child);
      return Failure(supervised);
    }
    var failed := child.SealAndReapTerminalGroup();
    if failed.Some? {
      var supervised := SuperviseLiveCommand(s, child);
      return Failure(supervised);
    }
    DropPermit(s);
    if child.tokenClosed && firstError.Some? && firstError.value.denied { firstError := None; }
    return if firstError.Some? then Failure(firstError.value) else Success(Reaped(child.tokenClosed));
  }

  /** `reconcile_control_and_cleanup`: the status to report, if any was obtained by the cleanup. */
  function Reconcile(control: Option<CommandError>, cleanup: Result<Completion, CommandError>, cancelled: bool, streamsDone: bool)
    : (r: Result<bool, CommandError>)
    ensures cleanup.Failure? ==> r == Failure(cleanup.error)
    ensures control.None? && cleanup.Success? ==> r == Success(cleanup.value.Reaped?)
    ensures control.Some? && r.Success? ==>
      && cleanup == Success(Reaped(true)) && streamsDone
      && (control.value == TerminationUnverified || (cancelled && control.value == Kill(true)))
  {
    match (control, cleanup)
    case (_, Failure(error)) => Failure(error)
    case (None, Success(Reaped(_))) => Success(true)
    case (None, Success(AlreadyReaped)) => Success(false)
    case (Some(error), Success(completion)) =>
      if error == TerminationUnverified && completion == Reaped(true) && streamsDone then Success(true)
      else if error == Kill(true) && completion == Reaped(true) && cancelled && streamsDone then Success(true)
      else Failure(error)
  }

  // ---- the control loop ------------------------------------------------------------------------------

  datatype Turn = Continue | Finished | Failed(error: CommandError)

  /** The local variables of the control loop. */
  class Control {
    var hasStatus: bool
    var leaderTerminal: bool
    var stdoutDone: bool
    var stderrDone: bool
    var streamError: bool
    var forced: bool
    var outputIncomplete: bool
    var cancelled: bool

    ghost predicate Valid(child: CommandProcess)
      reads this, child
    {
      && child.Sound() && (hasStatus <==> child.reaped)
      && (leaderTerminal ==> child.leaderExited)
      && (forced ==> cancelled || outputIncomplete)
    }

    constructor ()
      ensures !hasStatus && !leaderTerminal && !stdoutDone && !stderrDone && !streamError
      ensures !forced && !outputIncomplete && !cancelled
    {
      hasStatus, leaderTerminal, stdoutDone, stderrDone := false, false, false, false;
      streamError, forced, outputIncomplete, cancelled := false, false, false, false;
    }

    /** `read_available_stream` on both streams; a read error ends its stream. */
    method ReadStreams() returns (progress: bool)
      modifies `stdoutDone, `stderrDone, `streamError
    {
      var outEnds: bool, errEnds: bool, fails: bool := *, *, *;
      if !stdoutDone && outEnds { stdoutDone := true; streamError := streamError || fails; }
      if !stderrDone && errEnds { stderrDone := true; streamError := streamError || fails; }
      progress := *;
    }

    method SealAndReap(child: CommandProcess) returns (error: Option<CommandError>)
      requires Valid(child) && !hasStatus && child.leaderExited
      modifies child, `hasStatus
      ensures Valid(child)
      ensures error.None? ==> hasStatus
      ensures error != Some(TerminationSupervised)
    {
      error := child.SealAndReapTerminalGroup();
      hasStatus := error.None?;
    }

    /** A cancellation is observed once; a live group is terminated and reaped if it ends in time. */
    method ObserveCancellation(child: CommandProcess, looks: nat) returns (error: Option<CommandError>)
      requires Valid(child)
      modifies child, this
      ensures Valid(child) && error != Some(TerminationSupervised)
    {
      error := None;
      cancelled := true;
      if !hasStatus {
        error := child.TerminateGroup();
        if error.Some? { return; }
        var terminal := child.WaitForLeaderTerminal(looks);
        if terminal.Failure? { return Some(terminal.error); }
        if terminal.value {
          error := SealAndReap(child);
          if error.Some? { return; }
        }
      }
      forced := true;
    }

    /** Looks for the leader's end, and reaps it once it is terminal. */
    method ObserveLeader(child: CommandProcess) returns (error: Option<CommandError>)
      requires Valid(child)
      modifies child, `hasStatus, `leaderTerminal
      ensures Valid(child) && error != Some(TerminationSupervised)
    {
      error := None;
      if hasStatus { return; }
      if !leaderTerminal {
        var terminal := child.LeaderTerminal();
        if terminal.Failure? { return Some(terminal.error); }
        leaderTerminal := terminal.value;
      }
      if leaderTerminal { error := SealAndReap(child); }
    }

    /** One turn of the loop. */
    method TakeTurn(child: CommandProcess, looks: nat) returns (turn: Turn)
      requires Valid(child)
      modifies child, this
      ensures Valid(child)
      ensures turn.Failed? ==> turn.error != TerminationSupervised
      ensures turn.Finished? ==> (hasStatus && stdoutDone && stderrDone) || cancelled || outputIncomplete
    {
      var cancellation: bool, drained: bool, graceOver: bool, pollFails: bool := *, *, *, *;
      var error: Option<CommandError> := None;
      if cancellation && !cancelled {
        error := ObserveCancellation(child, looks);
        if error.Some? { return Failed(error.value); }
      }
      var progress := ReadStreams();
      error := ObserveLeader(child);
      if error.Some? { return Failed(error.value); }
      if hasStatus && stdoutDone && stderrDone { return Finished; }
      if forced && drained { return Finished; }
      if !forced && hasStatus && graceOver { outputIncomplete, forced := true, true; }
      if !progress && pollFails { return Failed(ReadOutput); }
      return Continue;
    }
  }

  // ---- run_shell_command ----------------------------------------------------------------------------------

  datatype Outcome = Ok | Err(error: CommandError) | Unfinished

  /** `drain_streams_after_reap`, for a bounded time. */
  method DrainStreams(control: Control, polls: nat) returns (error: Option<CommandError>)
    modifies control`stdoutDone, control`stderrDone, control`streamError
    ensures error != Some(TerminationSupervised)
  {
    for i := 0 to polls {
      var progress := control.ReadStreams();
      if (control.stdoutDone && control.stderrDone) || control.streamError { return None; }
      var pollFails: bool := *;
      if !progress && pollFails { return Some(ReadOutput); }
    }
    return None;
  }

  /** The loop, for at most `turns` turns; the result is absent when they do not suffice. */
  method RunLoop(control: Control, child: CommandProcess, turns: nat, looks: nat) returns (done: Option<Option<CommandError>>)
    requires control.Valid(child)
    modifies control, child
    ensures control.Valid(child)
    ensures done != Some(Some(TerminationSupervised))
    ensures done == Some(None) ==>
      (control.hasStatus && control.stdoutDone && control.stderrDone) || control.cancelled || control.outputIncomplete
  {
    for i := 0 to turns
      invariant control.Valid(child)
    {
      var turn := control.TakeTurn(child, looks);
      match turn
      case Continue =>
      case Finished => return Some(None);
      case Failed(error) => return Some(Some(error));
    }
    return None;
  }

  /** What happens after the loop: cleanup, a last drain, and the verdict. */
  method Conclude(s: Supervision, control: Control, child: CommandProcess, result: Option<CommandError>, looks: nat) returns (outcome: Outcome)
    requires control.Valid(child) && s.activeSlots > 0 && result != Some(TerminationSupervised)
    requires result.None? ==>
      (control.hasStatus && control.stdoutDone && control.stderrDone) || control.cancelled || control.outputIncomplete
    modifies s, control, child
    ensures !outcome.Unfinished?
    ensures Settled(s, child, outcome == Err(TerminationSupervised))
    ensures outcome.Ok? ==>
      && child.reaped && child.tokenClosed
      && control.stdoutDone && control.stderrDone && !control.streamError
      && !control.cancelled && !control.outputIncomplete
  {
    var cleanup := CleanupProcessGroup(s, child, looks);
    if result.Some? && cleanup.Success? && cleanup.value.Reaped? {
      var drained := DrainStreams(control, looks);
      if drained.Some? { return Err(drained.value); }
    }
    var status := Reconcile(result, cleanup, control.cancelled, control.stdoutDone && control.stderrDone);
    if status.Failure? { return Err(status.error); }
    if status.value { control.hasStatus := true; }
    if control.streamError { return Err(ReadOutput); }
    if control.cancelled { return Err(TerminationUnverified); }
    if control.outputIncomplete { return Err(OutputIncomplete); }
    assert control.hasStatus;
    return Ok;
  }

  /**
   A run that has returned: either its child was reaped after its tracked descendants were gone and
   its slot was freed, or the error says that the supervisor owns the child, once, with the slot.
   `Ok` means a complete, undisturbed run.
   */
  method RunShellCommand(s: Supervision, turns: nat, looks: nat) returns (outcome: Outcome, child: Option<CommandProcess>, control: Control)
    modifies s
    ensures child.None? ==> s.activeSlots == old(s.activeSlots) && s.registry == old(s.registry) && outcome.Err?
    ensures child.Some? ==> child.value.Sound() && fresh(child.value)
    ensures child.Some? && !outcome.Unfinished? ==>
      var supervised := outcome == Err(TerminationSupervised);
      && (child.value.reaped <==> !supervised)
      && s.registry == (if supervised then old(s.registry) + [child.value] else old(s.registry))
      && s.activeSlots == old(s.activeSlots) + (if supervised then 1 else 0)
    ensures outcome.Ok? ==>
      && child.Some? && child.value.reaped && child.value.tokenClosed
      && control.stdoutDone && control.stderrDone && !control.streamError
      && !control.cancelled && !control.outputIncomplete
    ensures outcome == Err(TerminationSupervised) ==> child.Some?
  {
    control := new Control();
    var cancelledBefore: bool, refused: bool, spawnFails: bool, configureFails: bool := *, *, *, *;
    if cancelledBefore { return Err(Cancelled), None, control; }
    if refused { return Err(Refused), None, control; }
    s.activeSlots := s.activeSlots + 1;
    if spawnFails {
      DropPermit(s);
      return Err(Spawn), None, control;
    }
    var process := new CommandProcess();
    if configureFails {
      var cleanup := CleanupProcessGroup(s, process, looks);
      return if cleanup.Failure? then Err(cleanup.error) else Err(ConfigureOutput), Some(process), control;
    }
    var done := RunLoop(control, process, turns, looks);
    if done.None? { return Unfinished, Some(process), control; }
    outcome := Conclude(s, control, process, done.value, looks);
    child := Some(process);
  }
}

# A verified model of the Agent Run runtime and its coding tools

This project models, in Dafny, the hard core of a Rust agent runtime and proves what it is for.

* **The run and its Event Log.** A run asks a model for turns, gates and executes tool calls, and records every
  step in a line-oriented Event Log that a validator replays. `Lifecycle` states the grammar of a valid timeline
  without any state; `Replay` and `ReplayCorrect` prove that the validating fold accepts exactly that grammar.
  `LogBytes` and `EventStore` model the file as bytes with a durable length and a torn tail. `AgentRuntime` runs
  against a nondeterministic model stream, tools, approver, stopping threads and disk, with `Conversation` for the
  messages it exchanges with the model; `CrashSafety` and `Recovery`
  prove that a crash at any instant leaves a log that repairs and replays to the truth.
* **The tool gate.** `ToolGate`, `ApprovalReason` and `Ids`: authorization of prepared calls, bounded approval
  texts, and identifiers that never repeat.
* **Patches.** `Patch`, `PatchParser` and `PatchFile`: hunk application as a splice, reversal, and whole unified diffs
  printed and parsed.
  `FileSlots` and `PatchCommit`: the atomic commit as a step protocol over directory slots and inodes, with an
  adversarial environment acting before every system call.
* **Search.** `LiteralSearch` (Knuth-Morris-Pratt), `Utf8` and `FileSearch`: a chunked file search with rollback
  against a scan of the whole file.
* **Commands.** `ShellParser` and `CommandPolicy`: the shell tokenizer, path probes with a cache and budgets, and the
  decision to allow a command. `CommandRun`: who owns a spawned process group. `CommandSupervisor`: the supervisor as
  a transition system over all interleavings.

Everything outside the program (the model, tool handlers, the approver, other threads and processes, signals, waits,
clocks, read sizes and I/O failures) is a nondeterministic choice inside the methods, so each statement holds for every
behaviour of the environment. A JSON record codec is any pair of functions with decode inverting encode and no raw
newline in the output (`LogBytes.Codec.Lawful`). `dafny verify dfyconfig.toml` checks the whole project.

Conventions carried over from the code:

* A hunk starts at old line `old_start - 1`, or at 0 for `old_start` 0, also when its old count is 0
  (`crates/capability-coding/src/patch.rs:502-506`); POSIX.1-2017 XCU `diff` lets an empty range name the line before
  it, and no conformance to that is claimed.
* `parse_patch` splits a hunk line at byte 1 (`crates/capability-coding/src/patch.rs:330`); that this panics where the
  line begins with a character beyond ASCII is modelled as the outcome `SplitsCharacter`.
* Equal digests mean equal content, a change of a file advances its change time, and inode numbers are not reused
  while a handle is open.
* Random patch names do not collide with the target's own name.

Three places where the code does less than one might expect, stated exactly:

* A file to be created under the name of the recovery directory may find that directory there although the result says
  it was not published: `PatchCommit.RecoveryNameCollision`. Every other name is safe (`PatchCommit.TargetUnchanged`),
  and so is every target that exists, while nobody interferes (`PatchCommit.ReplaceExistingAtomically`).
* Reversing a patch restores the original if and only if the patched lines are lines of a text:
  `Patch.ReversalRestores`.
* A hunk line without a newline loses a final carriage return in the parser: `PatchParser.BodyRoundTrip`.

## Model

| member | source | states |
|---|---|---|
| Lifecycle.PrefixClosed | crates/event-store/src/replay.rs:177-569 | every non-empty prefix of a well-formed timeline is well formed |
| Lifecycle.EndsOnlyAtTheEnd | crates/event-store/src/replay.rs:211-216 | nothing follows the terminal event |
| Lifecycle.OpenCallsAreInTheActiveTurn | crates/event-store/src/replay.rs:227-285 | every unanswered call belongs to the turn that is active |
| Lifecycle.CallOrder | crates/event-store/src/replay.rs:291-361 | a call has at most one approval request, which comes after its request |
| Lifecycle.ApprovalUnique | crates/event-store/src/replay.rs:308-361 | an approval identifier names one request |
| Lifecycle.ResolutionUnique | crates/event-store/src/replay.rs:362-409 | an approval is resolved at most once |
| Lifecycle.ResolutionOrder | crates/event-store/src/replay.rs:362-409 | a resolution follows its approval request |
| Lifecycle.ResolvedBeforeAnswered | crates/event-store/src/replay.rs:362-503 | in every compatibility mode a decision stands between the approval request and the result of its call |
| Lifecycle.DecisionOrder | crates/event-store/src/replay.rs:444-503 | a strict result of a call with an approval comes after a decision on it |
| Lifecycle.DecidedOnce | crates/event-store/src/replay.rs:362-409 | the decision on a call is unique |
| Replay.DecisionFacts | crates/event-store/src/replay.rs:177-569 | the entry of a call in the fold knows exactly the decision the timeline holds |
| Replay.UnresolvedFacts | crates/event-store/src/replay.rs:505-537 | the fold's unresolved list is empty exactly when every call is answered |
| Replay.PendingFacts | crates/event-store/src/replay.rs:542-559 | a pending approval exists in the fold exactly when the timeline awaits a decision |
| ReplayCorrect.CheckByEntry | crates/event-store/src/replay.rs:444-497 | the three-way check on a result decides by the entry what the grammar says of the timeline, denials included |
| ReplayCorrect.StepCorrect | crates/event-store/src/replay.rs:211-540 | one turn of the fold succeeds exactly when the grammar admits the event, and keeps the tables true |
| ReplayCorrect.OpenCallsListed | crates/event-store/src/replay.rs:542-559 | the calls reported for recovery are the open calls of the timeline, in order |
| ReplayCorrect.StatusObserved | crates/event-store/src/replay.rs:542-559 | the status of the fold is the one a reader of the timeline observes; awaiting approval exactly when some approval is unresolved |
| ReplayCorrect.ReplayEventsWithMode | crates/event-store/src/replay.rs:177-569 | replay accepts exactly the well-formed timelines, reports the observed status and the calls, and blames the first event the grammar refuses |
| LogBytes.ReadBack | crates/event-store/src/jsonl.rs:566-639 | a full read of a log returns its records, and fails on a torn tail |
| LogBytes.HoldsUnique | crates/event-store/src/jsonl.rs:566-639 | bytes hold at most one log |
| LogBytes.TornPrefix | crates/event-store/src/jsonl.rs:457-523 | any prefix of a log file is a prefix of the log plus at most one torn record |
| LogBytes.ScanEndsAtLastRecord | crates/event-store/src/jsonl.rs:363-405 | the last line decodes to the last event of a full scan |
| LogBytes.FastPathAgrees | crates/event-store/src/jsonl.rs:305-405 | the append position found from the last record is the one a full scan finds |
| LogBytes.AppendKeepsLog | crates/event-store/src/jsonl.rs:187-303 | an accepted append, cut at any byte, leaves a homogeneous log plus at most a torn record; a torn tail accepts none |
| EventStore.RecordStart | crates/event-store/src/jsonl.rs:363-405 | the backward chunked search finds where the last record starts |
| EventStore.ReadAllRecordsFrom | crates/event-store/src/jsonl.rs:566-639 | the record loop reads what the specification reads, with the same errors |
| EventStore.JsonlEventStore.InspectAppendPosition | crates/event-store/src/jsonl.rs:305-361 | the position is that of the bytes, from the cached count, the last record or a full scan alike; it is refused only by I/O or for a log no reader accepts |
| EventStore.JsonlEventStore.ValidateAppendSequence | crates/event-store/src/jsonl.rs:270-303 | a sequence is accepted only when it continues the file, and refused only when it does not, the log is unreadable, or I/O fails |
| EventStore.JsonlEventStore.AppendWithDurability | crates/event-store/src/jsonl.rs:187-268 | success adds one whole record and, when forced, makes everything durable; failure leaves the old bytes plus a prefix of the record, and comes from an operation the system did refuse, an unreadable log or a sequence the file does not accept |
| EventStore.JsonlEventStore.RepairTruncatedTail | crates/event-store/src/jsonl.rs:457-523 | a repair keeps exactly the committed bytes |
| EventStore.JsonlEventStore.ReadAllRecords | crates/event-store/src/jsonl.rs:534-564 | a read returns the log, or says why not |
| EventStore.JsonlEventStore.Reconcile | crates/event-store/src/jsonl.rs:117-185 | a reconciliation only cuts off an unterminated tail and adds (part of) the attempted record; it fails only when the system did refuse an operation, for unreadable bytes, for a named conflict with committed records, or for a number the file does not accept |
| EventStore.ReconcileExactlyOnce | crates/event-store/src/jsonl.rs:117-185 | after any prefix of the attempted write of a new identity, a reconciliation leaves the old log plus that record once, or fails by I/O alone with the file still such a prefix; with the record complete it changes nothing |
| EventStore.ReconcileRefusesRepeatedIdentity | crates/event-store/src/jsonl.rs:117-185 | a durable identity recorded in another record is refused as a conflict that names it, unless I/O fails first, and no record is added |
| EventStore.ReconcilePreserves | crates/event-store/src/jsonl.rs:117-185 | no outcome removes or alters a committed record |
| EventStore.AppendPreserves | crates/event-store/src/jsonl.rs:187-268 | one append adds the record or nothing, and nothing behind a torn tail |
| CrashSafety.CrashRecovery | crates/event-store/src/jsonl.rs:457-523 | after a crash at a safe moment, whatever survives beyond the durable length, an executed call was durably requested, durably asked about if its plan needed an approval, and granted if asked about; if unanswered it is exactly the one reported for recovery |
| CrashSafety.CrashRecoversAll | crates/event-store/src/jsonl.rs:457-523 | what survives is a prefix of the timeline that holds every durable record and accounts so for every executed call |
| CrashSafety.CommittedPrefixesReplay | crates/event-store/src/replay.rs:177-569 | every non-empty prefix of what a run committed passes strict replay |
| CrashSafety.EveryRecordHasItsInstant | crates/agent-runtime/src/runtime.rs:682-719 | every prefix of what a run recorded was the log at one of its instants |
| CrashSafety.EveryExecutionHasItsInstant | crates/agent-runtime/src/runtime.rs:597-641 | every handler was entered at one of the instants of the run, which changed nothing else at all |
| CrashSafety.AuthorizedBeforeEntry | crates/agent-runtime/src/runtime.rs:528-641 | at the instant before a handler was entered, the request of its call was durable, and so were an approval request and its grant if the plan needed one; no call has a handler entered twice |
| CrashSafety.AnyInterleavingKeepsLog | crates/event-store/src/jsonl.rs:117-303 | under any interleaving of appends, reconciliations, repairs and crashes the file is a homogeneous log plus at most one torn record |
| RunLog.EmitSafe | crates/agent-runtime/src/runtime.rs:682-719 | whatever one append does to the file, the run is left at a crash-safe moment |
| RunLog.AppendInstants | crates/agent-runtime/src/runtime.rs:682-719 | one append adds two safe instants to a run: the bytes written and nothing of them forced, then what was forced |
| RunLog.ExecuteSafe | crates/agent-runtime/src/runtime.rs:597-641 | with everything durable, entering the handler of the one open call is crash-safe, provided its approval was granted if its plan needs one, and it was not entered before |
| RunLog.AnswerAllowed | crates/agent-runtime/src/runtime.rs:606-651 | the result the run records is the one the validator allows after that decision |
| AgentRuntime.RunStopToken.ResolveTerminal | crates/agent-runtime/src/runtime.rs:144-167 | the first terminal status wins, whichever thread proposes it |
| AgentRuntime.RunStopToken.Bind | crates/agent-runtime/src/runtime.rs:132-142 | a stop token serves one run |
| Conversation.HistoryExtends | crates/agent-runtime/src/runtime.rs:344-392 | a completed turn extends the conversation by its block |
| Conversation.HistoryKept | crates/agent-runtime/src/runtime.rs:344-392 | later turns change nothing about the conversation of the turns before them |
| Conversation.TurnSpoken | crates/agent-runtime/src/runtime.rs:456-526 | after a recorded stream and silence, the timeline holds exactly that stream for the turn |
| Conversation.NothingBeforeStart | crates/event-store/src/replay.rs:227-285 | the timeline holds nothing the model said in a turn that was never started |
| AgentRuntime.Runtime.Emit | crates/agent-runtime/src/runtime.rs:682-715 | a successful append extends the timeline by one numbered event; a failed one is ambiguous and happens only when the system refused an operation or the last number is used; either way the instants of the run grow by safe ones |
| AgentRuntime.Runtime.WriteRecord | crates/event-store/src/jsonl.rs:187-303 | the file of a run always accepts its next record, so an append fails only when the operating system refuses it |
| AgentRuntime.Runtime.Execute | crates/agent-runtime/src/runtime.rs:607-641 | a handler runs only for a plan of the run's own dispatcher whose call is durably requested, and durably granted exactly if the plan needs an approval; its output is normalized and never claims a denial |
| AgentRuntime.Runtime.Finish | crates/agent-runtime/src/runtime.rs:757-772 | the recorded terminal status is the resolved one |
| AgentRuntime.Runtime.CollectModelTurn | crates/agent-runtime/src/runtime.rs:406-526 | the model is asked once, with the given conversation; a collected turn is exactly the text and the calls, with distinct ids, of a completed stream whose every event is recorded in order; every other end is recorded as terminal |
| AgentRuntime.Runtime.ObtainDecision | crates/agent-runtime/src/runtime.rs:567-604 | a decision is asked for and resolved durably before anything runs |
| AgentRuntime.Runtime.ProduceOutput | crates/agent-runtime/src/runtime.rs:563-641 | one plan is made, and the output is the handler's after one entry into it, granted before exactly if the plan needs an approval, the gate's refusal of a rejected plan, or the canonical denial of the decision, the latter two without entering the handler |
| AgentRuntime.Runtime.DriveToolCall | crates/agent-runtime/src/runtime.rs:528-680 | one call goes from its durable request to the message that answers it, with its id and name |
| AgentRuntime.Runtime.DriveToolCalls | crates/agent-runtime/src/runtime.rs:379-391 | the calls of a turn are answered one by one, in order |
| AgentRuntime.Runtime.RunTurn | crates/agent-runtime/src/runtime.rs:344-392 | a started turn makes one model request with the conversation so far, and a completed turn gives the block whose assistant message is what the timeline records for it |
| AgentRuntime.Runtime.RunWithControlAndStop | crates/agent-runtime/src/runtime.rs:302-404 | the instants of a run, from the empty log on and each one record or one handler entry after the last, are all crash-safe and none is forgotten; every handler entry is one the policies admit; an Ok result is the status a strict replay observes; a run under way fails only when the system refused an append or the last number is used, and a used runtime or stop token is refused before anything is recorded; every started turn made one model request, which carried the conversation that the timeline records for the turns before it |
| Conversation.AbsorbSays | crates/agent-runtime/src/runtime.rs:456-500 | a stream event is absorbed exactly when it neither fails nor repeats a call id of the turn, and then adds its text or its call |
| Recovery.ReplayForRecovery | crates/event-store/src/jsonl.rs:667-673 | recovery replays the whole log and reports the open calls |
| Recovery.RecoverAfterCrash | crates/event-store/src/jsonl.rs:457-523 | repair and replay after a crash yield a prefix of the run, account for every executed call with its approval, and report exactly the one whose result is missing |
| ToolGate.GateNeverClaimsDenial | crates/tool-runtime/src/execution.rs:249-339 | no output of the gate, refused or normalized, carries the denial code |
| ToolGate.ToolRuntime.Prepare | crates/tool-runtime/src/registry.rs:231-266 | one plan is made and kept: ready, approval with the bounded reason, or rejected with it, as the policy says; unknown tools are rejected and a call-dependent plan follows the classification |
| ToolGate.ToolRuntime.ExecutePrepared | crates/tool-runtime/src/registry.rs:268-290 | the handler runs exactly when a plan this dispatcher made is ready, or needs approval and was granted it, and then gives the output; otherwise the gate refuses, a rejected plan with its own error |
| ToolGate.PlanAdmissible | crates/tool-runtime/src/registry.rs:231-290 | what gets as far as a handler is of a registered tool, never one always rejected, and asked about where the policy requires it |
| ApprovalReason.SizeIsLength | crates/tool-runtime/src/execution.rs:140-156 | the size fold is the UTF-8 length of the escaped JSON text (RFC 8259 section 7) |
| ApprovalReason.BoundCorrect | crates/tool-runtime/src/execution.rs:109-138 | a bounded reason fits 8192 bytes, bounding twice changes nothing, and a kept prefix is the longest that fits |
| ApprovalReason.BoundApprovalReason | crates/tool-runtime/src/execution.rs:109-138 | the loop computes the bounded reason |
| ApprovalReason.TruncateJsonString | crates/capability-coding/src/tool_support.rs:71-87 | the longest prefix whose escaped form fits, and whether anything was cut |
| ApprovalReason.BoundIsTruncation | crates/tool-runtime/src/execution.rs:109-138 | both truncations agree on what fits |
| Ids.Pad3Injective | crates/agent-runtime/src/runtime.rs:541-573 | zero-padded numbers are distinct beyond three digits too |
| Ids.IdsInjective | crates/agent-runtime/src/runtime.rs:349-570 | turn, call and approval identifiers of a run never repeat |
| LiteralSearch.Advance | crates/capability-coding/src/search.rs:568-576 | one byte leads to the longest needle prefix that ends the text, and fallback steps are paid for by progress |
| LiteralSearch.NewPattern | crates/capability-coding/src/search.rs:550-566 | the fallback table is the border function, built in linearly many steps |
| LiteralSearch.MatchBytes | crates/capability-coding/src/search.rs:525-532 | the loop stops with a match exactly when the needle occurs |
| LiteralSearch.LineState.Feed | crates/capability-coding/src/search.rs:517-533 | however a line is cut, matched means the needle occurs in it, and the visible bytes are its first 8 KiB |
| Utf8.ValidIffEncoding | crates/capability-coding/src/search.rs:586-605 | the check accepts exactly the encodings of scalar values (RFC 3629 section 4) |
| Utf8.FromUtf8Extends | crates/capability-coding/src/search.rs:586-601 | later bytes never change a decision already made |
| Utf8.Utf8Validator.Feed | crates/capability-coding/src/search.rs:586-601 | for any chunking, feeding succeeds exactly while the text is not malformed, with at most three bytes pending |
| Utf8.Utf8Validator.Finish | crates/capability-coding/src/search.rs:603-605 | finishing succeeds exactly on valid text |
| Utf8.NewlineEndsCharacters | crates/capability-coding/src/search.rs:352-364 | text before a newline is complete, so a finished line always decodes |
| FileSearch.CommittedMatches | crates/capability-coding/src/search.rs:388-430 | the matches of a file are an in-order prefix of its matching lines, and all of them unless a limit was hit |
| FileSearch.BudgetsKept | crates/capability-coding/src/search.rs:415-424 | no file takes the matches or their serialized size beyond the limits |
| FileSearch.VisibleUtf8Prefix | crates/capability-coding/src/search.rs:733-741 | decoding what is shown fails only on malformed bytes, and keeps all complete characters |
| FileSearch.FinishLine | crates/capability-coding/src/search.rs:388-430 | a finished line is tallied as the specification says; it fails only on malformed text |
| FileSearch.ScanChunk | crates/capability-coding/src/search.rs:352-366 | the newline loop over one buffer scans exactly that buffer and cannot fail |
| FileSearch.FinishSearchFile | crates/capability-coding/src/search.rs:370-386 | the end of a file records the last line, or takes the file back as binary |
| FileSearch.SearchResults.DiscardBinaryFile | crates/capability-coding/src/search.rs:489-496 | matches, sizes and flags return to the checkpoint |
| FileSearch.SearchResults.DiscardIncompleteFile | crates/capability-coding/src/search.rs:498-504 | the same, with the limit flags set |
| FileSearch.SearchReader | crates/capability-coding/src/search.rs:283-368 | for every choice of read sizes the outcome is that of a whole-file scan; the drift error is unreachable |
| FileSearch.SearchFile | crates/capability-coding/src/search.rs:259-281 | one file commits the scan's outcome and keeps both match limits |
| FileSearch.LargestFittingPrefix | crates/capability-coding/src/search.rs:713-731 | the count fits and the next does not, it is the largest when fitting is downward closed, and probes are logarithmic |
| Patch.SplitJoin | crates/capability-coding/src/patch.rs:494 | splitting a concatenation gives the lines back exactly when they are lines of a text |
| Patch.SplicedIffPlaced | crates/capability-coding/src/patch.rs:489-558 | hunks apply exactly when they can be placed between gaps of the file, and the result keeps the gaps |
| Patch.ApplyLines | crates/capability-coding/src/patch.rs:519-550 | the lines of a hunk match the file and yield its new side, or the reason they do not |
| Patch.ApplyHunks | crates/capability-coding/src/patch.rs:489-558 | the result is the splice; a conflict or an invalid patch is reported only when there is none |
| Patch.ReversedPlaces | crates/capability-coding/src/patch.rs:502-506 | the reversed hunks stand on the patched lines between the same gaps |
| Patch.ReversalRestores | crates/capability-coding/src/patch.rs:489-558 | undoing a patch gives the original text back if and only if the patched lines are lines of a text |
| Patch.ReversalLosesText | crates/capability-coding/src/patch.rs:489-558 | an input whose reversal does not restore it: a line added without a newline before another line |
| PatchParser.ParseHunkBody | crates/capability-coding/src/patch.rs:312-363 | the body loop reads exactly the declared counts, or refuses |
| PatchParser.ParsedCounts | crates/capability-coding/src/patch.rs:312-363 | a parsed hunk has its declared counts |
| PatchParser.ApplyParsed | crates/capability-coding/src/patch.rs:545-550 | the count check of `apply_hunks` never fails on parsed hunks |
| PatchParser.BodyRoundTrip | crates/capability-coding/src/patch.rs:312-363 | printed hunk lines parse back to themselves if and only if no line without a newline ends in a carriage return |
| PatchParser.ReturnLost | crates/capability-coding/src/patch.rs:471-487 | an input that does not round trip: a line without a newline that ends in a carriage return |
| PatchFile.ParseHunksAt | crates/capability-coding/src/patch.rs:311-369 | the hunk loop reads what the specification reads, with the same errors |
| PatchFile.ParseFilesLoop | crates/capability-coding/src/patch.rs:290-388 | so does the loop over files |
| PatchFile.ParsePatchText | crates/capability-coding/src/patch.rs:271-396 | parsing a patch text yields the specified files or the specified error, unless cancelled, for every text |
| PatchFile.ParsePrintedHeader | crates/capability-coding/src/patch.rs:434-469 | a printed hunk header parses back to its old start and counts, for all numbers of the machine width |
| PatchFile.ParsePrintedPath | crates/capability-coding/src/patch.rs:411-432 | a printed file header parses back to its path, or to none for `/dev/null` |
| PatchFile.PatchRoundTrip | crates/capability-coding/src/patch.rs:271-487 | any printed patch parses back to its files, hunks and lines, up to the carriage returns of `PatchParser.BodyRoundTrip`; only the line limit refuses it |
| PatchFile.HunksKept | crates/capability-coding/src/patch.rs:471-487 | that exception is exact for whole patches too |
| PatchFile.PrintedPatchApplies | crates/capability-coding/src/patch.rs:271-558 | a patch text printed from hunks that stand on a file parses and turns the file into its new side |
| FileSlots.LostIff | crates/capability-coding/src/workspace.rs:1657-1666 | an inode becomes unreachable exactly when an unlink or a replacing rename takes its only name |
| FileSlots.NothingUnlinked | crates/capability-coding/src/workspace.rs:1657-1666 | every other system call leaves each reachable inode reachable |
| FileSlots.HeldBetween | crates/capability-coding/src/workspace.rs:1202-1255 | a snapshot that is right before and after a moment is right at that moment |
| FileSlots.FileSystem.RenameNoReplace | crates/capability-coding/src/workspace.rs:1657-1666 | one rename to a free slot, or nothing |
| FileSlots.FileSystem.ExchangeFiles | crates/capability-coding/src/workspace.rs:1915-1929 | one exchange of two slots, or nothing |
| PatchCommit.TakeSnapshot | crates/capability-coding/src/workspace.rs:156-181 | a snapshot was right at one instant |
| PatchCommit.ValidateSnapshotSlot | crates/capability-coding/src/workspace.rs:1202-1255 | success means the slot held exactly the expected file at one instant of the call |
| PatchCommit.PreservedRecoveryEvidence | crates/capability-coding/src/workspace.rs:1393-1431 | located and verified evidence means the recovery slot named the directory and the directory's slot held the expected file |
| PatchCommit.CleanupExpectedStaging | crates/capability-coding/src/workspace.rs:1734-1822 | cleanup publishes and unlinks nothing, and its evidence is true |
| PatchCommit.StageContent | crates/capability-coding/src/workspace.rs:422-507 | staging makes a new file beside the target and never touches the target |
| PatchCommit.CommitNewFile | crates/capability-coding/src/workspace.rs:510-566 | a new file is published by one rename or the target is untouched |
| PatchCommit.CommitExistingFile | crates/capability-coding/src/workspace.rs:569-724 | an existing file is published by one exchange or the target is untouched, and success shows both files in place afterwards |
| PatchCommit.ReplaceExistingAtomically | crates/capability-coding/src/workspace.rs:249-305 | before publication the target was untouched (undisturbed, whatever its name), otherwise published exactly once; on success the new bytes are at the target and the original at the recovery path, for good when nobody interferes; no unlink and no replacing rename was made |
| PatchCommit.CreateNewAtomically | crates/capability-coding/src/workspace.rs:328-356 | the same for a new file |
| PatchCommit.NoLostData | crates/capability-coding/src/workspace.rs:510-724 | no step of any run unlinks a reachable inode or writes a file the protocol did not create |
| PatchCommit.TargetUnchanged | crates/capability-coding/src/workspace.rs:1734-1822 | before publication no step changes what the target names, unless it is named like the recovery directory |
| PatchCommit.RecoveryNameCollision | crates/capability-coding/src/workspace.rs:1336-1352 | from any state with a free target of that name, an undisturbed run of `create_new` whose publishing rename is refused publishes nothing and yet leaves the recovery directory at the target |
| ShellParser.Parse | crates/capability-coding/src/command_policy.rs:872-1029 | the parser runs the tokenizer, and a success holds only non-empty commands within 32 commands and 256 words |
| ShellParser.ParsedWithinLimits | crates/capability-coding/src/command_policy.rs:1032-1061 | the same for every run of the tokenizer |
| ShellParser.QuotingRoundTrip | crates/capability-coding/src/command_policy.rs:872-1061 | single-quoted commands (POSIX.1-2017 XCU section 2.2) parse back to exactly themselves with no flag, or are too complex |
| CommandPolicy.PathEscapesWorkspaceWith | crates/capability-coding/src/command_policy.rs:1167-1198 | with enough budget the walk gives the verdict of the unlimited walk at its cost, otherwise none |
| CommandPolicy.PathProbeBudget.Classify | crates/capability-coding/src/command_policy.rs:418-441 | the cache agrees with the uncached walk, and a path is within the workspace exactly when it does not escape and the budgets cover all candidates once |
| CommandPolicy.ClassifyArgumentPaths | crates/capability-coding/src/command_policy.rs:1072-1096 | all path arguments are within, exactly when none escapes and all are affordable |
| CommandPolicy.ClassifyHardRejection | crates/capability-coding/src/command_policy.rs:542-579 | the first pass lets a command by exactly when nothing rejects it and its directory is within |
| CommandPolicy.ClassifySimpleCommand | crates/capability-coding/src/command_policy.rs:94-283 | a simple command is allowed exactly when its checks pass and its paths are within and affordable |
| CommandPolicy.Classify | crates/capability-coding/src/command_policy.rs:49-91 | a command is allowed exactly when it parses unflagged, passes all checks, and its distinct paths together stay within the workspace and both budgets |
| CommandPolicy.AllowedAlone | crates/capability-coding/src/command_policy.rs:49-91 | each simple command of an allowed command is allowed alone with fresh budgets |
| CommandRun.CommandProcess.SealTerminalProcessGroup | crates/capability-coding/src/command.rs:803-822 | sealing starts with a signal, takes permitted steps only, and succeeds only once the descendant token is closed |
| CommandRun.CommandProcess.SealAndReapTerminalGroup | crates/capability-coding/src/command.rs:206-219 | success reaps a dead leader whose tracked descendants are gone, and the reap is the last step taken |
| CommandRun.CleanupProcessGroup | crates/capability-coding/src/command.rs:977-1035 | afterwards the child is reaped and its slot free, or the supervisor owns it once, as the error says |
| CommandRun.Reconcile | crates/capability-coding/src/command.rs:946-975 | a cleanup error always wins, and a control error is forgiven only after a sealed reap with both streams done |
| CommandRun.Control.TakeTurn | crates/capability-coding/src/command.rs:428-492 | one turn of the control loop keeps the process sound and ends only with a status and both streams, a cancellation or a drain timeout |
| CommandRun.RunShellCommand | crates/capability-coding/src/command.rs:350-538 | a returned run reaped its child or handed it over exactly once with its slot; Ok means reaped, sealed, both streams finished without error, not cancelled |
| CommandSupervisor.ReserveConservesPermits | crates/capability-coding/src/command.rs:1208-1228 | racing reservations never exceed 64 slots |
| CommandSupervisor.InvKept | crates/capability-coding/src/command.rs:1170-1252 | every event keeps permits conserved and every child owned once |
| CommandSupervisor.EveryInterleaving | crates/capability-coding/src/command.rs:1318-1539 | in every interleaving the slot count is the live permits, at most 64; a command handed over is in exactly one of queue, flight and completion, completed only after its reap |
| CommandSupervisor.SuperviseCommandOnce | crates/capability-coding/src/command.rs:1509-1539 | a round of supervision gives the command back exactly when its child was not reaped, with permitted steps only, whatever the operating system answers |
| CommandSupervisor.NeverTouchedAfterReap | crates/capability-coding/src/command.rs:206-219 | in every interleaving no runner and no worker signals or waits for a child after its reap |
| CommandSupervisor.OneActorAtATime | crates/capability-coding/src/command.rs:1162-1168 | while a runner has a child, no other runner and no supervisor has it |
| CommandSupervisor.WorkerStepsHappen | crates/capability-coding/src/command.rs:1460-1483 | a worker that takes permitted steps is never held up by other threads, and the command in flight stays its own |
| CommandSupervisor.RoundHappens | crates/capability-coding/src/command.rs:1460-1483 | every round the worker can take, with any steps of other threads and any passage of time in between, is part of a run of the transition system that queues or completes the command |
| CommandSupervisor.RunHappens | crates/capability-coding/src/command.rs:977-1035 | whatever a runner does to its child before it returns is a run of the transition system that ends with the reap and a free slot, or with one hand-over |
| CommandSupervisor.DegradedIff | crates/capability-coding/src/command.rs:1238-1252 | admission is degraded exactly when the processing of some command has panicked eight times in a row |
| CommandSupervisor.DegradedForGood | crates/capability-coding/src/command.rs:1197-1252 | the degraded latch never clears and admits nobody |

## Left out

- JSON encoding, decoding and TOML: a record codec is a parameter with the stated laws; an encoding error is not modelled.
- Infinite model streams: a turn's stream is any finite sequence of events, and a run any finite number of turns within its limit.
- `RunReplay` accessors, the approvals and errors lists of a replay, and error display texts: one-branch facts.
- Appenders other than the run itself during a run: the interleaving of several appenders on one file is `CrashSafety.AnyInterleavingKeepsLog`.
- EventStore.JsonlEventStore.AppendWithDurability: file locks and directory synchronisation are step results only.
- CommandRun.RunShellCommand: states nothing about a run that has not returned within the given number of turns; captured bytes and the exit status value are not modelled, and the platforms without descendant tokens are not part of this model.
- CommandRun.CommandProcess.TerminateGroup: the wrapper and the direct group signal are one nondeterministic answer.
- CommandSupervisor.EveryInterleaving: condition variables and worker restarts are abstracted to the events they enable; the worker does not panic between a successful wait and the completion it leads to, where it runs no code that can.
- PatchCommit.StageContent: owner, mode, extended attributes and link counts are checks that may fail for any reason.
- PatchFile.ParsePatchText: paths are strings, so path normalization, the choice of the target path and the size limits of files are not modelled.
- CommandPolicy.Classify: the per-program option tables, wrapper unwrapping and the parsing of a path into components are parameters; which reason a refusal carries is not stated.
- FileSearch.SearchFile: directory traversal and its limits, and the metadata of the search output.
- ToolGate.ToolRuntime.Prepare: tool registration and manifest validation.
- `truncate_utf8`, git probing, environment scrubbing, the command line, the fake provider and dispatcher, and wall-clock timing.

# Codemux: verified models of its stateful core

Codemux is a desktop workspace for coding agents. The parts of it that decide
what is written, deleted, launched or counted keep small pieces of state or
rewrite short sequences in place. This project models eight of them in Dafny
and proves what they keep over every run and every input.

| component | source | modules |
|---|---|---|
| The write-behind queue that persists the active workspace | `src-tauri/src/active_workspace_persistence.rs` | `PersistQueue`, `PersistWorker`, `PersistSystem`, `PersistDurability`, `PersistFlush`, `PersistEmits`, `PersistReports`, `PersistProgress` |
| Claims on checkouts, and the gates before files are deleted | `src-tauri/src/checkout_claims.rs` | `CheckoutClaims`, `ClaimRuns`, `ClaimGates`, `ClaimFolders` |
| Splicing a model selection into a launch command | `src-tauri/src/agent_capability.rs` | `LaunchTokens`, `LaunchArgs`, `LaunchCommand`, `LaunchAlgebra`, `LaunchStability`, `LaunchSettings`, `LaunchLevels`, `LaunchFamilies`, `LaunchOutcomes` |
| Bounded directory sizing | `src-tauri/src/fs_size.rs` | `Paths`, `DirSize` |
| The stream-port allocator | `src-tauri/src/agent_browser.rs` | `StreamPorts` |
| The agent ancestry registry | `src-tauri/src/control_identity.rs` | `AgentAncestry` |
| Branch names, and quoting for the shell | `src-tauri/src/branch_name.rs`, `src-tauri/src/agent_browser.rs` | `Text`, `BranchName`, `BranchWords`, `ShellQuoting` |
| Turns of the managed Hermes runtime | `sidecar/managed-workflow/hermes.py` | `HermesTurns`, `HermesRuns`, `HermesOutcomes` |

Objects that the program updates in place are classes here, and each of their
methods is proved against a function from the old state to the new one. Where
several threads or tasks share such an object, those functions are the steps of
a machine whose steps interleave freely, and the main results are about every
run of that machine. Loops over token lists, strings, directories, ports and
process chains are loops here, with invariants.

## What the code does not do

Some properties that the code or its comments suggest do not hold. Each is
proved with a concrete run or input, next to the exact condition, over all
runs or inputs, under which the property does hold.

- A writer that dies after its write landed and before it acknowledged it
  leaves a remembered selection that is not the row. If the user then returns to
  the remembered one, it counts as durable and a flush finds nothing to do. The
  comment at `active_workspace_persistence.rs:165-173` says the retry path
  tolerates this (`TornWriteDefeatsTheFlush`, `IdleFlushMeansDurable`).
- An emit can be forgotten although a duplicate is meant to be queued again
  after a worker's death: between the panic and the drop of the exit guard the
  flag is still set, and the emit is taken for a request in flight. It is taken
  care of exactly if no such orphaned request was there before, and always as
  long as no writer dies (`EmitBeforeTheGuardIsForgotten`, `EmitIsTakenCareOf`,
  `NoEmitIsForgotten`).
- A failure is not always shown: a failed flush takes the one report that
  `complete` asks for and drops it. A worker's failure is shown exactly if
  nothing newer waits and no failure of its id is open, told by a toast or taken
  by a flush (`FailureSurfacesExactly`).
- A successful flush can leave the accepted selection neither in the row nor
  waiting: exactly if the last emit accepted while it was writing found no
  worker and nothing waiting, and returned to the remembered selection
  (`EmitDuringFlushCanBeMissed`, `FlushLosesExactly`).
- The deletion gate takes the claim map's lock once per scan. A stop that is
  unsettled in the first scan and failed in the second passes both. Passing
  both means a quiet root exactly if no event between the scans fails a claim
  inside the root that is still in the map
  (`StopFailingBetweenScansIsMissed`, `TwoScansAreExact`).
- Splicing the same selection twice is not always the same as splicing it once:
  a user's own `--settings '{}'`, or another spelling of an object that holds
  nothing but `ultracode`, in a token of its own, is stable only from the
  second splice on (`SecondSpliceChangesNothing`, `ThirdSpliceChangesNothing`).
- Dropping nested inputs before summing can lose files. An input behind a
  directory that cannot be listed counts by itself and not once an input above
  that directory is given too. Nothing is lost exactly if, for every input that
  counts anything, the kept path above it resolves and all directories between
  the two can be listed (`InputBehindUnlistedIsLost`,
  `KeptCountTheInputsExactly`).
- A deadline that has passed need not stop the sizing: each walk looks at the
  clock once per 512 entries and counts anew, so that any number of smaller
  inputs are summed regardless. With a deadline long past the answer is missing
  exactly if some kept input holds 512 entries or more (`TotalSizeBounded`).
- The port allocator can fail while one port is free: the one just before the
  counter, because wrapping uses up one of its tries (`FailsExactly`,
  `TwoFailuresMeanNoneFree`).
- A branch name can come out empty although it holds letters: exactly if, once
  collapsed, it is too long and only hyphens and dots stand before the last
  hyphen of its first fifty characters (`SanitizedIsEmptyExactly`,
  `LeadingHyphenCanLoseTheName`).
- A managed turn that is reported as an error is nevertheless the one that later
  turns continue from: exactly if it reached its answer and its text was too
  long for one message (`ErrorIsRememberedExactly`,
  `UnsentAnswerIsStillRemembered`).

## Model

| member | source | states |
|---|---|---|
| PersistQueue.Queue.Enqueue | src-tauri/src/active_workspace_persistence.rs:34-85 | An emit asks for a worker exactly when it turned the running flag on, and leaves the whole queue in the state that the step machine gives. |
| PersistQueue.Queue.Take | src-tauri/src/active_workspace_persistence.rs:87-95 | Hands out whatever waits, and gives up the running flag only when nothing does. |
| PersistQueue.Queue.Complete | src-tauri/src/active_workspace_persistence.rs:99-124 | A failure is surfaced exactly when it is authoritative and new; a failed last request reopens its selection for retry. |
| PersistQueue.Queue.SeedPersisted | src-tauri/src/active_workspace_persistence.rs:126-133 | Seeding never overrides work that has begun. |
| PersistQueue.Queue.ResetAfterWorkerAbort | src-tauri/src/active_workspace_persistence.rs:143-145 | Clears the running flag and nothing else. |
| PersistQueue.Queue.TakeLatestForFlush | src-tauri/src/active_workspace_persistence.rs:147-158 | A flush gets a request, for the accepted selection under a fresh generation, exactly when that selection is not known to be durable. |
| PersistWorker.Arrive | src-tauri/src/active_workspace_persistence.rs:249-262 | Any number of emits that reach the queue during a write start no second worker. |
| PersistWorker.Serve | src-tauri/src/active_workspace_persistence.rs:277-302 | Write and acknowledgement follow the step machine; nothing waits afterwards only if the written selection is still the accepted one. |
| PersistWorker.Loop | src-tauri/src/active_workspace_persistence.rs:265-303 | One trip either serves the waiting request or ends the worker with its guard disarmed. |
| PersistWorker.Work | src-tauri/src/active_workspace_persistence.rs:263-304 | The worker's whole life is a run of the step machine, it terminates once emits stop, it leaves nothing waiting, and unless its last write failed the row, the requested and the accepted selection are the same. |
| PersistWorker.FlushLatest | src-tauri/src/active_workspace_persistence.rs:310-322 | The shutdown drain follows the step machine; success with a selection to write leaves the row holding it, failure leaves the row as it was. |
| PersistSystem.WorkersStep | src-tauri/src/active_workspace_persistence.rs:194-215 | Every step keeps exactly one armed guard while the running flag is set, and none otherwise. |
| PersistSystem.SelectionStep | src-tauri/src/active_workspace_persistence.rs:34-124 | Every step keeps a waiting request equal to the requested and the accepted selection, and so does a request in flight with nothing behind it. |
| PersistSystem.GenerationsStep | src-tauri/src/active_workspace_persistence.rs:73-78 | Every step keeps all handed-out, waiting and held generations ordered below the counter. |
| PersistSystem.RunInv | src-tauri/src/active_workspace_persistence.rs:249-322 | All of these, and what the row holds, survive every interleaving of emits, worker steps, failed writes, panics, guard drops and flushes. |
| PersistDurability.ArmedWorkersMatchTheFlag | src-tauri/src/active_workspace_persistence.rs:194-215 | In every reachable state the number of armed exit guards is one while the running flag is set and zero otherwise. |
| PersistDurability.GuardsAndEmitsKeepTheFlag | src-tauri/src/active_workspace_persistence.rs:203-215 | A worker is added exactly when the flag turns on; a finished worker's guard never clears the flag of its replacement, and a dead worker's guard clears its own. |
| PersistDurability.LatestDesiredIsTheNewestEmit | src-tauri/src/active_workspace_persistence.rs:34-50 | If each revision names one workspace, the accepted selection is that of the highest revision ever emitted, in whatever order emits arrive. |
| PersistDurability.PendingIsTheDesiredSelection | src-tauri/src/active_workspace_persistence.rs:34-124 | A waiting request is for the accepted and requested selection, with no assumption on revisions. |
| PersistDurability.GenerationsIncrease | src-tauri/src/active_workspace_persistence.rs:73-95 | Generations handed to workers and flushes strictly increase over every run, exactly until the counter saturates. |
| PersistDurability.RememberedRowIsTheRow | src-tauri/src/active_workspace_persistence.rs:99-124 | With the write lock free, the remembered selection is the row, except exactly when the last write that landed was of another id and an event killed its writer before it was acknowledged. |
| PersistDurability.IdleFlushMeansDurable | src-tauri/src/active_workspace_persistence.rs:147-158 | A flush with nothing to do means that the row holds the accepted selection, if and only if no event killed the writer of another id between its write landing and its acknowledgement without a later write landing. |
| PersistDurability.UntornRunsStayDurable | src-tauri/src/active_workspace_persistence.rs:306-322 | In every run in which no writer dies between its write landing and its acknowledgement, an idle flush means the accepted selection is in the row. |
| PersistDurability.TornWriteDefeatsTheFlush | src-tauri/src/active_workspace_persistence.rs:52-60 | A run in which the row keeps an id that nobody wants any more, while flush and worker have nothing to do. |
| PersistDurability.SuccessfulFlushWritesWhatItSaw | src-tauri/src/active_workspace_persistence.rs:310-322 | A successful flush leaves the row equal to the selection that was accepted when it took its request, whatever interleaves. |
| PersistDurability.EmitDuringFlushCanBeMissed | src-tauri/src/active_workspace_persistence.rs:58-60 | A run without any panic after which the accepted selection is neither in the row nor waiting. |
| PersistFlush.LostStep | src-tauri/src/active_workspace_persistence.rs:34-85 | While a flush holds the write lock, a step leaves the accepted selection neither written by the flush nor waiting exactly if it is an accepted emit that returns to the remembered selection while nobody works, or no accepted emit and that was so before. |
| PersistFlush.FlushLosesExactly | src-tauri/src/active_workspace_persistence.rs:310-322 | After every successful flush the accepted selection is in the row or waiting if and only if the last emit accepted during the flush, if any, was not such a return. |
| PersistEmits.AcceptedEmitLeavesAWorker | src-tauri/src/active_workspace_persistence.rs:34-85 | In every reachable state an emit that is not superseded becomes the accepted selection, and afterwards a worker runs, or nothing waits and the selection is remembered as persisted; a worker is started exactly when none ran and something waits. A superseded emit changes nothing. |
| PersistEmits.DuplicatesAskForNothing | src-tauri/src/active_workspace_persistence.rs:52-78 | An emit of what waits or is being written under a running worker, or of the remembered selection while nothing goes on, asks for no write; an emit of another id puts a fresh, newer request into the slot. |
| PersistEmits.EmitIsTakenCareOf | src-tauri/src/active_workspace_persistence.rs:52-85 | After an accepted emit its selection waits under a running worker, is being written, or is remembered as persisted, if and only if no orphaned request for it was there before. |
| PersistEmits.NoEmitIsForgotten | src-tauri/src/active_workspace_persistence.rs:52-124 | As long as no writer dies, every accepted emit is taken care of in that sense, also after failed writes and flushes. |
| PersistEmits.EmitBeforeTheGuardIsForgotten | src-tauri/src/active_workspace_persistence.rs:194-215 | A run in which an emit between a worker's panic and the drop of its guard is left to nobody. |
| PersistEmits.StartupRemembersTheRow | src-tauri/src/active_workspace_persistence.rs:126-133 | After startup an emit of the restored selection and a flush ask for no write, and any other emit starts a worker with a request. |
| PersistEmits.SeedingNeverOverridesWork | src-tauri/src/active_workspace_persistence.rs:126-133 | Seeding changes nothing while work is under way, and otherwise leaves a flush nothing to do. |
| PersistEmits.FlushTakesExactly | src-tauri/src/active_workspace_persistence.rs:147-158 | A flush does nothing exactly if no selection was accepted, or the accepted one is remembered and nothing waits; otherwise it writes the accepted one and empties the slot. |
| PersistReports.FailureSurfacesOnce | src-tauri/src/active_workspace_persistence.rs:99-124 | Between two failures told of one id, by a toast or to a flush, that id was written or another one was queued, in every run. |
| PersistReports.FailureSurfacesExactly | src-tauri/src/active_workspace_persistence.rs:97-119 | A worker's failed write is surfaced if and only if nothing newer waits and no failure of its id was told since that id was last written or another one queued. |
| PersistReports.SupersededFailuresStaySilent | src-tauri/src/active_workspace_persistence.rs:97-113 | A failure surfaces only for a worker's request that is still the accepted selection and has nothing newer waiting behind it. |
| PersistProgress.DrainingStep | src-tauri/src/active_workspace_persistence.rs:263-304 | Every quiet step keeps the accepted selection on its way to the row and never adds writes or steps to what is left. |
| PersistProgress.LiveWorkerDrains | src-tauri/src/active_workspace_persistence.rs:263-304 | Left alone with writes that succeed, a live worker does at most two more writes, exits only with the row equal to the accepted selection, and can always take a step that brings its exit closer. |
| CheckoutClaims.ClaimTable.ClaimPaths | src-tauri/src/checkout_claims.rs:91-97 | Adds one claim on the given folders, unsettled, under a key and a channel never used before. |
| CheckoutClaims.ClaimTable.BeginStops | src-tauri/src/checkout_claims.rs:147-159 | Claims every session's stop in order, the last one of a thread replacing earlier ones in the map and in the batch, and returns all channels. |
| CheckoutClaims.CloseClaim.ReportStopped | src-tauri/src/checkout_claims.rs:101-109 | Settles the claim as stopped only if it is unsettled. |
| CheckoutClaims.CloseClaim.ReportFailed | src-tauri/src/checkout_claims.rs:112-114 | The outcome becomes the failure even after a stop was reported, and the claim stays. |
| CheckoutClaims.CloseClaim.Release | src-tauri/src/checkout_claims.rs:117-119 | An unsettled claim settles as stopped and leaves the map. |
| CheckoutClaims.CloseClaim.Drop | src-tauri/src/checkout_claims.rs:122-137 | A handle dropped unsettled fails its claim; only a stopped claim leaves the map. |
| CheckoutClaims.StopBatch.Settle | src-tauri/src/checkout_claims.rs:162-175 | Settles the thread's own channel and removes the map's claim only if it is still that channel's, and stopped or matchable to nothing. |
| CheckoutClaims.StopBatch.Drop | src-tauri/src/checkout_claims.rs:178-185 | In whatever order the batch is walked: every remaining stop fails, every other outcome stays, and only the batch's own unmatchable claims leave the map. |
| CheckoutClaims.WaitFor | src-tauri/src/checkout_claims.rs:58-70 | Waiting succeeds exactly when every stop succeeded, and otherwise returns the first error in order. |
| CheckoutClaims.UnheldPasses | src-tauri/src/checkout_claims.rs:237-253 | Cleanup is never laxer than deletion: what nothing holds passes the deletion gate for every caller. |
| ClaimRuns.BeginAllIs | src-tauri/src/checkout_claims.rs:147-159 | The machine's session-by-session claim builds the same map and batch as the program's loop. |
| ClaimRuns.NextKeeps | src-tauri/src/checkout_claims.rs:91-185 | Every step keeps the whole invariant tying the map, the channels, the live handles and the history together. |
| ClaimRuns.RunKeeps | src-tauri/src/checkout_claims.rs:91-185 | So does every interleaving of claims, reports, releases, drops, begun stops, settlements and their later looks at the map. |
| ClaimGates.OutcomeStep | src-tauri/src/checkout_claims.rs:101-137 | No step undoes a failure, and only a late failure of the very same close claim undoes a clean stop. |
| ClaimGates.FailedCloseStaysForever | src-tauri/src/checkout_claims.rs:111-137 | A close claim that failed stays in the map with its folders through every later event, so deletions around them are refused for good. |
| ClaimGates.DeletionGateIsExact | src-tauri/src/checkout_claims.rs:225-248 | After every interleaving the gate passes if and only if every close claim ever taken inside the root, but the caller's, reported stopped and never failed, and every thread whose latest stop was begun there settled cleanly. |
| ClaimGates.FailureHasItsEvent | src-tauri/src/checkout_claims.rs:101-185 | A claim that had not failed has failed at the end of a run if and only if some event of the run failed it: a late failure report, an unsettled handle dropped, or a stop settled as failed. |
| ClaimGates.TwoScansAreExact | src-tauri/src/checkout_claims.rs:237-248 | When events come between the gate's two scans and both pass, the root is quiet if and only if none of these events failed a claim inside the root that is still in the map. |
| ClaimGates.StopFailingBetweenScansIsMissed | src-tauri/src/checkout_claims.rs:237-241 | For every root there is a run in which both scans pass although a stop inside it has failed. |
| ClaimGates.UnsettledHasALiveHandle | src-tauri/src/checkout_claims.rs:122-185 | Every unsettled entry has a live handle or batch whose drop settles it, so "still stopping" can always resolve. |
| ClaimGates.SupersededSettleIsHarmless | src-tauri/src/checkout_claims.rs:162-175 | Settling a superseded stop neither removes nor changes any claim, nor the newer stop's outcome. |
| ClaimGates.SettledStopKeptExactly | src-tauri/src/checkout_claims.rs:171-174 | A settled stop stays claimed exactly when it failed and has a folder or a workspace. |
| ClaimGates.WaitingOpensTheGate | src-tauri/src/checkout_claims.rs:206-248 | If each claim inside the root was seen stopped at some moment of the wait, nothing new was claimed there, and nothing failed after stopping, the gate passes. |
| ClaimFolders.InsideIsBelow | src-tauri/src/workspace_paths.rs:156-162 | A path is inside a root exactly if it is the root followed by further components, and outside exactly if it is shorter or differs in one of the root's components. |
| ClaimFolders.GateByFolders | src-tauri/src/checkout_claims.rs:206-253 | Folder by folder and component by component: the gate passes if and only if no claim with a folder inside the root has failed and none but the caller's is unsettled; the same for what counts as held and what a deletion waits for. |
| ClaimFolders.FateOfTaken | src-tauri/src/checkout_claims.rs:91-137 | Whatever else happens, a close claim's folders and outcome are those that its own handle's events give it. |
| ClaimFolders.ClaimedFolderBlocksDeletion | src-tauri/src/checkout_claims.rs:91-248 | From the moment any folder inside the root is claimed, every deletion of the root by anybody else is refused until that claim's handle reports a clean stop or is released, and forever once it failed. |
| ClaimFolders.BegunStopBlocksDeletion | src-tauri/src/checkout_claims.rs:147-248 | From the moment a stop is begun in a folder inside the root, every deletion of the root is refused until that stop settles cleanly or a newer one of its thread is begun. |
| ClaimFolders.OutsideDoesNotMatter | src-tauri/src/checkout_claims.rs:206-253 | Claims on folders that are shorter than the root or differ from it in one of its components, and the caller's own, keep nobody from deleting it. |
| LaunchTokens.FindSlot | src-tauri/src/agent_capability.rs:234-244 | The slot of the settings value is a token of the list that carries the returned prefix; a value in a token of its own has its flag before it. |
| LaunchTokens.TokenList.StripFlag | src-tauri/src/agent_capability.rs:176-192 | The index loop with in-place removals leaves what one left-to-right reading leaves. |
| LaunchTokens.TokenList.StripCodexReasoning | src-tauri/src/agent_capability.rs:342-357 | The loop, which also steps back over a config flag, leaves what one left-to-right reading leaves. |
| LaunchTokens.TokenList.StripUltracodeSettings | src-tauri/src/agent_capability.rs:217-226 | Removes exactly the adjacent pairs of the module's own settings value. |
| LaunchTokens.TokenList.FoldUltracode | src-tauri/src/agent_capability.rs:292-309 | Rewrites only the token that holds the settings value, and only when the object can be printed; tells the three cases apart. |
| LaunchTokens.TokenList.ClearUltracode | src-tauri/src/agent_capability.rs:315-338 | Drops the whole argument when nothing but `ultracode` was in it, rewrites it when more was, and otherwise leaves the list alone. |
| LaunchTokens.TokenList.ApplyModelSelection | src-tauri/src/agent_capability.rs:366-475 | The in-place passes in sequence equal the splice that the theorems below are about. |
| LaunchArgs.StripIsKeep | src-tauri/src/agent_capability.rs:176-192 | On well-formed commands of any family, stripping a flag removes exactly that flag's arguments, values included, and no other argument. |
| LaunchArgs.StripCodexIsKeep | src-tauri/src/agent_capability.rs:342-357 | On well-formed Codex commands exactly the reasoning overrides go, each with its config flag. |
| LaunchArgs.StripUltracodeIsKeep | src-tauri/src/agent_capability.rs:217-226 | On well-formed Claude commands exactly the arguments equal to the module's own pair go. |
| LaunchArgs.SlotIsFirst | src-tauri/src/agent_capability.rs:234-244 | The token search finds exactly the first settings argument, in either spelling. |
| LaunchArgs.FoldedIsFoldArgs | src-tauri/src/agent_capability.rs:292-309 | Folding at a token index changes the value of the first settings argument and nothing else. |
| LaunchArgs.ClearedIsClearArgs | src-tauri/src/agent_capability.rs:315-338 | Clearing at a token index replaces or removes the first settings argument and nothing else. |
| LaunchCommand.AppliedIsAppliedArgs | src-tauri/src/agent_capability.rs:366-475 | The whole splice refines an argument-by-argument one and keeps commands well formed. |
| LaunchAlgebra.FamilyStays | src-tauri/src/agent_capability.rs:119-141 | For every family, splicing never changes which program the command starts, so the family is detected the same again. |
| LaunchStability.SecondSpliceChangesNothing | src-tauri/src/agent_capability.rs:366-475 | For every well-formed command, splicing twice equals splicing once if and only if the preset has no settings object of its own, in a separate token, with no key besides `ultracode`. |
| LaunchSettings.ThirdSpliceChangesNothing | src-tauri/src/agent_capability.rs:366-475 | Without that condition, everything is stable from the second splice on. |
| LaunchSettings.UltracodeKeepsTheSettings | src-tauri/src/agent_capability.rs:413-456 | Selecting `ultracode` leaves exactly one settings flag: the user's object with only `ultracode` set, or the user's own argument untouched. |
| LaunchSettings.PlainLevelClearsOnlyUltracode | src-tauri/src/agent_capability.rs:315-338 | Selecting a plain level takes `ultracode` out of the settings object and keeps every other key; what cannot be rewritten stays. |
| LaunchSettings.UltracodeAndBack | src-tauri/src/agent_capability.rs:413-456 | `ultracode` and then a plain level gives the same effective settings as the plain level at once. |
| LaunchSettings.OtherArgumentsSurvive | src-tauri/src/agent_capability.rs:366-475 | Every argument that the selection has no say over survives, in order, for every family. |
| LaunchSettings.SelectedModelWins | src-tauri/src/agent_capability.rs:382-405 | Afterwards the command names exactly one model, the selected one. |
| LaunchLevels.SelectedLevelWins | src-tauri/src/agent_capability.rs:413-456 | Afterwards a Claude command names exactly one effort; for `ultracode` it is `xhigh` with the settings switching `ultracode` on, or `ultracode` itself exactly when the settings cannot carry it. |
| LaunchLevels.SelectedOverrideWins | src-tauri/src/agent_capability.rs:342-357 | Afterwards a Codex command holds exactly one reasoning override, the selected one. |
| LaunchFamilies.FamilyByName | src-tauri/src/agent_capability.rs:115-141 | Behind any environment assignments and in any directory, the names `claude`, `codex`, `opencode` and `gemini` are the four families, and every other name is none. |
| LaunchFamilies.FamilyExactly | src-tauri/src/agent_capability.rs:115-141 | A command is of a family if and only if it starts that family's program behind nothing but assignments. |
| LaunchOutcomes.FieldOfPadded | src-tauri/src/agent_capability.rs:107-113 | A field counts as what is left between surrounding whitespace, and a blank one as none. |
| LaunchOutcomes.FreshCommand | src-tauri/src/agent_capability.rs:366-475 | Token by token, what comes of a command without flags, for each of the four programs and any other. |
| LaunchOutcomes.BakedFlagGoes | src-tauri/src/agent_capability.rs:172-192 | A baked-in flag goes with its value in each of its spellings, and nothing else goes. |
| LaunchOutcomes.BakedOverrideGoes | src-tauri/src/agent_capability.rs:340-357 | A baked-in override goes with its config flag, in either spelling, and nothing else goes. |
| LaunchOutcomes.UnsafeValuesAreLeftOut | src-tauri/src/agent_capability.rs:143-170 | A model or level with a letter that would have to be quoted is left out as if it had not been selected. |
| LaunchOutcomes.SuffixedModelIsSafe | src-tauri/src/agent_capability.rs:155-170 | A model of plain letters is accepted, with or without one bracketed suffix of letters and digits. |
| LaunchOutcomes.SafeArgReadsBack | src-tauri/src/agent_capability.rs:143-153 | The shell reads an accepted level as one word equal to it, without quotes. |
| LaunchOutcomes.ModelReadsBack | src-tauri/src/agent_provider/claude/capabilities.rs:380-395 | The shell reads the spliced model as one word: the selected id, with the one-million suffix exactly for Claude with that window and an id without a suffix. |
| LaunchOutcomes.RenderedReadsBack | src-tauri/src/agent_capability.rs:264-276 | A settings object is printed into the command exactly if its text has no whitespace and no single quote, and the shell then reads that text. |
| LaunchOutcomes.UnquotedValue | src-tauri/src/agent_capability.rs:246-253 | A value in matching quotes is read without them, any other as it is. |
| DirSize.DirSizeBounded | src-tauri/src/fs_size.rs:41-90 | The stack walk ends, looks at the clock once for every 512 entries it comes to, and returns the saturated total of exactly the regular files reachable through listable directories below what the root resolves to, or nothing, and nothing only if a look at the clock said late. |
| DirSize.ListEntries | src-tauri/src/fs_size.rs:57-87 | In whatever order entries come back, the walk's frontier and its total stay in step; an expired deadline gives no sum. |
| DirSize.OneEntry | src-tauri/src/fs_size.rs:57-87 | Visiting one entry keeps the whole state of the walk in step with the tree and the clock, whatever kind of entry it is, unless the clock says late. |
| DirSize.Expand | src-tauri/src/fs_size.rs:53-57 | Replacing a popped directory by its entries neither loses nor repeats a file and shrinks what is left. |
| DirSize.Complete | src-tauri/src/fs_size.rs:64-83 | Taking an entry off the frontier adds exactly the counted files at or below it. |
| DirSize.DedupeNestedPaths | src-tauri/src/fs_size.rs:97-118 | Keeps exactly the minimal canonical paths, each once, although it looks up kept ancestors only. |
| DirSize.KeepsMinimal | src-tauri/src/fs_size.rs:100-115 | One more path in sorted order has an earlier ancestor exactly when it has a kept one, and is an ancestor of nothing earlier. |
| DirSize.MinimalPathsCover | src-tauri/src/fs_size.rs:92-118 | No kept path is inside another, and every input has itself or an ancestor kept. |
| DirSize.TotalSizeBounded | src-tauri/src/fs_size.rs:120-128 | Within one shared deadline the answer is the exact saturated total of the files that the walks from the kept paths reach, each once, or nothing; never a partial sum. That is what walks from all inputs would reach, if no input is cut off from the kept one above it, and all files under at least one input, if every directory below the inputs can be listed. With a deadline long past, there is no answer exactly if some kept input holds 512 entries or more. |
| DirSize.KeptCountTheInputsExactly | src-tauri/src/fs_size.rs:92-128 | The walks from the kept paths count the same files as the walks from all inputs if and only if, for every input that counts anything by itself, the kept path above it resolves and every directory between the two can be listed. |
| DirSize.KeptCountEveryFileOnce | src-tauri/src/fs_size.rs:92-128 | When every directory below an input that holds anything can be listed, and inputs that are directories resolve, the files counted under the kept paths are exactly the files under any of the inputs. |
| DirSize.InputBehindUnlistedIsLost | src-tauri/src/fs_size.rs:107-113 | A directory behind one that cannot be listed counts its files when given alone, and none of them once an input above both is given too. |
| Paths.SortSorts | src-tauri/src/fs_size.rs:102-103 | Sorting orders the paths component by component and keeps the same ones. |
| Paths.DedupSorted | src-tauri/src/fs_size.rs:102-103 | On sorted paths, dropping equal neighbours leaves each path once. |
| StreamPorts.AgentBrowserManager.AllocatePort | src-tauri/src/agent_browser.rs:1615-1660 | Returns the key's own port, fails exactly when no port is free except possibly the one just before the counter, and keeps ports distinct. |
| StreamPorts.AgentBrowserManager.GetPort | src-tauri/src/agent_browser.rs:1663-1665 | A port is found exactly for keys with a session, and it is a port of the range that no other key holds. |
| StreamPorts.AgentBrowserManager.NoteActionStart | src-tauri/src/agent_browser.rs:1762-1774 | Reports whether the session was running and marks it, except before a close; no port and no other session changes. |
| StreamPorts.AgentBrowserManager.Close | src-tauri/src/agent_browser.rs:1920-1924 | Gives up exactly this key's port. |
| StreamPorts.SearchFinds | src-tauri/src/agent_browser.rs:1628-1657 | Where a search ends: the first free port from the counter up, or else from the bottom up to two below the counter. |
| StreamPorts.FailsExactly | src-tauri/src/agent_browser.rs:1628-1660 | A search fails if and only if nothing is free besides the port right below the counter. |
| StreamPorts.DistinctPorts | src-tauri/src/agent_browser.rs:1615-1660 | Over every run, distinct keys hold distinct ports of 9223 to 9299 and the counter stays within 9223 to 9300. |
| StreamPorts.PortStaysUntilClosed | src-tauri/src/agent_browser.rs:1617-1625 | A key keeps its port, and every allocation returns it, until it is closed. |
| StreamPorts.TwoFailuresMeanNoneFree | src-tauri/src/agent_browser.rs:1628-1660 | A second call right after a failure takes the skipped port first, so two failures in a row mean that none is free. |
| AgentAncestry.Registry.Insert | src-tauri/src/control_identity.rs:216-222 | Past the bound only entries whose process is gone, or is another one with the same pid, are dropped; the new entry always goes in. |
| AgentAncestry.Registry.Register | src-tauri/src/control_identity.rs:209-214 | A live process is registered with its own start time, a gone one is not. |
| AgentAncestry.Registry.IsDescendant | src-tauri/src/control_identity.rs:224-240 | True exactly when a process recorded by the walk is registered with the start time that the walk saw, however the process table changes meanwhile. |
| AgentAncestry.WalkUp | src-tauri/src/control_identity.rs:228-237 | The loop records the bounded chain, stopping at init, at the app, at a gone process and after 64 hops. |
| AgentAncestry.WalkIsTheChain | src-tauri/src/control_identity.rs:228-237 | On a table that holds still, the walk's k-th entry is the k-th ancestor, for exactly the k that the chain reaches. |
| AgentAncestry.MarksExactlyTheRegistered | src-tauri/src/control_identity.rs:184-222 | Over every run of starts, exits, adoptions, registrations and pid reuse: no mark without a registration, and every registered process keeps its mark while it lives. |
| AgentAncestry.DescendantExactly | src-tauri/src/control_identity.rs:224-240 | On a table that holds still, the test holds if and only if a registered process is on the parent chain within 64 hops, before init or the app. |
| AgentAncestry.MarkedExactly | src-tauri/src/control_identity.rs:216-222 | Over every run a process is marked, alive or not, if and only if it was registered while alive and since then no other process with its pid was registered and no registration pruned after it exited. |
| AgentAncestry.InterleavedWalk | src-tauri/src/control_identity.rs:224-240 | When the table changes between the walk's reads, every recorded process was alive when it was read, and the answer is positive if and only if one of them is marked in that sense at the end. |
| BranchName.CollapsePairs | src-tauri/src/branch_name.rs:41-47 | Replacing pairs until none is left ends, and equals collapsing every run of the letter to one. |
| BranchName.SanitizeBranchName | src-tauri/src/branch_name.rs:29-69 | The loops end and give the name that the theorems below are about. |
| BranchName.HalvedCollapses | src-tauri/src/branch_name.rs:41-47 | One replacement pass leaves the collapsed form as it was. |
| BranchName.CollapsedHasNoPair | src-tauri/src/branch_name.rs:41-47 | Collapsing leaves no pair of its letter and creates none of another. |
| BranchName.SanitizedIsValid | src-tauri/src/branch_name.rs:22-69 | A sanitized name has at most 50 letters and, unless it is empty, satisfies the rules of git-check-ref-format, with no hyphen or dot at either edge. |
| BranchName.SanitizeIsIdempotent | src-tauri/src/branch_name.rs:29-69 | Sanitizing changes nothing exactly on clean names, among them every sanitized one. |
| BranchName.SanitizedIsEmptyExactly | src-tauri/src/branch_name.rs:29-69 | The result is empty if and only if nothing but hyphens and dots is left of the text, or nothing else stands before the last hyphen of its first fifty characters and it is longer than that. |
| BranchName.LeadingHyphenCanLoseTheName | src-tauri/src/branch_name.rs:49-56 | So a hyphen, or a dot and a hyphen, followed by fifty or more letters and digits comes out empty. |
| BranchWords.WordsAreHyphenated | src-tauri/src/branch_name.rs:29-69 | Words of letters and digits with single spaces or underscores between them, fifty characters at most, come out unchanged but for a hyphen in every gap. |
| BranchWords.OtherLettersDoNotMatter | src-tauri/src/branch_name.rs:30-38 | A letter that is neither kept nor a gap can be left out anywhere without changing the name. |
| BranchWords.LettersAreKept | src-tauri/src/branch_name.rs:29-69 | The letters and digits of the name are the first ones of the text in their order, and all of them if it has at most fifty characters and does not end in "lock". |
| BranchWords.LongNamesAreCutAtAWord | src-tauri/src/branch_name.rs:49-56 | A long text is cut between its words. |
| BranchName.DeconflictAgainst | src-tauri/src/branch_name.rs:72-83 | Returns the name if it is free, else the first free suffix of 2 to 99, else the UUID suffix; the result is taken only if that one is. |
| BranchWords.DecimalIsTheNumber | src-tauri/src/branch_name.rs:76-81 | A suffix is the usual decimal number without leading zeros. |
| BranchName.SuffixKeepsValid | src-tauri/src/branch_name.rs:72-83 | No number and no UUID start behind a valid name makes it invalid. |
| BranchName.DeconflictedIsValid | src-tauri/src/branch_name.rs:72-83 | Whatever suffix a sanitized name gets, the result satisfies the rules of git-check-ref-format. |
| ShellQuoting.ReplacementsAreOneMap | src-tauri/src/branch_name.rs:323-328 | The four replacements in sequence equal one character-by-character map. |
| ShellQuoting.AnsiCRoundTrip | src-tauri/src/branch_name.rs:323-328 | Read by section 2.2.4 of the POSIX.1-2024 Shell Command Language, every escaped text comes back unchanged and ends exactly at the closing quote. |
| ShellQuoting.EmbeddedPromptReadsBack | src-tauri/src/branch_name.rs:333-360 | A prompt embedded behind a base command is one argument on one line that the shell reads back as the prompt; other presets keep their command and ask for typing. |
| ShellQuoting.ShellQuoteRoundTrip | src-tauri/src/agent_browser.rs:652-655 | Read by sections 2.2.2 and 2.2.3, every quoted value is one word equal to it. |
| HermesTurns.Runtime.Usage | sidecar/managed-workflow/hermes.py:232-249 | Tokens are reported exactly for a whole reading in which no count went backwards, and the new totals are the old ones plus what was reported. |
| HermesTurns.Runtime.Start | sidecar/managed-workflow/hermes.py:288-295 | A turn is accepted only when the library is ready, nothing is active or closed and the tools are intact; accepting it clears an earlier cancel. |
| HermesTurns.Runtime.EndTurn | sidecar/managed-workflow/hermes.py:301-320 | The end of a turn frees the runtime, remembers the messages only of an answered turn, and sends exactly one complete message with the status and tokens that the machine gives. |
| HermesTurns.Runtime.Cancel | sidecar/managed-workflow/hermes.py:322-323 | Marks the turn cancelled and changes nothing else. |
| HermesTurns.Runtime.Close | sidecar/managed-workflow/hermes.py:328-330 | Closes the runtime to new turns and cancels the current one. |
| HermesRuns.RunKeeps | sidecar/managed-workflow/hermes.py:288-333 | The invariant tying the runtime, its tasks and its messages together survives every order of requests and task progress. |
| HermesRuns.EveryTurnCompletesOnceInOrder | sidecar/managed-workflow/hermes.py:288-320 | Each accepted turn gets exactly one complete message, in the order of the starts, and at most the active one still waits. |
| HermesRuns.OnlyItsOwnCancelCounts | sidecar/managed-workflow/hermes.py:288-326 | A turn is reported cancelled exactly when its call came back intact and either the library says it was interrupted or a cancel or disposal arrived while it ran; the runtime's own cancel mark never carries over. |
| HermesRuns.TokensAddUp | sidecar/managed-workflow/hermes.py:232-249 | The tokens sent with complete messages always add up to the totals on record, and none is negative. |
| HermesRuns.TurnsContinueTheLastAnswer | sidecar/managed-workflow/hermes.py:302-309 | Every turn continues from the latest earlier turn that reached its answer, sent or not; turns that did not reach one leave no trace. |
| HermesRuns.NoTurnAfterRelease | sidecar/managed-workflow/hermes.py:328-333 | Once the library has been closed, no turn is active or is ever accepted again. |
| HermesRuns.ErrorIsRememberedExactly | sidecar/managed-workflow/hermes.py:301-320 | A successful turn is remembered and a cancelled one is not; a turn reported as an error is the one that later turns continue from if and only if it reached its answer and the text was too long for one message. |
| HermesRuns.UnsentAnswerIsStillRemembered | sidecar/managed-workflow/hermes.py:309-320 | A run in which a turn whose answer could not be sent is reported as an error, and the next turn continues from it. |
| HermesOutcomes.StatusExactly | sidecar/managed-workflow/hermes.py:297-320 | In every run a turn is a success if and only if its call came back uncancelled and uninterrupted, with the tools intact, complete and without a failure mark, and its text is empty or fits; when it is cancelled and when an error is told the same way. |
| HermesOutcomes.HistoryExactly | sidecar/managed-workflow/hermes.py:302-313 | Ending a turn replaces the remembered messages if and only if its answer is complete in that sense, whether its text fits or not. |
| HermesOutcomes.TokensExactly | sidecar/managed-workflow/hermes.py:232-249 | Tokens are reported if and only if the reading is whole and no count is below the sum of all reports before, and then bring every sum up to the reading. |
| HermesOutcomes.ReadyExactly | sidecar/managed-workflow/hermes.py:257-331 | The runtime is ready exactly if it was initialized before any disposal, and closed exactly if it was disposed of. |
| HermesOutcomes.StartsExactly | sidecar/managed-workflow/hermes.py:288-295 | A turn is accepted if and only if the runtime was initialized and not disposed of, no turn is under way, the request is well formed and the tools are intact. |

## Left out

Assumptions of the models:

- Persistence: a failed write leaves the row untouched, starting a worker thread succeeds, and startup seeds the queue at most once, with the row's value, before anything is emitted.
- Persistence: an emit's call to the queue and the start of its thread are one step; so are a guard's drop and the reset it performs.
- PersistWorker.Work: runs one worker by itself, emits arriving only while it writes; flushes and panics between its steps are covered by the step machine instead.
- PersistWorker.FlushLatest: runs with nothing else in progress; interleavings are covered by the step machine instead. Its caller's use of the result is not modelled.
- Claims: each scan of the claim map, each settlement of a channel and each later look at the map is one step; the removal at the end of a close handle's drop is one step with its outcome. A panic inside a critical section, and the wrap-around of the claim counter, are not modelled.
- Claims: folders are compared as the file system is at one moment; a canonical path that changes between claim and gate is not modelled. The wording of the refusals and `stops_of_workspace` are not modelled.
- Launch commands are token lists. Splitting at whitespace and joining again would normalise whitespace inside quoted arguments, which is not modelled.
- Launch commands: the JSON library is a parameter that reads back exactly what it printed, prints an object as a function of its entries, and prints the module's own value as the source spells it. For floating-point numbers the first is more than `serde_json` promises without its `float_roundtrip` feature, which `src-tauri/Cargo.toml:40` does not ask for.
- LaunchStability.SecondSpliceChangesNothing: outside the statement are commands in which a flag that the family's own passes look for (`--model` and `-m` for all, `--effort` and `--settings` for Claude, `-c` and `--config` for Codex) lacks its value; for Claude and Codex also those in which it is followed by another flag, or in which another flag's value is a Codex reasoning override, where the family's passes disagree about which token is a value; Claude commands with several settings flags; and a program name or a selected value that starts with a hyphen.
- Directory sizing: the tree does not change during the walk, its paths are the resolved ones, a path leads to the same directory as what it resolves to, resolving is idempotent, and the clock is an oracle asked at each check.
- Stream ports: the ports that can be bound are fixed during one call and arbitrary from call to call; the async lock makes each call one step. Killing the process that held a closed session's port is not modelled.
- AgentAncestry.Registry.IsDescendant: the early answer for an empty registry and the final lookup are taken under one lock; a registration that lands between them is not modelled. Registration reads the process table and inserts in one step.
- ShellQuoting: numeric and control escapes, expansions and unquoted special characters stop the readers. NUL, which no shell argument can hold, is treated like any other character.
- BranchName.SanitizedIsValid: the rules are those of git-check-ref-format for the format of a name. Git also refuses the one name `HEAD` for a branch, which sanitizing leaves as it is.
- BranchName.DeconflictAgainst: the UUID fallback is taken as it comes; that it is fresh is not proved.
- Hermes: the complete message always fits and can be sent, the event loop outlives its tasks, and `initialize` is the one step that makes the library ready. Durations, the served model's name and the tool handler are not modelled. Nor is the library's reaction to an interrupt: one that arrives after its turn has ended, and that the library remembers, would show as an interruption of the next turn.

Not modelled at all, as input and output or as finite tables and single checks:

- Process spawning, timeouts, kills, TCP probes, Tauri, SQLite, HTTP and peer connections.
- Synchronisation of automations, whose outcome depends on database rules that are not part of this model.
- Command access tables, prompts, viewport presets, log tailing, pull request parsing and the user interface.
- Random workspace names, titles and the extraction of a name from an agent's answer.

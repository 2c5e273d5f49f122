# A verified model of the Proton VPN for Omarchy core

This project models, in Dafny, the parts of the Proton VPN for Omarchy core that have to be right
whatever happens around them, and proves what they promise.

**The privileged split-tunneling daemon (`splitd/`).** An assembler with labels and back-patched jumps
emits two eBPF programs. They decide the mark of every socket from a pid map, a mode map and
longest-prefix tries whose keys are scoped by user. `BpfMachine` is the machine that runs the code,
`BpfAssembler` the assembler and its correctness, `BpfPrograms` and `BpfHooks` the two programs and
their generators, `SplitModel` the policies and `PolicyMeaning` what they mean for a process, `LpmIndex` the proof that the tries refine the lists of
ranges, `Marker` the transaction that replaces one installed policy by another,
and `PolicyEnforcement` the end-to-end theorem from lists to marks. `Tracking` is the scan of the process
tree and `ProcessEvents` what forks, execs and exits make of it, `Routing` the transactions of the kill-switch bypass, `Store` the state file, `BypassLedger` the
bypasses in the kernel against those on record and in the file, and `Engine` the object that ties them
together under failures, process events and restarts.

**The per-user agent (`agent/`).** `Attempts` is the interleaving of connect, cancel, disconnect and logout
requests over one attempt counter and one mutex; `Operations` the registry of running and finished
operations, and `OperationSteps` its other steps; `AutoConnect` the automatic connection, `ConnectionTries` when it
connects and goes on, and `Obedience` the proof that it obeys that registry.
`Encoding`, `Keyring` and `SecretStore` are the Base64URL and Base32 codecs of RFC 4648 and the keyring protocol with
its one-time import and durable sign-out, and `KeyringFrames` what these leave alone. `Catalog` chooses servers, and
`CatalogLaws` says what the wishes of a target mean for the choice. `Dns` writes and reads the DNS messages of
alternative routing after RFC 1035, and `DnsHosts` says which messages are read and which hosts are found. `Recents` and
`AccountStore` keep the recent connections, and `RecentsFrames` says what each change leaves alone. `Bytes`, `Unicode`,
`Utf8Text`, `Sets` and `Wrappers` are shared.

How the source's form is kept: objects that update their fields are classes whose methods are proved
against functions of the old state, loops are loops, and protocols that interleave are state machines
over their atomic steps. Every system call, `ip` command, keyring call, D-Bus call and file operation may
fail at any time; a failed call changes nothing, except that saving the state file may fail after the
rename. The classes count the calls that failed (`faults`), and their contracts say that on acceptable input nothing
else makes an operation fail. What the outside world supplies (process scans, times, fresh identifiers, random choices, what
other programs add to the routing tables, the legacy login) is a parameter or a nondeterministic choice.

Where the code is weaker than a first reading of it, the model follows the code:

- After a rollback that fails, the cached policy of the marker hides the damage; `Marker.SocketMarker.SyncConfigs`
  says exactly when a later success leaves maps that agree, and `Marker.DamageStays` gives an input where it does not.
- Failed deletions of modes are ignored, so modes of former users stay. The mode map fits its 64 entries exactly
  when there is room for the stale ones too (`Marker.ModesAfterReplacement`); one stuck mode is enough that the map
  would need 65 entries for the 64 users the engine allows (`Marker.StuckModesOverflow`).
- A pid-map key left behind by a failed operation is repaired by a reconciliation exactly when the process
  was still tracked or is excluded again (`Engine.Engine.Reconcile`).
- When saving fails and the second reconciliation fails too, the exclusions computed for the policy that was
  taken back stay in force; `Engine.TakenBackPolicy` says when they are still right.
- A kill-switch bypass can stay in the kernel with no record of it. After an installation that fails, this happens
  exactly when its deletions did not reach every command added (`Routing.KernelRouting.Install`); after a save that
  fails, exactly when taking the bypass out again stops early (`Engine.Engine.InstallBypass`,
  `BypassLedger.StoppedUndo`); at a restart, exactly when the kernel holds a bypass that the file does not record, as
  after a crash between the installation and the save, or after a policy that was taken back when saving failed only
  after the renaming (`Engine.Engine.Restart`, `BypassLedger.UnsavedBypassIsForgotten`). Such a leftover makes every
  later bypass of that user and family fail (`BypassLedger.LeftoverBlocks`, `BypassLedger.BypassLeftBehind`).
- Skipping the process scan is exact only without Include policies that have no rules (`Engine.FastPathExact`).
- A cancel of another client that steers a running connect leaves no record of its own. It stays visible until
  sixteen later completions if no stage is reported over it (`Operations.SteeredCancelPersists`), and is forgotten
  if one is, unless the connect is cancelled again or ends as cancelled (`Operations.RestagedConnectForgets`,
  `Operations.ReportedStageHidesCancel`).
- One arming of automatic connection can send more than eight connects: at most eight for itself and eight more each
  time the account becomes ready again (`AutoConnect.EightPerSequence`). That many are reached
  (`AutoConnect.EightPerSequenceIsReached`), so eight is the limit exactly when the account never becomes ready again
  (`AutoConnect.EightIsTheLimit`).
- Taking a pin off can leave the default connection dangling (`Recents.PinMayDangle`,
  `Recents.UnpinnedDefaultDangles`), and names with a colon can make two recent targets share a key
  (`Recents.ColonCollides`).
- A cancel overtaken by any newer request is answered while the tunnel may still be up
  (`Attempts.OvertakenCancelLeavesTunnel`).

`dafny verify dfyconfig.toml` checks the whole project.

## Model

| member | source | states |
|---|---|---|
| BpfMachine.LpmLongestExists | splitd/src/bpf.rs:158-181 | a trie lookup that has a matching entry has a longest one, so a hit is exactly the existence of a matching entry |
| BpfMachine.WriteStackAt | splitd/src/bpf.rs:656-666 | a store defines exactly the bytes it covers and leaves every other byte alone |
| BpfAssembler.AssembledRunsAsSource | splitd/src/bpf.rs:624-733 | running the finished pc-relative code equals running the labelled source, from every position, state and fuel |
| BpfAssembler.JumpsMissWideTails | splitd/src/bpf.rs:673-676 | no jump lands in the second slot of a wide load |
| BpfAssembler.ForwardRunHalts | splitd/src/bpf.rs:701-733 | forward-only source halts within its remaining slots, with its fuel-free meaning |
| BpfAssembler.ForwardProgramsHalt | splitd/src/bpf.rs:724-733 | assembled forward-only code halts within its own length with the meaning of its source |
| BpfAssembler.LabelsAreAddresses | splitd/src/bpf.rs:716-718 | the label table of the builder holds exactly the defined labels, at the slots they stand before |
| BpfAssembler.PatchOne | splitd/src/bpf.rs:726-731 | patching one jump rewrites its own slot with the distance to its label and nothing else |
| BpfAssembler.ProgramBuilder.Emit | splitd/src/bpf.rs:632-634 | an emitted instruction extends the source by one call and keeps all three tables in step with it |
| BpfAssembler.ProgramBuilder.Jump | splitd/src/bpf.rs:701-714 | a jump is emitted unpatched and recorded with its target |
| BpfAssembler.ProgramBuilder.LoadMap | splitd/src/bpf.rs:673-676 | a map load takes two slots |
| BpfAssembler.ProgramBuilder.PlaceLabel | splitd/src/bpf.rs:716-718 | a new label names the slot emitted next |
| BpfAssembler.ProgramBuilder.Finish | splitd/src/bpf.rs:724-733 | the patch loop turns the emitted slots into the assembled program of the calls made |
| BpfPrograms.DestinationShape | splitd/src/bpf.rs:548-622 | the destination program is accepted by the assembler and all its jumps go forward to the labels' places |
| BpfPrograms.RunLookup | splitd/src/bpf.rs:567-569 | the lookup macro leaves the map's answer for the stacked key in r0 and clobbers r1 to r5 |
| BpfPrograms.RunSocketOption | splitd/src/bpf.rs:682-699 | the socket-option macros read or write the mark through the stack buffer, or fail, and keep the saved registers |
| BpfPrograms.RunBaseline | splitd/src/bpf.rs:570-577 | after the prologue r8 is the bypass mark exactly for tasks in the pid map, and the uid is on the stack |
| BpfPrograms.RunKey | splitd/src/bpf.rs:578-591 | the key on the stack is prefix length, uid and full destination address, for both families |
| BpfPrograms.RunDecided | splitd/src/bpf.rs:608-620 | the marking tail sets the bypass mark, clears our own earlier mark, and keeps a foreign one |
| BpfPrograms.RunSplit | splitd/src/bpf.rs:596-607 | without a bypass hit the mode and range lookups decide, else the application baseline |
| BpfPrograms.DestinationProgramDecides | splitd/src/bpf.rs:548-622 | for every task, destination, map contents and prior mark both destination programs exit with r0 = 1, even when helpers fail, and with the final mark of the policy when they work |
| BpfPrograms.HelpersDecide | splitd/src/bpf.rs:608-620 | which helpers have to work for each decision to get its mark, exactly |
| BpfHooks.DestinationMarkProgram | splitd/src/bpf.rs:548-622 | the generator's builder calls finish to the assembled destination program |
| BpfHooks.SocketMarkProgram | splitd/src/bpf.rs:531-546 | the generator's builder calls finish to the assembled socket program |
| BpfHooks.SocketProgramMarks | splitd/src/bpf.rs:531-546 | the mark field of a new socket becomes the bypass mark iff the task group is in the pid map; nothing else changes and r0 = 1 |
| BpfHooks.RepeatedHooks | splitd/src/bpf.rs:557-619 | after any nonempty run of hooks whose helpers work the mark is ours iff the last decision was to bypass, and a foreign mark survives when none was |
| SplitModel.NormalizeLoop | splitd/src/model.rs:133-141 | the loop computes the normalisation |
| SplitModel.NormalizeMeans | splitd/src/model.rs:133-141 | normalisation keeps exactly the wanted values, once each |
| SplitModel.RangesValidation | splitd/src/model.rs:113-131 | which range lists are accepted; the result is bounded, distinct, canonical, covers the same addresses, and is left alone by validation |
| SplitModel.ParseMeans | splitd/src/model.rs:143-158 | canonicalisation keeps the addresses covered |
| SplitModel.ConfigValidation | splitd/src/model.rs:43-67 | validation keeps mode, matching and coverage, is idempotent, and its results are exactly the configurations it leaves alone |
| SplitModel.MatchesAtBoundary | splitd/src/model.rs:103-108 | a path matches a process text at argument boundaries only |
| SplitModel.OwnClientStaysInTunnel | splitd/src/model.rs:77-100 | in Include mode the client itself is never excluded |
| PolicyMeaning.ExcludedMeans | splitd/src/model.rs:77-108 | an Exclude policy takes out exactly the processes that run a listed path, with or without arguments; an Include policy all others, but never the client |
| PolicyMeaning.ScanExcludes | splitd/src/engine.rs:487-525 | a scan tracks exactly the processes of configured users, matches those with a chain of configured ancestors to one its own policy names, and excludes by the mode |
| PolicyMeaning.AppRulesMatter | splitd/src/model.rs:69-75 | a policy has application rules exactly when some process can run a listed path |
| PolicyMeaning.AcceptedMeans | splitd/src/model.rs:44-67 | exactly the bounded configurations without over-long or NUL-holding values and unparsable ranges are accepted |
| PolicyMeaning.PathsKept | splitd/src/model.rs:133-141 | validation keeps the paths without repetition and empty ones, in the order of their first occurrence |
| LpmIndex.LpmKeyMatches | splitd/src/bpf.rs:398-412 | a uid-scoped key matches a query exactly when the uid is the same and the range contains the address |
| LpmIndex.TrieAnswers | splitd/src/bpf.rs:592-606 | a trie lookup of a program answers whether the calling user's list covers the destination |
| LpmIndex.MapsRefineLists | splitd/src/bpf.rs:290-323 | from maps that agree with the lists the program decides what the lists of the calling user say |
| PolicyEnforcement.PolicyEnforced | splitd/src/bpf.rs:548-622 | running the generated program on agreeing maps leaves the mark the user's lists ask for |
| Marker.SocketMarker.SetExcluded | splitd/src/bpf.rs:247-253 | a success adds or removes exactly one pid; a failure changes nothing |
| Marker.SocketMarker.ChangeRanges | splitd/src/bpf.rs:325-379 | a run of range operations changes exactly the entries of the ranges before the first failure, all of them on success |
| Marker.SocketMarker.ClearConfigs | splitd/src/bpf.rs:297-303 | deleting the old split lists and modes; the users whose mode deletion failed are ignored and keep it |
| Marker.SocketMarker.InstallConfigs | splitd/src/bpf.rs:309-316 | installing the new split lists and the modes of the users that have rules |
| Marker.SocketMarker.ReplaceMaps | splitd/src/bpf.rs:290-323 | a failure leaves exactly what the operations before the failed one did; at every stopping point the entries and the mode keys lie between the old ones without the old policy and the old or new ones; success is exact |
| Marker.SocketMarker.SyncConfigs | splitd/src/bpf.rs:255-288 | success and rolled-back failure keep agreement; a failed rollback leaves exactly what two failed operations leave, never entries or modes of both policies; the cached policy is never reinstalled; when a success after damage agrees again; which modes are left |
| Marker.PolicyFits | splitd/src/bpf.rs:40-42 | kernel entries within a policy within the limits fit the 64 * 256 entries of each of the four tries |
| Marker.PolicyModesFit | splitd/src/bpf.rs:41 | and its modes fit the 64 entries of the mode map |
| Marker.SocketMarker.Install | splitd/src/bpf.rs:255-323 | while the maps are undamaged no trie outgrows its capacity wherever the installation stops, nor the mode map when no mode is stuck; a success ends the damage when the maps agree |
| Marker.ModesAfterReplacement | splitd/src/bpf.rs:297-299 | the modes after a replacement are those of the new policy and the stale ones, and fit exactly when both have room |
| Marker.OneMoreSync | splitd/src/bpf.rs:297-316 | the modes after a run of installations, each with its stuck modes |
| Marker.StuckModesOverflow | splitd/src/bpf.rs:299 | the failing run, one user at a time: sixty-four users, one cleared while its mode is stuck, another added; sixty-five modes |
| Marker.DamageStays | splitd/src/bpf.rs:260-288 | the failing input, operation by operation: the second of two ranges cannot be installed, the first cannot be deleted again, and a later success does not agree |
| Tracking.FixpointIsTracking | splitd/src/engine.rs:487-509 | verdicts no round changes are the least fixpoint over parent chains |
| Tracking.PropagateOnce | splitd/src/engine.rs:498-505 | a pass that changes something adds a match; one that changes nothing has reached the fixpoint |
| Tracking.AllTrue | splitd/src/engine.rs:496-509 | as many matches as processes leave nothing pending, so as many rounds as processes suffice |
| Tracking.BuildTracking | splitd/src/engine.rs:487-525 | the scan computes the tracking of the set of processes found: independent of order, cycles included |
| Engine.FastPathExact | splitd/src/engine.rs:460-469 | the scan is skipped only without application rules and without rules under Include; that excludes what a scan would exclude, for every process table, iff no user is in Include mode |
| Engine.MarkerNeeded | splitd/src/engine.rs:436-446 | there is a marker exactly when some processes have to be tracked or the lists decide about some destination against what the task alone would get |
| Engine.TakenBackPolicy | splitd/src/engine.rs:176-199 | the exclusions left by a policy that was taken back fit the remaining ones iff the mode was kept or the user runs nothing |
| ProcessEvents.EventKeepsConsistency | splitd/src/engine.rs:527-592 | every event keeps each exclusion as the policy says |
| ProcessEvents.MatchPersists | splitd/src/engine.rs:540-589 | a match survives any run of forks and execs until exit, reuse of the pid or a foreign user |
| ProcessEvents.ChildIsMatched | splitd/src/engine.rs:540-546 | the child of a match is a match |
| ProcessEvents.ExecDecides | splitd/src/engine.rs:560-589 | after an exec of a configured user the process is tracked, matched iff it was or its policy names what it runs now, and excluded by the mode; of another user it is dropped |
| ProcessEvents.OrphanDecides | splitd/src/engine.rs:547-558 | the same for a fork whose parent is not tracked, by its own text alone |
| ProcessEvents.ChildDecides | splitd/src/engine.rs:540-546 | the child of a tracked parent takes its user and its match |
| ProcessEvents.MatchedExactly | splitd/src/engine.rs:527-592 | after any run of events a process is matched iff some event made it match or it was, and nothing ended it since |
| Engine.KernelFits | splitd/src/bpf.rs:40-42 | in every state with undamaged maps the kernel holds at most 64 * 256 entries in each trie, and at most 64 modes unless one is stuck |
| Engine.KernelBypassHasRules | splitd/src/engine.rs:249-325 | in every state, unless an undo failed, what the kernel holds for the bypass of a user is on record and its policy has rules; unless a removal stopped halfway, what is on record is in the kernel |
| Engine.Engine.Rescan | splitd/src/engine.rs:460-479 | the pid map loses what is no longer excluded and gains what is; it fails exactly when an operation fails, or the process table that is needed |
| Engine.Engine.Reconcile | splitd/src/engine.rs:436-480 | success installs the current policies and tracking; the pid map is exact iff every key was tracked or is excluded, and faults end when it is; failure keeps the tracking; the maps stay within their capacities; nothing but a failing operation or a missing process table makes it fail |
| Engine.Engine.HandleEvent | splitd/src/engine.rs:527-592 | an event has its effect on tracking and pid map together; a failed map operation is remembered, and is the only reason to fail |
| Engine.Engine.Save | splitd/src/store.rs:147-203 | the file is the old one or the current state; an error after the rename leaves the new one |
| Engine.Engine.InstallBypass | splitd/src/engine.rs:279-307 | a bypass is in the kernel, on record and in the file, or is taken back: the kernel holds it without a record exactly when the removal stops early; it succeeds exactly when no command and no save fails, there is a route to use and its tables are free |
| Engine.Engine.SetConfig | splitd/src/engine.rs:150-203 | either the policy of one user changes and kernel, tracking and file follow, or every policy is as before and the file is the old one or the refused one; a policy without rules takes the bypass of the user out of record and kernel; nothing of others changes in the kernel; without a failing operation it is refused exactly when there are too many users, and after a failure the policies are back in the kernel and the bypass on record unless that failed as well |
| Engine.Engine.ClearConfig | splitd/src/engine.rs:205-241 | the same for clearing, with the bypass of the user taken out of record and kernel |
| Engine.Engine.SetDestinationPolicy | splitd/src/engine.rs:327-368 | the same for the bypass ranges of a user; the kernel routes are untouched |
| Engine.Engine.SetKillSwitchBypass | splitd/src/engine.rs:249-325 | a bypass only with rules, one route per family; the kernel loses exactly the commands of the old one and gains those of the new one; it succeeds exactly for a system engine when nothing fails and its tables hold nothing but its old bypass; nothing of others changes |
| Engine.Engine.Restart | splitd/src/engine.rs:58-87 | a restart at any point loads the saved policies and takes what the file records out of the kernel; a bypass stays exactly when the file did not record it, and none stays after a run without failed undo or late save; a failed restart forgets nothing |
| Engine.Engine.Close | splitd/src/engine.rs:402-414 | dropping the engine takes only recorded bypasses out of the kernel, all of them when no deletion fails |
| BypassLedger.StoppedUndo | splitd/src/engine.rs:294-307 | an undo leaves nothing unrecorded in the kernel exactly when it runs to its end |
| BypassLedger.UnsavedBypassIsForgotten | splitd/src/engine.rs:60-72 | a bypass in the kernel that the file does not record is none that a restart takes out |
| BypassLedger.LeftoverBlocks | splitd/src/routing.rs:257-277 | anything left of a bypass keeps its tables from being free |
| BypassLedger.BypassLeftBehind | splitd/src/engine.rs:294-307 | the failing inputs: an undo that fails at once, and a crash before the save |
| Store.SaveThenLoad | splitd/src/store.rs:56-145 | exactly the states that pass all checks come back equal from the file |
| Store.LoadedIsStorable | splitd/src/store.rs:84-139 | whatever the file holds, what is loaded passes all checks |
| Store.LoadMeans | splitd/src/store.rs:56-145 | which files are accepted, of either schema; all of it is loaded, changed by validation alone |
| Routing.PreferredIsLeast | splitd/src/routing.rs:357-363 | one least route per family, drawn from the input |
| Routing.PreferenceMeans | splitd/src/routing.rs:18-24 | a route over the link alone is preferred, then the lowest gateway, then the first interface by name |
| Routing.CommandsAre | splitd/src/routing.rs:167-196 | the routes of a bypass are exactly those over its physical routes, the way to a gateway right before the way through it |
| Routing.RulesAre | splitd/src/routing.rs:220-251 | its rules are exactly one per family in use, for the marked packets of the user |
| Routing.MarkedTrafficBypasses | splitd/src/routing.rs:167-251 | the rule of a user sends its marked traffic, and no other, to the table whose default route is the physical one |
| Routing.UsersApart | splitd/src/routing.rs:220-251 | users own disjoint routes and rules |
| Routing.VerifiedIsOurs | splitd/src/routing.rs:279-308 | the ownership counts hold iff the table holds exactly our routes and our one rule |
| Routing.KernelRouting.InstallRoute | splitd/src/routing.rs:146-159 | all commands of a route, or a part of them when a rollback fails; nothing that was there is lost; it succeeds exactly when no command fails and none of its routes was there |
| Routing.KernelRouting.Disable | splitd/src/routing.rs:125-144 | exactly the commands before the first failure are deleted, rules first, and only owned ones; all of them on success |
| Routing.KernelRouting.Install | splitd/src/routing.rs:90-123 | the same while no other program is at work; after a failure the kernel is as before exactly when the deletions reached every command added |
| Routing.StoppedRemovalLeaves | splitd/src/routing.rs:125-144 | a removal of an installed bypass leaves some of it exactly when it stops early |
| Routing.KernelRouting.Enable | splitd/src/routing.rs:90-123 | success adds exactly the owned commands to free tables; a failure whose deletions succeed restores the state; it succeeds exactly when nothing fails, there is a route, the tables are free and others leave them alone |
| Routing.EnableThenDisable | splitd/src/routing.rs:90-144 | enabling and then disabling the result is the identity |
| Attempts.StepKeeps | agent/src/native_backend/mod.rs:2284-2709 | every atomic step of every request keeps mutex, numbering and tunnel ownership |
| Attempts.RunsKeep | agent/src/native_backend/mod.rs:2284-2709 | so does every interleaving |
| Attempts.CancelMeansStopped | agent/src/native_backend/mod.rs:2595-2613 | once a cancel or a disconnect is answered Ok, a newer request exists or no tunnel of the agent is active and none can be activated |
| Attempts.RepliesArePromises | agent/src/native_backend/mod.rs:2595-2653 | in every run, when a disconnect or a logout is answered no tunnel of the agent is active or owned, and a disconnect succeeds exactly if it took one down |
| Attempts.EndsWithAnswer | agent/src/native_backend/mod.rs:2595-2653 | a request that is no connect ends only with its answer, after the tunnel it found is down and forgotten, or when taking it down fails |
| Attempts.ServedStops | agent/src/native_backend/mod.rs:2637-2653 | a disconnect, a logout or the newest cancel served while a tunnel is owned goes on to take that tunnel down |
| Attempts.OvertakenNeverActivates | agent/src/native_backend/mod.rs:2365-2420 | a connect overtaken before its last check activates no tunnel, in every continuation |
| Attempts.ChecksMean | agent/src/native_backend/mod.rs:2284-2420 | both checks of a connect pass exactly without a newer request; every request but a logout overtakes the connects before it |
| Attempts.ConnectEnds | agent/src/native_backend/mod.rs:2284-2594 | how a connect ends, and what is up and owned then; a failed tunnel is taken down, and a replaced one makes room |
| Attempts.CancelStrikesOlder | agent/src/native_backend/mod.rs:2603-2611 | a cancel takes down only tunnels of attempts older than itself |
| Attempts.OneTunnel | agent/src/native_backend/mod.rs:2348-2363 | at most one tunnel of the agent is active, and it is the owned one or about to be |
| Attempts.OvertakenCancelLeavesTunnel | agent/src/native_backend/mod.rs:2603-2607 | a cancel overtaken by a newer request is answered with the tunnel still up |
| Operations.RunsAreValid | agent/src/operations.rs:65-264 | in every reachable registry active operations are compatible, running and distinct, and the journal holds at most 16 terminal ones |
| Operations.ConflictIsSymmetric | agent/src/operations.rs:457-467 | conflicts are mutual, each domain conflicts with itself, and authentication with tunnel and support |
| Operations.OwnOperationStarts | agent/src/operations.rs:65-148 | a request with nothing to steer starts its operation exactly when its domain runs beside that of every active one, and is refused for one it does not run beside otherwise |
| Operations.ControlSteers | agent/src/operations.rs:79-104 | a control request steers the running operation it is for, which keeps its identity, and a key request without one is refused |
| Operations.ReadIsGuarded | agent/src/operations.rs:265-290 | a read that needs a stable session is refused exactly while the session is changing |
| Operations.CompletionStands | agent/src/operations.rs:177-218 | until sixteen later completions a completed operation is in the journal as cancelled, succeeded or failed by its stage and its outcome, with the right error |
| OperationSteps.ControlEnds | agent/src/operations.rs:158-176 | a control request that fails shows its error on the operation it steered and nowhere else; one that succeeds changes nothing |
| OperationSteps.SteeredShows | agent/src/operations.rs:79-104 | what a steered operation shows, and that no failure of its control looks like a cancel |
| OperationSteps.StageReaches | agent/src/operations.rs:221-264 | a usable stage reaches the operation it is meant for and no other; an unusable one changes nothing |
| Operations.OnlyCompletionMoves | agent/src/operations.rs:150-175 | only the owner's completion takes an operation out; a control lease never completes its target |
| Operations.CompletesOnce | agent/src/operations.rs:177-218 | an operation that is not active is never active or completed again |
| Operations.OperationCoordinator.Begin | agent/src/operations.rs:65-148 | steering, refusing and starting as specified on the whole registry |
| Operations.OperationCoordinator.Finish | agent/src/operations.rs:150-219 | completing, failing a control request, or nothing, as specified |
| Operations.OperationCoordinator.UpdateStage | agent/src/operations.rs:221-240 | the first running operation of the kind gets the stage |
| Operations.PlacedAfter | agent/src/operations.rs:216-217 | an operation is active, or in the journal exactly behind the operations completed later, until sixteen have |
| Operations.InterruptionPersists | agent/src/operations.rs:540-564 | an operation of another client's connect, cancel, disconnect or logout reads as interruption until sixteen later completions |
| Operations.CancelShows | agent/src/operations.rs:82-104 | until sixteen later completions a connect reads as cancelled iff, of the events that decide about it, the last one cancelled it |
| Operations.SteeredCancelPersists | agent/src/operations.rs:540-564 | a cancel that steers the sequence's own connect reads as interruption until sixteen later completions, if no stage is reported over it |
| Operations.RestagedConnectForgets | agent/src/operations.rs:221-240 | and not any more once one is, unless the connect is cancelled again or ends as cancelled |
| Operations.RequestInterrupts | agent/src/operations.rs:540-564 | any granted request of another client to connect, cancel, disconnect or log out, whether it runs or steers, reads as interruption until sixteen later completions |
| Operations.InterruptionExpires | agent/src/operations.rs:216-217 | after sixteen it is forgotten |
| Operations.ReportedStageHidesCancel | agent/src/operations.rs:221-240 | a stage reported after another client's cancel hides it |
| AutoConnect.SequenceIs | agent/src/autoconnect.rs:76-138 | a sequence of at most eight tries sends at most one connect for each, right after a check that showed no interruption, and none after it saw one |
| AutoConnect.InterruptionStops | agent/src/autoconnect.rs:24-73 | in every history only a new arming leads from a seen interruption to a connect |
| AutoConnect.EightPerSequence | agent/src/autoconnect.rs:41-73 | one arming sends at most eight connects, and eight more each time the account becomes ready again |
| AutoConnect.EightPerSequenceIsReached | agent/src/autoconnect.rs:41-73 | and for every such number of times there is a history that sends exactly that many |
| AutoConnect.EightIsTheLimit | agent/src/autoconnect.rs:41-73 | eight is the limit for one arming exactly when the account never becomes ready again |
| AutoConnect.CheckObeyed | agent/src/autoconnect.rs:76-138 | every check answers what the journal shows against the baseline of the last arming; one that shows an interruption prevents the connect it guards, or ends connecting until the next arming |
| ConnectionTries.OnceMeans | agent/src/autoconnect.rs:153-215 | a try sends a connect exactly when settings, account, login and backend allow it and nothing is going on or interrupts; its reply is its first failure |
| ConnectionTries.SequenceMeans | agent/src/autoconnect.rs:76-138 | a sequence connects exactly in a round it reaches through passing failures and quiet waits, and ends as interrupted exactly when such a round sees an interruption or a cancel |
| ConnectionTries.SnapshotMeans | agent/src/autoconnect.rs:41-73 | a snapshot starts a sequence exactly when auto-connect was turned on, or the user signed in and nothing stopped it; what stops it afterwards |
| Obedience.RequestStopsConnecting | agent/src/autoconnect.rs:24-138 | another client's request, from its start in the registry: every check made while it is visible shows it, prevents the connect it guards, and ends connecting until the next arming |
| AutoConnect.AutoConnect.AttemptOnce | agent/src/autoconnect.rs:153-215 | one try does what its answers lead to |
| AutoConnect.AutoConnect.Attempt | agent/src/autoconnect.rs:76-138 | the loop of tries and waits does what the answers lead to |
| AutoConnect.AutoConnect.OnSnapshot | agent/src/autoconnect.rs:41-73 | a snapshot takes the state to the specified one |
| Encoding.Base64RoundTrip | agent/src/native_backend/secret_store.rs:285-326 | what is encoded decodes to itself, n bytes to the ceiling of 4n/3 characters |
| Encoding.Base64Canonical | agent/src/native_backend/secret_store.rs:285-326 | only what encoding writes is decoded: one text for each byte string |
| Encoding.Base32Injective | agent/src/native_backend/secret_store.rs:426-431 | different names have different encodings |
| Keyring.EnvelopesReadBack | agent/src/native_backend/secret_store.rs:285-369 | the writer refuses only what exceeds the raw limit and never produces what the reader rejects |
| Keyring.AccountKeysApart | agent/src/native_backend/secret_store.rs:426-431 | account keys are injective and apart from the index and marker keys |
| Keyring.NormalizedAccounts | agent/src/native_backend/secret_store.rs:192-203 | the loop keeps the first 32 different valid names |
| Keyring.SaveThenLoad | agent/src/native_backend/secret_store.rs:134-160 | a completed save is what the next failure-free load answers |
| Keyring.PartialSave | agent/src/native_backend/secret_store.rs:150-158 | however far a save gets, the default is the previous session or the saved one |
| Keyring.InterruptedImport | agent/src/native_backend/secret_store.rs:114-132 | wherever an import is cut, the next failure-free load answers the same |
| Keyring.DeleteSignsOut | agent/src/native_backend/secret_store.rs:162-190 | from the removal of the session on the account is signed out |
| Keyring.DurableSignOut | agent/src/native_backend/secret_store.rs:114-190 | over every later run of loads, saves of other accounts and sign-outs, each cut anywhere, no load answers with the account |
| KeyringFrames.NameMeans | agent/src/native_backend/secret_store.rs:404-424 | a name is accepted iff it is at most 256 bytes, not blank and free of control characters |
| KeyringFrames.SavableMeans | agent/src/native_backend/secret_store.rs:134-150 | a save is refused exactly for a bad name, a session that is not signed in, or one too large |
| KeyringFrames.AnswerMeans | agent/src/native_backend/secret_store.rs:114-132 | a load answers the first indexed account with a stored session, else imports the shared login once if it can be saved |
| KeyringFrames.ImportIsKept | agent/src/native_backend/secret_store.rs:114-160 | after the import every later load answers with it |
| KeyringFrames.DeleteKeepsSessions | agent/src/native_backend/secret_store.rs:162-190 | however far a sign-out gets, the sessions of the other accounts stay |
| KeyringFrames.DeleteKeepsAccounts | agent/src/native_backend/secret_store.rs:162-190 | a completed sign-out leaves in the index exactly the other accounts, in their order, up to the limit |
| KeyringFrames.DeleteThenLoad | agent/src/native_backend/secret_store.rs:162-222 | and the next load answers the first of them with a usable session |
| KeyringFrames.SaveKeepsSessions | agent/src/native_backend/secret_store.rs:134-160 | however far a save gets, the sessions of the other accounts stay |
| KeyringFrames.SaveKeepsAccounts | agent/src/native_backend/secret_store.rs:134-160 | a completed save puts its account first and loses no other but those beyond the limit |
| SecretStore.SecretStore.Save | agent/src/native_backend/secret_store.rs:134-160 | the calls perform a prefix of the ordered writes, all of them on success; it succeeds exactly for a savable session when no storage call fails |
| SecretStore.SecretStore.Delete | agent/src/native_backend/secret_store.rs:162-190 | marker, session, index in that order; success signs out; it succeeds exactly for a valid name, an index that fits and no failing call |
| SecretStore.SecretStore.LoadDefault | agent/src/native_backend/secret_store.rs:114-132 | an answered load is the failure-free answer, and writes only for an import; it fails exactly when a call fails or the login cannot be saved |
| SecretStore.SecretStore.LoadPrivateDefault | agent/src/native_backend/secret_store.rs:205-222 | the first indexed account with a usable session |
| Catalog.CanonicalStateAgrees | agent/src/native_backend/catalog.rs:30-54 | servers of a city whose named states agree share that state |
| Catalog.Choose | agent/src/native_backend/catalog.rs:449-543 | a choice is eligible and best among those it is compared with; no choice means nobody is eligible |
| Catalog.SelectValidated | agent/src/native_backend/catalog.rs:384-598 | without a server name it succeeds iff some eligible server has an active verified endpoint, and none of lower score has one; the choice obeys the target and is in no excluded place; with a name it is the first server of that name or the reason why not |
| CatalogLaws.MatchesMeans | agent/src/native_backend/catalog.rs:459-500 | a server matches exactly when it obeys every wish of the target, and has common features only unless a feature or a gateway is asked for |
| CatalogLaws.EligibleMeans | agent/src/native_backend/catalog.rs:446-500 | without exclusions the eligible servers are the enabled, paid-for, active ones that match |
| CatalogLaws.ExclusionsObeyed | agent/src/native_backend/catalog.rs:502-524 | exclusions take away exactly the servers in an excluded place, for paying users who name no location |
| CatalogLaws.ExclusionMeans | agent/src/native_backend/catalog.rs:601-633 | an exclusion covers the servers that exit in its place, a country also the secure-core servers entered there |
| CatalogLaws.InvalidMeans | agent/src/native_backend/catalog.rs:412-444 | which targets are refused as senseless, and with which code |
| CatalogLaws.CanonicalStateMeans | agent/src/native_backend/catalog.rs:30-54 | a server without a state is in the one its city is known under, if that is only one |
| Dns.BuildTxtQuery | agent/src/native_backend/alternative_routing.rs:123-145 | exactly the valid hosts get a query, of len + 18 bytes |
| DnsHosts.QueryAsks | agent/src/native_backend/alternative_routing.rs:123-145 | the query names the labels of the host, which are the host with its dots taken out |
| DnsHosts.HostnameMeans | agent/src/native_backend/alternative_routing.rs:254-267 | a host is valid iff it has 1 to 253 bytes and is made of labels of 1 to 63 letters, digits and inner dashes with dots between them |
| Dns.QueryNameSkipped | agent/src/native_backend/alternative_routing.rs:211-234 | the reader consumes exactly the name of the query |
| Dns.SkipNameExact | agent/src/native_backend/alternative_routing.rs:211-234 | it consumes exactly any well-formed name, compressed or not |
| Dns.SkipDnsName | agent/src/native_backend/alternative_routing.rs:211-234 | the loop ends on every byte string and computes the specified offset |
| Dns.ResponseParses | agent/src/native_backend/alternative_routing.rs:147-209 | a well-formed response parses to the routes of its answers, in order |
| DnsHosts.AnswerGives | agent/src/native_backend/alternative_routing.rs:181-203 | a TXT answer of class IN whose joined parts are a valid host, whatever white space and trailing dots surround it, gives one route to it in small letters, for its time but a minute at least; any other answer gives none |
| DnsHosts.ReaderFindsHosts | agent/src/native_backend/alternative_routing.rs:147-209 | exactly the well-formed successful responses are read, and from each exactly the hosts of its answers, in their order |
| Dns.ParseTxtResponse | agent/src/native_backend/alternative_routing.rs:147-209 | on every byte string the reader ends, reads in bounds and computes the specification |
| Recents.KeyIdentifies | agent/src/store.rs:1422-1448 | without colons in the fields two targets have the same key iff their key fields are the same |
| RecentsFrames.KeyIsPlace | agent/src/store.rs:1422-1448 | and exactly for the same place: the profile, the gateway and server, or feature, countries, state, city and server |
| Recents.ColonCollides | agent/src/store.rs:1422-1448 | with a colon two different targets can share a key |
| Recents.TrimmedMeans | agent/src/store.rs:1450-1476 | pinned by pin time, then at most six unpinned from the newest; none newer than a kept one is dropped, and never the latest |
| RecentsFrames.TrimmingDrops | agent/src/store.rs:1450-1476 | an entry is dropped only for six unpinned ones that are no older |
| Recents.RecordKeeps | agent/src/store.rs:623-700 | recording keeps the account in order and its entry is later than all others |
| RecentsFrames.RecordFrame | agent/src/store.rs:623-700 | when a recording is refused; else it adds one entry, which takes over identity and pin of the one it replaces, and loses no other but by trimming |
| Recents.PinKeeps | agent/src/store.rs:702-722 | pinning keeps the account in order and the latest entry latest |
| RecentsFrames.PinFrame | agent/src/store.rs:702-722 | pinning changes the pin of one entry and loses none but by trimming |
| Recents.DeleteKeeps | agent/src/store.rs:724-733 | deleting keeps the account in order and the default valid |
| Recents.DeleteProfileKeeps | agent/src/store.rs:608-621 | deleting a profile takes its recents along |
| RecentsFrames.DeleteFrame | agent/src/store.rs:608-733 | deleting an entry or a profile takes away exactly that and keeps the rest |
| Recents.PinMayDangle | agent/src/store.rs:702-722 | the default dangles after pinning iff seven are unpinned and it names the oldest of them, the last one of several |
| Recents.UnpinnedDefaultDangles | agent/src/store.rs:702-722 | the failing input: the oldest of seven loses its pin |
| Recents.LastIsRecorded | agent/src/store.rs:745-886 | after a recording, and pins and deletions of others, the last connection resolves to the recorded target |
| RecentsFrames.LastLeadsThere | agent/src/store.rs:745-886 | and asks for its country, entry country, state, city, server, gateway and feature, each in its own field |
| RecentsFrames.RecentLeadsThere | agent/src/store.rs:778-886 | every kept entry, chosen by its identifier, leads to its own target |
| AccountStore.AccountStore.TrimRecents | agent/src/store.rs:1450-1476 | the partition loop computes the trimming |
| AccountStore.AccountStore.RecordRecent | agent/src/store.rs:623-700 | the in-place recording is the specified one |
| AccountStore.AccountStore.PinRecent | agent/src/store.rs:702-722 | the in-place pinning is the specified one |
| AccountStore.AccountStore.DeleteProfileEntry | agent/src/store.rs:608-621 | the in-place deletion is the specified one |

## Left out

- BpfPrograms.DestinationProgramDecides: words are little-endian, as on the supported hosts.
- BpfMachine.Lookup: a map value is read where it was found; updates of the maps while a program runs are not modelled.
- BpfHooks.RepeatedHooks: the hooks may run in different environments; each run sees one snapshot of the maps.
- SplitModel.ConfigValidation: the text of a range is a class (blank, malformed, too long, or a spelling of a network); address parsing and printing, trimming and byte lengths of texts are not modelled.
- Marker.SocketMarker.SyncConfigs: users are visited in any order instead of ascending; creating maps and attaching programs is one step that may fail. A full map is one of the reasons why an update may fail.
- Engine.Engine.HandleEvent: the scan and the events are parameters; the five-second ticks, the event queue and its loss flag are left out.
- Engine.Engine.Save: serialisation and the file-size limit are left out, as are the temporary file's name and permissions.
- Routing.KernelRouting.Enable: other programs add routes and rules at one point, before the verification; a failed command changes nothing.
- Attempts.CancelMeansStopped: a deactivated tunnel counts as stopped; a logout that has observed no owned tunnel never enters the mutex and is not part of the interleaving; the disconnection after a local-agent rejection, which reads the owned tunnel before it takes the mutex, and the restoration of a session are not part of the interleaving.
- Operations.OperationCoordinator.Finish: times, the names of terminal stages and error details are left out; identifiers do not wrap around.
- Obedience.RequestStopsConnecting: the times of the checks are inputs and need not ascend; what auto-connect asks of the backend is not among the events of the registry's run unless that run has it.
- Engine.Engine.SetKillSwitchBypass: no other program changes the routing tables while the engine does.
- Keyring.DurableSignOut: the legacy login is any session or none; reading and repairing the legacy entries is left out; a name is the UTF-8 form of a text, and names that are no such form are allowed too. Serialisation is an injective encoding with a matching decoder.
- Catalog.SelectValidated: parameters are already trimmed texts, scores are integers, sorting and taking the first is choosing the first least; signature checks are an arbitrary predicate.
- Recents.RecordKeeps: times may repeat, identifiers and keys do not. Saving profiles, preferences and onboarding are field copying.
- BpfMachine.WriteStackAt: loading programs into a kernel verifier, attaching them and their names are not modelled.
- Login, two-factor and key authentication, HTTP, telemetry, support reports, the state reducer, notifications, sockets and desktop files: I/O or field copying.
- Feature setting, server pages and search, lifecycle files, process connector and procfs parsing: they would add only easy members.

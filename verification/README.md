# Frame triage: protocols and transformations

This project models the parts of the repository whose guarantees span several functions and every run,
and proves what they promise. Each step system lets everybody else act between any two system calls.

- **Owned process groups** (`ProcessTable`, `GroupTree`, `Ancestry`, `OwnedGroup`): the harness that freezes a
  process group top-down and kills it deepest first, against processes that fork, exit, are reaped and reuse pids.
- **Capture commit** (`CaptureDisk`, `CaptureProtocol`, `CaptureCommit`): the write-ahead commit of a
  scrollback capture on a directory that separates durable from volatile state, with a crash anywhere.
- **Staged install** (`InstallVolume`, `StagedInstall`): private stage, adoption by inode, publication by
  rename and cleanup, with hooks that may change the file system in any way.
- **Tabs** (`TabIdentity`, `TabInventory`, `OriginClose`, `ViewerReconcile`): decisions on stale
  inventories while tabs are renamed, closed and reborn.
- **Transfer lock** (`LockKernel`, `TransferLock`): `flock` over open file descriptions that are copied by
  fork, dropped by exec and handed on between processes.
- **Keybinds** (`KeybindDiff`, `KeybindConfig`, `KeybindRepair`, `RepairMeaning`, `RepairReport`): the grouped
  diff, what a config means to the parser, and the repair of a config tree.
- **Text** (`WrapLines`, `KdlLayout`, `ModuleRename`, `ModuleTable`) and **dates** (`Calendar`).

`Results`, `Ordering` and `Text` hold shared helpers.

## Where the code falls short of its promise

Each of these is proved, with the exact condition under which the promise holds and, where it takes a run
to get there, with that run.

- The retire branch of `adopt_capture_commit` is reachable when the file system may reorder directory
  operations (`StaleManifest` is the run; `RestartAdopts` shows it is unreachable otherwise).
- Adopting a capture that an earlier run renamed but did not sync reports it without syncing, so a power
  failure can still lose it (`LostCommit` is the run). A committed capture survives every crash if and only
  if manifest and destination already agree on disk (`CommitLastsExactlyWhenDurable`).
- The inventory lookup takes a tab or session name that is empty, validation on restart does not: such a
  capture is committed and reported, and every later run fails (`NamelessCapture`, `History`;
  `RestartAdopts` has the if and only if).
- Instance ids are read from inventories in lower case but compared with the captured id as written
  (`RebindReturnsTheCapturedTab`, an if and only if; `UpperCaseInventoryHidesTheTab`).
- Between `pass_fds` and `F_SETFD` a child spawned by the receiver keeps the transfer lock after every guard
  is gone (`UndisciplinedForkLeavesAStray` is the run, `StrayDescriptorKeepsTheLock` its aftermath). A run
  that forks only without unmarked descriptors has no such child (`OnlyGuardsKeepTheLock`, with an if and
  only if). A lock file replaced while in use gives a second guard (`ReplacingTheFileSplitsTheLock`).
- The signature of a bind leaves out actions that have no KDL rendering, so the comment that two actions
  printing alike are never merged fails for those (`UnrenderableActionsAreMerged`, `RebuildsExactlyWhen`).
- Noise is judged per bind: where a block overrides a key and later restores it, the repair drops the
  restoring bind (`DroppedNoiseRevivesAnOverride`, `MeaningKeptExactlyWhen`).
- `lost` is meant to list every bind of a retired piece that the contract does not have. `NoOp`, `Confirm` and
  `Deny` parse but have no KDL rendering, and a bind to one can go unlisted when the contract binds its key alike
  in an earlier mode that the piece leaves alone (`UnrenderableBindIsLostSilently`). A slot is listed if and only
  if the first mode that differs alike has a bind to show (`ListedExactlyWhen`, `PlanListsExactlyWhen`), so a bind
  with a rendering always is (`RenderableBindsAreListed`). A retired piece the parser rejects declares nothing,
  and nothing of it is listed (`RejectedPiecesListNothing`).
- A plan's text is documented to equal the input when there is nothing to do, but the final retain drops blocks
  without lines, a plain global `unbind` among them, without a planned step (`ChangesWithoutAStepExactlyWhen`,
  and per slot `PlanWithoutStepsKeepsMeaningExactlyWhen`). The only caller writes no plan without steps; what
  does reach the file is a global `unbind` dropped by a plan that also has a step, and `MeaningKeptExactlyWhen`
  says at which slots that changes what the config means.
- RFC 3339 timestamps sort as their seconds while years have equally many digits (`TimestampsSort`), but not
  always across lengths, first at the year 10000 (`TimestampsSortAcrossLengths`, an if and only if).

## Conventions

Safety results hold whatever everybody else does; beside them stands what an operation achieves when nobody
interferes. A machine that is `calm` only delivers the signals it was sent;
a session counts its `troubles`, a volume whether it was `touched` by a hook, was `faulty` (a system call failed
of its own accord; `faults` counts such failures where retries are at stake) or had a hook that `refused`; and
the capture directory has a `weather`: under `Anything` every operation may fail, be cut short or lose power,
under `Calm(n)` the process is killed after `n` more operations and nothing else happens. Deadlines and polling
are step budgets (`patience`), sleeps are interference. Modes and keys are represented by their rank in
the source's derived orders, paths and names by strings. SHA-256 and the JSON codec of the capture are
parameters: "matches the evidence" means equal size and equal digest, and equality of contents is claimed only
for the bytes a run staged itself.

## Model

| member | source | states |
|---|---|---|
| ProcessTable.StepRelies | scripts/triage-runtime-e2e.py:1893-1980 | every fork, exit, reap, reparent, reused pid and delivered signal keeps what the harness relies on: a process whose stopped parent pins it keeps its identity, and a held stop lasts |
| ProcessTable.ShelterLasts | scripts/triage-runtime-e2e.py:2299-2447 | once every live member hangs from a held parent, that stays so through any steps of the machine, and no live member is an orphan |
| ProcessTable.FrozenGroupStandsStill | scripts/triage-runtime-e2e.py:2299-2447 | in such a group with no KILL pending no member step is enabled, and no step of anybody else changes a live member |
| Ancestry.Climb | scripts/triage-runtime-e2e.py:1933-1978 | the visited-set climb over PPID edges returns the one depth at which the leader is reached, and none exactly on a cycle or a dead end |
| Ancestry.AnnotateDepths | scripts/triage-runtime-e2e.py:1893-1980 | every inventory entry gets its exact depth or a topology error, and `invalid` holds exactly the entries that forbid a signal |
| Ancestry.DepthFallsByOne | scripts/triage-runtime-e2e.py:1933-1978 | depths fall by exactly one along each PPID edge |
| Ancestry.DepthIsUnique | scripts/triage-runtime-e2e.py:1933-1978 | a pid has at most one depth, so the climb does not depend on where it started |
| Ancestry.CycleIsDisconnected | scripts/triage-runtime-e2e.py:1933-1978 | a climb that returns to a pid already seen never reaches the leader, at any length |
| OwnedGroup.ValidatedMembers | scripts/triage-runtime-e2e.py:1983-2101 | an accepted inventory is settled: it is the group of that moment, every live non-leader has a live parent in it one level up; nothing was signalled; where nobody interferes it is accepted if and only if the live members form a tree under the live leader |
| OwnedGroup.RootedIsUnambiguous | scripts/triage-runtime-e2e.py:1983-2101 | the inventory of a group that is such a tree passes every check |
| OwnedGroup.NothingAmbiguousIsSettled | scripts/triage-runtime-e2e.py:1983-2101 | an annotated inventory without invalid entries and zombie parents is settled |
| OwnedGroup.JudgeTarget | scripts/triage-runtime-e2e.py:2120-2182 | the checks before a signal let it through only for a live member whose parent is a stopped member of the group |
| OwnedGroup.SignalExact | scripts/triage-runtime-e2e.py:2104-2214 | a signal to a non-leader reaches the very process the last inventory showed, never a reused pid, because its parent is held from the look to the signal; a refusal sends nothing; a signal spared means the member is dead, or no longer running where that was asked for; undisturbed, the verdict on the state decides |
| OwnedGroup.SignalLeader | scripts/triage-runtime-e2e.py:2308-2331 | a signal to the leader reaches the leader itself, or a zombie that is not changed |
| OwnedGroup.WaitQuiescence | scripts/triage-runtime-e2e.py:2217-2296 | success means the member is in the group and no longer running, and a zombie where a terminal state was asked for; nothing was signalled |
| OwnedGroup.StopOne | scripts/triage-runtime-e2e.py:2387-2442 | one STOP of the main loop sends nothing but STOPs, and without a refusal its target no longer runs; undisturbed there is no refusal, the tree stands, and one member fewer runs |
| OwnedGroup.SomeoneCanBeStopped | scripts/triage-runtime-e2e.py:2362-2380 | if any member runs, some running member no deeper has a stopped parent: the top-down loop always has a candidate |
| OwnedGroup.NobodyRunningIsSheltered | scripts/triage-runtime-e2e.py:2299-2447 | a settled inventory with nobody running means the group is frozen |
| OwnedGroup.StopGroup | scripts/triage-runtime-e2e.py:2299-2447 | everything sent is a STOP; when stopping returns, the inventory is settled and the group is sheltered: no member can act any more; a refusal is never for want of a member to stop next; where nobody interferes, every group that is a tree is frozen if the patience exceeds the number of running members by two |
| GroupTree.StopTakesEffect | scripts/triage-runtime-e2e.py:2387-2442 | a STOP that arrives stops exactly its target and leaves the tree and everybody else as they were |
| OwnedGroup.TargetsPutChildrenFirst | scripts/triage-runtime-e2e.py:2533-2545 | sorting a settled inventory deepest first puts every child before its parent and leaves out no live member |
| OwnedGroup.LeaderIsLast | scripts/triage-runtime-e2e.py:2533-2545 | the leader is the last of those targets |
| OwnedGroup.ContinueGroup | scripts/triage-runtime-e2e.py:2450-2520 | on success every live member of the inventory got one CONT, deepest first, each at the process of that inventory; on failure a prefix of them did; where nobody interferes it succeeds for every group that is a tree with nobody running |
| OwnedGroup.DoomKeepsShelter | scripts/triage-runtime-e2e.py:2548-2621 | killing the next target takes the shelter from no live member |
| OwnedGroup.DeathLeavesTheRest | scripts/triage-runtime-e2e.py:2601-2621 | once a target is seen dead, the remaining group is as before, one target shorter |
| OwnedGroup.KillOne | scripts/triage-runtime-e2e.py:2555-2621 | one round kills exactly target `i` of the frozen inventory and sees it dead before going on; nobody is orphaned; undisturbed it succeeds |
| GroupTree.KillTakesEffect | scripts/triage-runtime-e2e.py:2590-2621 | a KILL that arrives at a member without live children leaves a zombie and the rest of the tree |
| OwnedGroup.KillAll | scripts/triage-runtime-e2e.py:2546-2624 | the KILLs sent are a prefix of the targets, in order, each at its own process; success means all of them and nobody left alive but the leader under KILL |
| OwnedGroup.KillGroup | scripts/triage-runtime-e2e.py:2523-2624 | on success the group was frozen first, every process alive then got exactly one KILL, deepest first, no live member was ever an orphan from then on, and none is left but the leader, whose KILL is pending or done; an error after the freeze leaves an exact prefix of those KILLs and no orphan either; where nobody interferes it succeeds for every group that is a tree, given the patience to stop it |
| OwnedGroup.FinishedLasts | scripts/triage-runtime-e2e.py:2523-2624 | after that no live member of the group appears again, whatever the machine does |
| CaptureDisk.OrderedSurvivorsArePrefixes | src/run_triage_cli.rs:771-778 | on an ordered file system what a crash can leave is exactly a replay of a prefix of the unsynced directory operations |
| CaptureProtocol.InvInstall | src/run_triage_cli.rs:1326-1349 | installing a manifest whose staging file is synced and in place keeps the protocol invariant in every crash-reachable view |
| CaptureProtocol.InvCommit | src/run_triage_cli.rs:1078-1097 | renaming the promised staging file onto the destination keeps the invariant in every crash-reachable view |
| CaptureProtocol.InvCrash | src/run_triage_cli.rs:1040-1098 | a crash at any moment, losing unsynced contents and directory operations, keeps the invariant |
| CaptureProtocol.PromotionCommits | src/run_triage_cli.rs:1078-1097 | after that rename the destination matches the promised evidence, which every restart finds committed if it may adopt it |
| CaptureProtocol.RestartAdopts | src/run_triage_cli.rs:956-1038 | in every reachable state a manifest on disk is adopted if and only if its evidence carries no identity or the request names a session and a tab; corrupt, foreign and mismatching manifests are unreachable, and a stale one is reachable only where directory operations may be reordered |
| CaptureProtocol.DecidesExactlyBy | src/run_triage_cli.rs:845-888 | of a manifest of the request, on any disk: it is refused if and only if it is incomplete, else committed if and only if the destination has its size and digest, else staged if the staging file has them, and stale if that is gone |
| CaptureCommit.StaleManifest | src/run_triage_cli.rs:910-954 | on an unordered file system the retire branch is reachable: a run of `CaptureScrollback` dies between the manifest's rename and its sync, and a crash keeps the manifest and loses its staging file |
| CaptureProtocol.DestinationIsGood | src/run_triage_cli.rs:890-908 | across any crash the destination holds what it held at first or a complete, non-empty capture |
| CaptureProtocol.AdoptingTwiceIsAdoptingOnce | src/run_triage_cli.rs:995-1037 | after an adoption a second one returns the same evidence |
| CaptureProtocol.CommitLastsExactlyWhenDurable | src/run_triage_cli.rs:995-1010 | a committed capture survives every crash if and only if the durable manifest has the same evidence and the durable destination already matches it, whatever else is pending |
| CaptureCommit.LostCommit | src/run_triage_cli.rs:995-1037 | three runs reach a reported capture that a power failure takes away, manifest and all: one dies after renaming the manifest, one after promoting the capture, and the third adopts without syncing |
| CaptureCommit.NamelessCapture | src/run_triage_cli.rs:603-667 | for every request without a session or tab name: an undisturbed run reports the capture, durably, and the next run refuses its manifest |
| CaptureCommit.AdoptCaptureCommit | src/run_triage_cli.rs:956-1038 | evidence returned is committed and matches the destination, durable or found unchanged; the retire branch is taken only on an unordered file system; the only other refusal than an I/O error is of a nameless tab's manifest; committed, refused and absent manifests leave the disk alone; undisturbed, staged captures are promoted and stale manifests retired, in two operations |
| CaptureCommit.InstallManifest | src/run_triage_cli.rs:1326-1349 | on success the manifest is durable and promises exactly this synced staging file |
| CaptureCommit.CommitScrollbackCapture | src/run_triage_cli.rs:1040-1098 | success means the destination holds exactly the staged bytes, durably, with their size and digest as evidence, whatever the tab is called; an empty dump is refused; undisturbed, the eight remaining operations happen in their order |
| CaptureCommit.CaptureScrollback | src/run_triage_cli.rs:1491-1594 | adopt, else capture the terminal, else copy the transcript: evidence returned is in place, a restart fails for what it finds on disk only for a nameless tab, only non-empty captures become good content; a new capture durably holds the terminal's bytes or the transcript's, with their evidence, and `NoSource` means that no transcript verifies; in calm weather one of the two is captured exactly if the process lives for its operations, the terminal if it can be, and the disk is that of those operations |
| CaptureCommit.CopyTranscript | src/run_triage_cli.rs:1255-1324 | a reported copy is durable, with the transcript's path, size, digest and the tab's identity as evidence; a verified transcript in calm weather is copied exactly if the process lives for ten operations |
| CaptureCommit.History | src/run_triage_cli.rs:1491-1594 | over any number of runs cut short anywhere the invariant holds, no run of a named request fails on a leftover, the destination's possible contents are those complete captures only, and once a capture is durable every later run reports it, or refuses it if its tab has no name; an undisturbed first run captures what there is |
| StagedInstall.Reservation.Drop | xtask/src/pipelines.rs:527-558 | dropping the reservation removes the stage only if the entry still names the recorded inode |
| StagedInstall.Installer.AdoptPayload | xtask/src/pipelines.rs:718-736 | adoption holds on to the inode the preparation left, if it passes every identity check, and records it with the file system of that moment |
| StagedInstall.Installer.RevalidatePreparedPayloadPath | xtask/src/pipelines.rs:781-813 | the path is accepted only if public and private lookups name one regular file of the user with the expected mode and one link |
| StagedInstall.Installer.RevalidatePayload | xtask/src/pipelines.rs:756-779 | success means the public path, the stage entry and the open descriptor name one inode with the expected mode and one link |
| StagedInstall.Installer.Publish | xtask/src/pipelines.rs:911-977 | success means the destination entry names the checked payload under a directory the install path still names; an error means nothing was renamed |
| StagedInstall.Installer.Cleanup | xtask/src/pipelines.rs:979-1039 | removes only entries that name the inodes held open, does nothing once it has succeeded, and without interference or faults leaves the parent exactly as it began |
| StagedInstall.Reserve | xtask/src/pipelines.rs:578-660 | success gives a private directory with an empty payload of the installer's own; failure without interference leaves the directories as they were; an undisturbed reservation fails only if the directory is missing, holds something else than a file at the destination, or has stages left over |
| StagedInstall.PrepareAndAdopt | xtask/src/pipelines.rs:1052-1063 | the trace grows by exactly the preparation hook, which finds the source's bytes and mode under the public path, and the adoption of what it left; that payload has the source's mode and, if no hook touched the disk, the source's bytes |
| StagedInstall.VerifyAndPublish | xtask/src/pipelines.rs:1064-1073 | the run's trace grows by exactly the verification hook, the last hook and the rename, with no change in between; what is renamed is the inode the public path named after each hook |
| StagedInstall.Install | xtask/src/pipelines.rs:1042-1088 | for every behaviour of the hooks: success means that no hook reported a failure and the trace is exactly the first hook, the opening of the stage, the preparation hook, the adoption of one inode, the verification hook, the last hook and the rename, each of the last five seeing what the one before it left; the preparation hook found the source's bytes and mode under the public path; that path named the adopted inode, with the source's mode and one link, at adoption, after verification and right before the rename, and the install path's destination names it now, with the source's bytes if no hook touched the disk; an error means no rename ever happened, only own entries were removed, and untouched directories end as they began; undisturbed it succeeds in every directory that is ready, and changes the destination entry alone |
| TabIdentity.LowerFixesExactlyLowerCase | src/run_triage_cli.rs:660-668 | reading an instance id in lower case changes it exactly when it has an upper-case letter |
| TabInventory.AbsentExactlyWhenNotListed | src/run_triage_cli.rs:682-769 | the captured tab counts as gone exactly when a readable inventory lists no tab with its instance id |
| TabInventory.PresentExactlyWhenListed | src/run_triage_cli.rs:682-769 | an id to close is returned if and only if one tab has the captured instance, is complete and is the only one of the name, and it is the id that tab has now |
| TabInventory.CloseIsConfirmedExactlyByAbsence | src/run_triage_cli.rs:1377-1488 | a close is confirmed exactly by an inventory without the instance or by the session being gone, whatever the command answered |
| TabInventory.OneIdIsOneIdentity | src/run_triage_cli.rs:620-670 | when a name resolves to one id, all complete tabs of the name are one identity |
| TabInventory.RebindReturnsTheCapturedTab | src/run_triage_cli.rs:1926-1960 | a rebound identity is the captured durable tab if and only if the captured instance id has no upper-case digit |
| TabInventory.RebindsExactlyWhen | src/run_triage_cli.rs:1926-1960 | a rebind returns an identity if and only if the one tab with the captured instance is the only one of its name, and then its current id and incarnation |
| TabInventory.UpperCaseInventoryHidesTheTab | src/run_triage_cli.rs:682-769 | an inventory that spells a lower-case captured id in upper case makes the tab count as gone while its name lookup shows the same tab |
| OriginClose.CloseOriginTab | src/run_triage_cli.rs:1962-2028 | in any interleaving success is equivalent to the instance being absent from the last inventory read or the session being gone; exactly one close command, with the tab's current id and the captured name, incarnation and instance, is sent if the first inventory has one complete tab with the instance that is alone under its name, and none otherwise; nothing but the captured instance is closed; undisturbed it succeeds if and only if that tab can be closed or is gone, and then no other tab is missing |
| OriginClose.RebindOriginTabIdentity | src/run_triage_cli.rs:1926-1960 | closes nothing; an identity is returned exactly when the look shows the captured tab alone under its name, and it is what that tab is now, the same durable instance exactly when the captured id is lower case; none is returned exactly when the instance is proved gone |
| OriginClose.RetryClose | src/run_triage_cli.rs:1962-2028 | over any number of attempts and interleavings only the captured instance is ever closed; an undisturbed first attempt at a tab that can be closed ends it |
| ViewerReconcile.IdentitiesAreReadBack | src/run_triage_cli.rs:620-670 | complete lower-case entries are read back as exactly the identities they are, in order |
| ViewerReconcile.ChoiceIsTheKeeper | src/run_triage_cli.rs:1858-1877 | whatever the inventory's order, the choice is the reserved instance, or else the lowest id of the set |
| ViewerReconcile.KeeperIsUnique | src/run_triage_cli.rs:1858-1877 | there is only one such tab |
| ViewerReconcile.KeeperStays | src/run_triage_cli.rs:1858-1877 | it stays the choice when others are closed and newer tabs arrive |
| ViewerReconcile.CloseDuplicates | src/run_triage_cli.rs:1878-1896 | the keeper is never closed, no tab of another name is, and success without arrivals leaves the keeper alone |
| ViewerReconcile.BucketTabIdentity | src/run_triage_cli.rs:1841-1915 | success leaves exactly the tab returned and it is the keeper; any failure keeps the keeper; under a name that is not an owned viewer's nothing is closed; an attempt during which no command fails and no tab of the name arrives succeeds, whatever happened before: with nothing if there is no tab, with the only one, and on an owned name with the keeper |
| ViewerReconcile.OwnedNameIs | src/run_triage_cli.rs:672-680 | a name is an owned viewer's exactly when it ends in ` [vc:`, 32 hex digits and `]` |
| ViewerReconcile.RetryReconcile | src/run_triage_cli.rs:1841-1915 | partly failed retries converge: on an owned name, one attempt more than there were failed commands and arrivals ends with exactly the keeper |
| LockKernel.StepKeeps | src/run_triage_cli.rs:31-138 | every open, lock, close, fork, exec, exit and hand-over keeps: one lock holder per inode, held only while a descriptor refers to it, and guards that hold it under close-on-exec |
| LockKernel.LiveGuardsShareOneDescription | src/run_triage_cli.rs:31-138 | in every reachable state two live guards of one file share one description, and all guards do if nobody replaces the lock file |
| LockKernel.GuardLasts | src/run_triage_cli.rs:27-29 | nothing but its own close or its process's exit ends a guard: closing one holder does not release the lock while another lives |
| LockKernel.LockEndsWithTheLastDescriptor | src/run_triage_cli.rs:27-29 | a step takes the lock from a description exactly when it takes its last descriptor |
| LockKernel.FreeExactlyWhenUnheld | src/run_triage_cli.rs:50-63 | an attempt is refused exactly when some descriptor refers to another locked description of the file |
| LockKernel.OnlyGuardsKeepTheLock | src/run_triage_cli.rs:44-138 | in every run, hand-overs included, that forks only without unmarked descriptors and hands on only locked ones: the lock is kept only by live guards, by received descriptors still open and by a child between fork and exec; with no guard and no such child it is free if and only if no received descriptor refers to a locked description |
| LockKernel.PrivateRunsAreDisciplined | src/run_triage_cli.rs:44-49 | a run that hands nothing on, and without strangers, keeps that discipline by itself whatever children it spawns, so that only guards and children before exec keep its lock |
| LockKernel.QuietSystemHasAFreeLock | src/run_triage_cli.rs:66-138 | in any run at all: with no guard, no call in progress and no child before its exec, the lock is free if and only if no descriptor that came through exec refers to a locked description, and from there any process that opens the path and asks for the lock becomes a guard if and only if none refers to a locked description of the file at the path |
| LockKernel.AcquiresExactlyWhen | src/run_triage_cli.rs:31-63 | in every reachable state, opening the path and asking for the lock makes a guard if and only if no locked description is open on that file |
| LockKernel.NextAcquireSucceeds | src/run_triage_cli.rs:44-49 | in a disciplined run, whatever children it spawned, once all guards are dropped, all children run their programs and what was received is closed, the next acquire makes a guard |
| LockKernel.ChildKeepsExactlyUnmarkedDescriptors | src/run_triage_cli.rs:44-49 | a spawned program keeps exactly the descriptors not marked close-on-exec |
| LockKernel.StrayDescriptorKeepsTheLock | src/run_triage_cli.rs:84-92 | whoever holds a descriptor of a locked description keeps the lock until it closes it or exits, whoever drops a guard |
| LockKernel.UndisciplinedForkLeavesAStray | src/run_triage_cli.rs:84-97 | the discipline is needed: from the initial kernel, a receiver that spawns a child before making its descriptor private leaves it the lock, with no guard, no call in progress and nothing received left open |
| LockKernel.ReplacingTheFileSplitsTheLock | src/run_triage_cli.rs:31-63 | if another file takes the lock path, the next acquire makes a second guard beside the first |
| TransferLock.Acquire | src/run_triage_cli.rs:31-63 | success is a guard that holds the lock of the file at the path; a refusal leaves no descriptor and, without a fault, means another description held the lock at that moment |
| TransferLock.AcquireInherited | src/run_triage_cli.rs:66-138 | success is the received description itself, private, locked and at the lock path, which is canonical and a plain file; a description already holding the lock is never refused for want of it; low and empty numbers are refused without closing anything |
| TransferLock.DropGuard | src/run_triage_cli.rs:27-29 | dropping a guard releases the lock if and only if no other descriptor refers to its description |
| KeybindDiff.DiffKeybinds | src/clinic.rs:320-391 | the report is the classified list of exactly the groups of all disagreements |
| KeybindDiff.RecordKeepsOrder | src/clinic.rs:332-356 | recording keeps the groups strictly ordered by key and signatures |
| KeybindDiff.RecordGroups | src/clinic.rs:332-380 | recording one disagreement adds it to the one group of its tag and changes no other |
| KeybindDiff.EachDisagreementIsReportedOnce | src/clinic.rs:320-391 | each (mode, key) where the maps disagree is in exactly one group, no other is in any, and each group's modes are strictly ascending and disagree alike |
| KeybindDiff.ClassIsThatOfTheFirstMode | src/clinic.rs:377-387 | a group is missing, extra or divergent exactly as its first mode is unbound now, unknown to the contract, or bound on both sides |
| KeybindDiff.CleanExactlyWhenEqual | src/clinic.rs:297-300 | the diff is clean if and only if the maps agree at every slot |
| KeybindDiff.RebuildsExactlyWhen | src/clinic.rs:320-391 | contract plus diff rebuild the effective map if and only if slots reported together are bound alike and no disagreement is an empty action list |
| KeybindDiff.InjectiveSignaturesRebuild | src/clinic.rs:320-391 | in particular for injective signatures and non-empty action lists |
| KeybindDiff.RebuiltFromTheFirstMode | src/clinic.rs:332-356 | in general a group speaks for the lowest mode that disagrees alike |
| KeybindDiff.UnrenderableActionsAreMerged | src/clinic.rs:484-491 | actions without a rendering leave no trace in the signature, so two different ones are reported as one |
| KeybindDiff.DifferentTextsStayApart | src/clinic.rs:325-351 | two actions that print differently are never reported as one |
| KeybindDiff.SignatureOfTwo | src/clinic.rs:484-491 | actions with a rendering stand in the signature with it, separated by semicolons |
| KeybindDiff.DestructiveLead | src/clinic.rs:377-390 | the divergences that quit where the contract does not come first and every class keeps the order of its signatures: the sort is stable |
| KeybindDiff.QuitLeadsTheReport | src/clinic.rs:247-249 | where a bound key that does not quit by contract quits now, and all slots reported alike with it have its two actions, the divergent list opens with a group that quits and whose contract does not |
| KeybindDiff.ReportIsUnique | src/clinic.rs:316-319 | two runs on the same maps give the same report, to the last entry |
| KeybindConfig.DeclaredIsTheValue | src/clinic.rs:1927-1966 | the declared map holds at each slot what the parser would bind there over nothing |
| KeybindConfig.LastBindWins | zellij-utils/src/kdl/mod.rs:4586-4611 | of the lines of a block that bind a key the last one decides; without one the value stays |
| KeybindConfig.ParsesExactlyWhen | zellij-utils/src/kdl/mod.rs:4586-4684 | a piece is taken if and only if every line of every block that concerns a mode is readable, no block is unknown, and the first global unbind is readable |
| KeybindRepair.AloneBinds | src/clinic.rs:1967-1988 | one bind wrapped in its block declares its actions at exactly the block's modes and its keys |
| KeybindRepair.FindNoise | src/clinic.rs:1990-2015 | the indices are exactly those of the noise binds, ascending |
| RepairMeaning.NoiseExactly | src/clinic.rs:1985-2015 | a bind is noise if and only if it binds something and the contract has that very bind at every slot |
| KeybindRepair.RemoveIndices | src/clinic.rs:1852-1862 | removing by index from the last to the first deletes exactly the chosen nodes and keeps the rest in order |
| KeybindRepair.RetainIsKept | src/clinic.rs:1856-1870 | index removal and the final retain leave exactly the blocks that are not frozen and still say something |
| KeybindRepair.PlanRepair | src/clinic.rs:1770-1880 | the planned tree, steps and lost groups are those of the repair function, for any config |
| RepairReport.RepairTouchesOneNode | src/clinic.rs:1770-1911 | nothing but the first `keybinds` node is touched; where it went the guard comment stands, before the text that leads the next node or after the document's trailing text |
| RepairReport.StepsAccountForEverything | src/clinic.rs:1824-1870 | the steps name every frozen block and every block that loses noise, in order, and the binds they count are exactly those missing afterwards from the blocks that were not frozen |
| RepairReport.NodeStepsExactlyWhen | src/clinic.rs:1796-1878 | a step says that the whole node went if and only if it did |
| RepairMeaning.ChangesExactlyTheUnsettled | src/clinic.rs:1770-1880 | the tree changes if and only if the first keybinds node is frozen, empty, or has a block that is frozen, empty or noisy |
| RepairMeaning.RepairTwiceExactlyWhen | src/clinic.rs:1770-1880 | a second run changes nothing if and only if the first did not retire a node in front of another one that needs repair |
| RepairMeaning.OneNodeIsRepairedInOneRun | src/clinic.rs:1770-1880 | with at most one keybinds node the plan for the repaired config has no steps and the same tree |
| RepairMeaning.MeaningKeptExactlyWhen | src/clinic.rs:1818-1870 | without frozen blocks a slot keeps its bind if and only if no dropped noise hides a kept override, or, under a global unbind, the rest leaves it unbound |
| RepairMeaning.RepairKeepsMeaning | src/clinic.rs:1770-1880 | with one keybinds node, nothing frozen, no global unbind and no slot bound twice, the repaired config means what the original meant |
| RepairMeaning.PassIsEffects | zellij-utils/src/kdl/mod.rs:4612-4673 | the parser's value of a slot is that of its last instruction, and dropping noise drops just those instructions |
| RepairMeaning.KeptStillParses | zellij-utils/src/kdl/mod.rs:4586-4611 | blocks that parse still parse after the repair |
| RepairMeaning.DroppedNoiseRevivesAnOverride | src/clinic.rs:1990-2015 | a block that overrides a key and later restores it loses the restoring bind, and the override comes into force |
| RepairMeaning.ChangesWithoutAStepExactlyWhen | src/clinic.rs:1795-1870 | the tree changes without a planned step if and only if the first `keybinds` node is not frozen, has no frozen block and no noise, and has a block without lines beside one with lines |
| RepairMeaning.PlanWithoutStepsKeepsMeaningExactlyWhen | src/clinic.rs:1864-1870 | such a plan keeps the meaning of a slot if and only if its key is not in the global unbind that goes or nothing else binds it |
| RepairMeaning.ListedExactlyWhen | src/clinic.rs:309-313 | a retired bind that differs from the contract is listed as lost if and only if the first mode that differs alike has actions |
| RepairMeaning.PlanListsExactlyWhen | src/clinic.rs:1796-1838 | over a whole plan, a slot is listed if and only if some retired piece disagrees with the contract about it and, in the first mode that disagrees alike, binds the key |
| RepairMeaning.NothingIsLostSilently | src/clinic.rs:1796-1838 | over a whole plan, a bind of a retired piece equals the contract's or is listed, unless the piece leaves unbound some slot that differs from the contract alike |
| RepairMeaning.RenderableBindsAreListed | src/clinic.rs:1796-1838 | so a bind whose actions have a rendering is never lost silently |
| RepairMeaning.UnrenderableBindIsLostSilently | src/clinic.rs:1796-1838 | where the contract binds a key alike in two modes and a frozen block binds it in the later one to an action without a rendering, the repair puts the contract's bind in force and lists nothing |
| RepairMeaning.RejectedPiecesListNothing | src/clinic.rs:1920-1950 | when the parser rejects every retired piece, nothing of them is listed |
| WrapLines.WrapJoined | src/clinic.rs:520-536 | the loop computes the wrapped lines for every input |
| WrapLines.WrappingIsOptimal | src/clinic.rs:520-536 | when no empty item comes first on its line, the lines join to the joined items, only a single item can exceed the width, and no in-order split that fits has fewer lines |
| WrapLines.GreedyIsOptimal | src/clinic.rs:520-536 | any greedy split needs no more lines than any split that fits |
| WrapLines.LinesFit | src/clinic.rs:520-536 | when every item fits the width, so does every line |
| WrapLines.TextIsKeptExactlyWhen | src/clinic.rs:520-536 | the lines join to the joined items if and only if no empty item comes first on its line or there is at most one item |
| WrapLines.ShownItemsAreNeverBlank | src/clinic.rs:2206-2219 | the caller's items, rendered binds, are not empty and never come to that |
| KdlLayout.TwoPassesEscapeEachCharacter | src/run_triage_cli.rs:524-526 | the two replace passes are one per-character escape |
| KdlLayout.EscapedStringIsReadBack | src/run_triage_cli.rs:524-526 | a KDL 1.0 string scanner recovers every escaped value and stops exactly at its closing quote |
| KdlLayout.RenderedTextIsReadBack | src/run_triage_cli.rs:465-522 | text with any escaped strings in it is split back into exactly its stretches and values |
| KdlLayout.LayoutIsReadBack | src/run_triage_cli.rs:465-522 | for all inputs the layout scans, and the instance id, exit code with its sign, scrollback path, program, arguments and directory are read back from it |
| KdlLayout.PanesAreNamed | src/run_triage_cli.rs:465-522 | read by the names of their properties, the viewer is `less -R` on the scrollback, and the rerun pane waits to be started |
| Calendar.DayNumberCountsDays | zellij-utils/build.rs:274-275 | the reference day number is 0 on 1970-01-01 and grows by one from each date to the next |
| Calendar.CivilIsTheInverse | zellij-utils/build.rs:275-286 | for every integer day number the conversion yields a valid proleptic Gregorian date with that day number |
| Calendar.DateIsRecovered | zellij-utils/build.rs:275-286 | converting a date's day number gives the date back |
| Calendar.DaysFollowDays | zellij-utils/build.rs:275-286 | consecutive days map to consecutive dates, and later days to later dates, both ways |
| Calendar.TimestampsSort | zellij-utils/build.rs:259-272 | while years have as many digits, timestamps sort exactly as their seconds |
| Calendar.TimestampIsReadBack | zellij-utils/build.rs:258-272 | every timestamp, read by its punctuation and its fields, gives a valid date and time of day that stand for the seconds it was made of |
| Calendar.TimestampsSortUntil9999 | zellij-utils/build.rs:259-272 | timestamps up to the year 9999 sort exactly as their seconds |
| Calendar.TimestampsSortAcrossLengths | zellij-utils/build.rs:259-272 | between years of different lengths the one with fewer digits is earlier, and its timestamp sorts first if and only if its year is at most the number made of as many first digits of the other year |
| ModuleRename.RenameModuleForClippy | xtask/src/build.rs:209-238 | the loop terminates and its output is that of the stretches of the input |
| ModuleRename.SegmentsCoverTheInput | xtask/src/build.rs:209-238 | those stretches make up the whole input: what is not a rewritten block is copied unchanged |
| ModuleRename.RenamesExactlyFullBlocks | xtask/src/build.rs:209-238 | with quiet text (no brace, no `b` before a space; blanks, for one) before each opening on its line, a place is rewritten if and only if the full wrapper stands there at its line's own indentation, and it becomes the module `_api` at that indentation, followed by its alias; both texts are written out |
| ModuleRename.RewritesFromLastStop | xtask/src/build.rs:209-238 | in any text at all, a place is rewritten if and only if it is the next opening after one of the loop's stops and the full block stands there with the indentation since that stop, and it becomes the replacement of that indentation |
| ModuleRename.RenameTwiceIsRenameOnce | xtask/src/build.rs:209-238 | in such a text a second run changes nothing |
| ModuleTable.RenameTable | xtask/src/build.rs:240-249 | the loop over the table runs the renames one after the other |
| ModuleTable.RenameKeeps | xtask/src/build.rs:209-249 | renaming one module, in any context, keeps the text clean for another and completes no block of it |
| ModuleTable.TableTwiceIsTableOnce | xtask/src/build.rs:240-249 | for every table that keeps its modules apart and every text clean for it, the table leaves no block of any of its modules, and running it again changes nothing |
| ModuleTable.ModulesKeepApart | xtask/src/build.rs:189-199 | the program's own table is such a table |
| ModuleRename.NoBlockArises | xtask/src/build.rs:209-238 | rewriting cannot complete a block that did not match before |

## Left out

- Detached foreground servers, foreign-uid members, `ps` parsing and the session-id checks of the process-group code; inventories are atomic looks at the group.
- ProcessTable.StepRelies: only a running parent reaps, so a stopped parent that ignores SIGCHLD, whose zombies the kernel reaps by itself, is not modelled, nor is `setpgid`, by which a member could leave or join the group.
- Members signalled by somebody other than the harness; the theorems need that nobody else sends CONT to a frozen member.
- OwnedGroup.KillGroup: success leaves the leader's own KILL pending; `wait_for_process_group_gone` and the reaping of the leader after it are not modelled.
- OwnedGroup.StopGroup: a refusal may leave members stopped; nothing is claimed about a failed stop beyond that it sent only STOPs.
- OwnedGroup.KillOne: before the leader's own KILL the model looks at the group once more, where the code uses the inventory the round began with.
- Wall-clock deadlines, sleeps and polling intervals: replaced by nondeterministic failure or a step budget.
- The validation of the runtime transcript's own manifest, file-type checks and pane selection in the capture: the surroundings of a run say what the terminal and the transcript gave.
- CaptureCommit.CopyTranscript: the copy is synced once more before its size and digest are compared; the model has the one sync of the commit.
- CaptureCommit.AdoptCaptureCommit: the collision check on the name a stale manifest is retired to is a fresh name here.
- Whether an inventory or a captured id can carry upper case at all: the server lower-cases the tokens it takes (`zellij-server/src/screen.rs`), and the client's comparison is modelled on its own.
- Whether the command line or the server can produce an empty tab or session name: the capture functions do not exclude it, and the model does not either.
- CaptureCommit.History: outside edits of the capture directory between runs are not modelled.
- The resolution of destination and source paths before an install (`effective_install_destination`, `OpenedInstallSource::open`) and in-place writes by the same user into the staged inode, which the installer trusts.
- StagedInstall.Install: a hook keeps alive and keeps the kind of every inode the installer holds open; everything else it may change.
- Error texts: errors are constructors; two failures with the same consequences may share one.
- The server side of `close-tab`: it removes only tabs that meet all four expectations.
- ViewerReconcile.BucketTabIdentity: assumes complete inventories with lower-case, distinct instance ids and rising tab ids, and that only the reconciler closes or renames the watched tabs.
- TransferLock.AcquireInherited: the descriptor number is not used by another thread of the receiver while it is being adopted, as the source's safety comment demands.
- The Windows lock, `create_dir_all` of the lock's parent, and hard links to the lock file.
- KeybindDiff.DiffKeybinds: modes, keys and actions are abstract; the rendering of actions and groups for people is not modelled.
- The KDL text of a config: the repair works on parsed trees, so that printing and parsing a tree gives it back is assumed, and comments inside blocks are not modelled.
- KeybindRepair.PlanRepair: the wording of the guard comment is a parameter, and the document is a value that is replaced, not a tree edited through mutable references.
- The rest of a config beside its first `keybinds` node; a second one only matters for running the repair twice.
- KdlLayout.LayoutIsReadBack: the scanner knows ordinary strings and refuses comments, line continuations and raw strings, none of which the layout contains, and does not build its node tree; a directory is written, and read back, only together with a command, as the code has it.
- KdlLayout.PanesAreNamed: the fixed bars around the panes are written as the code writes them, but nothing is stated about them beyond that the scanner reads over them.
- Calendar.CivilIsTheInverse: integers are unbounded; `i64` overflow within 719468 of its maximum is not modelled, and the clock read is left out.
- ModuleRename.RenameTwiceIsRenameOnce: holds for names without braces, semicolons and line breaks and files without blanks, as all names of the table are, and for text with only quiet characters (blanks, for one) before each opening; elsewhere the program takes the indentation from its last stop on the line (`RewritesFromLastStop`), and that a second run changes nothing is not claimed.
- ModuleTable.TableTwiceIsTableOnce: the same limits on names and text for every opening of the table, and no module may be called like another one with `_api` added; the rest of the postprocessing (`impl KdlError`) is not modelled.
- Browser assets, modals, command dispatch, console code, driver scripts and report formatting: I/O or easy branches.

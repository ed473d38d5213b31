# UltraV backend: a verified model

UltraV manages KVM virtual machines. This project models the parts of its backend
whose correctness cannot be seen in any single function, and proves what they
promise: backup chains and restores, retention, the publication of backup points,
background tasks, recurring schedules, the detection of bind mounts, address
arithmetic, and the simulated host used by the mock provider.

`dafny verify dfyconfig.toml` checks all of it.

Code that changes objects step by step appears twice: as a class whose methods do
what the Go methods do, and as a function on values that each method's `ensures`
equates its effect with (`View() == Step(old(View()), ...)`). Invariants and
results over whole runs are lemmas about those functions. What each function
answers and leaves is said a second time without naming it, in terms of the
request, the lists and the events of a run, in the files named `...Outcomes` and
`TaskTraces`.

| file | content |
|---|---|
| `ChainModel.dfy`, `ChainInvariant.dfy` | disks, dirty-bitmap checkpoints, library and operations of one VM; the invariant every step keeps |
| `RestoreCorrectness.dfy`, `ChainConsequences.dfy`, `Retention.dfy` | what a restore gives back, what the choice of a parent means, what a prune keeps |
| `Exactness.dfy`, `TornRestores.dfy`, `ChainExamples.dfy`, `TearExamples.dfy` | when a restore is exact although images were unfinished or an earlier restore failed part way; concrete runs on which it is not |
| `ChainOutcomes.dfy` | what backups, deletions, prunes and restores answer, start and take out of the domain |
| `LibvirtProvider.dfy` | the same operations as methods of a provider object |
| `MetadataText.dfy`, `MetadataReading.dfy`, `BackupLibrary.dfy`, `LibraryOutcomes.dfy`, `BackupStore.dfy` | metadata.json as text and why it can be read back, crashes while a point is published, what is shown, the store and point objects |
| `TaskModel.dfy`, `TaskTraces.dfy`, `TaskManager.dfy` | the job manager: interleavings, what a run's events say of each task, and the history trim over an array that is shifted meanwhile |
| `ScheduleModel.dfy`, `ScheduleSafety.dfy`, `ScheduleMarks.dfy`, `ScheduleRepeats.dfy`, `ScheduleActs.dfy`, `ScheduleExamples.dfy`, `ScheduleOutcomes.dfy`, `ScheduleService.dfy` | recurring schedules: the run lock, lastRun, and when an occurrence is run twice |
| `MountTable.dfy`, `MountLookup.dfy`, `MountTranslation.dfy` | mountinfo parsing, the search for a path's mount, and the reported place on the host |
| `IpArithmetic.dfy`, `MockNetworks.dfy`, `MockOutcomes.dfy` | byte-wise address arithmetic, subnets, the simulated networks |
| `PowerModel.dfy`, `PowerOutcomes.dfy`, `PowerProvider.dfy` | the simulated power machine with delayed shutdown timers |
| `GuestDevices.dfy`, `GuestOutcomes.dfy` | target names across provisioning and CD-ROM changes, what is attached and detached, the profile applied and read back |

## What the proofs found

Where a promise does not hold of the code on all inputs, the project keeps the code
as it is and says exactly when the promise holds.

- A restore that fails after replacing a disk leaves the checkpoints in place
  (backend/internal/hypervisor/libvirt/backup.go:323-332), and the next incremental
  is taken against them. `TornRestoreMisleads` is a run, from the first backup on,
  after which a successful restore returns other bytes than were backed up.
  `NextPointAfterTearIff` says when it does not: exactly when the guest has
  rewritten every cell in which the restored point and the next parent differ
  without being dirty, on the disks replaced before the failure. A torn restore of
  the newest point itself does no harm (`TearOfParentIsHarmless`). On the run of
  `TornRestoreMisleads`, one guest write decides (`RewritingDecides`).
- A job that ends counts as complete if every image is non-empty
  (backend/internal/hypervisor/libvirt/backup.go:133-160). `EndedExactIff`: the
  point it publishes, full or incremental, restores what was captured if and only
  if each image holds captured clusters only, and every one in which the captured
  disk differs from the parent's. `UnfinishedImageMisleads` is a run where not.
- An automatic incremental can be built on a chain that is already broken:
  `NewPointRestorable` says which new points can be restored, `BrokenChainGrows`
  is a run with one that cannot.
- A prune in which a deletion fails can leave an incremental without its parent
  (backend/internal/scheduler/scheduler.go:398-401): `PruneKeepsChainsIff`, and
  `RefusedDeletionBreaks` for a run.
- Only the newest 500 tasks are said to be kept (backend/internal/tasks/tasks.go:18);
  the trim loop keeps every unfinished task and skips the element after each one it
  drops. `BoundHoldsIff` says when the cap holds; tasks started while none has
  finished all stay (`UnfinishedOutgrowBound`).
- A tick that listed the schedules before a run was marked, or an update that read
  a schedule before, can make it run twice for one date and time:
  `StaleTickRunsTwice` and `LostMarkRunsTwice` are such runs from the empty service.
  `AtMostOncePerOccurrence` says of every run when a schedule never does.
  `RepeatsIffBehind` and `RepeatsIffStale` say which step of a tick starts a repeat,
  `LostMarkRepeatsIff` which update that overwrites a mark leads to one: a loss is
  harmless once the day is over (`LossRepeatsIffSameDay`). Without such
  interruptions nothing runs twice: `UninterruptedIsSafe`.
- `inspectPathIn` trims the mount point from the raw path but searches with the
  cleaned one (backend/internal/hypervisor/libvirt/storage_visibility.go:147-151,
  163-164). Without ".." a path is reported right exactly when it starts with the
  text of the mount point (`WithoutDotsRightIff`; `UncleanPathMisreported` is a
  family that does not). With ".." a file that the host has elsewhere can even be
  reported as visible under the same path (`DotsHideElsewhere`);
  `ReportedRightIff` covers every absolute spelling.
- `subnetFirstAndLastHost` ors 1 into every byte
  (backend/internal/hypervisor/libvirt/pools_networks.go:594), so the gateway of
  192.168.100.0/24 is 193.169.101.1. `FirstHostIsNextIff` says for which networks
  it is network + 1. The message "at least /30"
  (backend/internal/hypervisor/libvirt/pools_networks.go:555-556) is not enforced;
  `LastHost` covers every prefix.
- A simulated /32 network moves to the next address with every structural update
  that names no subnet: `UpdateKeepsGatewayIff`, and `OneAddressNetworkMoves` for a
  run.
- Creating or changing a simulated network with an IPv6 subnet panics: To4 gives
  nothing, and the last byte of nothing is increased
  (backend/internal/hypervisor/mock/pools_networks.go:205-207, 283-285). The model's
  operations then fail with `Crash`; an update has already set the autostart flag.
- A timer left by an earlier shutdown ends the grace period of a later one early:
  `GraceHonouredIff`, and `LeftoverTimerEndsGrace` for a run.
- The simulated provider derives addresses from the size of the fleet
  (backend/internal/hypervisor/mock/mock.go:229-231): after a deletion two running
  VMs can share one (`AddressesCollide`).
- A task cancelled while queued is shown as running once its worker begins
  (backend/internal/tasks/tasks.go:171-172), and can be cancelled again; it still
  ends cancelled (`AcceptedIff`, `CancelIsHonoured`).
- The library accepts "/" as the name of a VM's directory: `IdSafeIff`.

## Model

| member | source | states |
|---|---|---|
| `ChainInvariant.RecordMarks` | backend/internal/hypervisor/libvirt/backup.go:112-124 | a guest write adds exactly its cell to the dirty set seen from every checkpoint |
| `ChainInvariant.RemovalKeepsOthers` | backend/internal/hypervisor/libvirt/backup.go:244-256 | deleting a checkpoint leaves every other checkpoint and exactly the dirty set seen from it |
| `ChainInvariant.DropUltravKeepsForeign` | backend/internal/hypervisor/libvirt/backup.go:605-619 | dropping checkpoints after a restore removes exactly those named by UltraV |
| `ChainInvariant.AnchorIsTrusted` | backend/internal/hypervisor/libvirt/backup.go:384-414 | the point chosen as parent is the newest and taken after every restore; unless a torn restore came between, its snapshot plus the dirty set covers the current disks |
| `ChainInvariant.BackupKeeps` | backend/internal/hypervisor/libvirt/backup.go:42-206 | an online or offline backup of any requested type keeps the invariant, whether or not the job begins |
| `ChainInvariant.JobKeeps` | backend/internal/hypervisor/libvirt/backup.go:128-168 | every way a job can end keeps the invariant, orphan checkpoints of failed jobs included |
| `ChainInvariant.DeleteKeeps` | backend/internal/hypervisor/libvirt/backup.go:233-258 | deleting any point keeps the invariant, coverage from the remaining checkpoints included |
| `ChainInvariant.RestoreKeeps` | backend/internal/hypervisor/libvirt/backup.go:264-332 | a restore keeps the invariant, also when it fails part way |
| `ChainInvariant.RunKeeps` | backend/internal/hypervisor/libvirt/backup.go:42-332 | every run of writes, power changes, backups, deletes, restores and operator actions keeps the invariant |
| `RestoreCorrectness.ChainShape` | backend/internal/hypervisor/libvirt/backup.go:428-443 | the chain starts at a full, ends at the requested point, links each point to the next by parent id and grows in time |
| `RestoreCorrectness.ReplayGivesSnapshot` | backend/internal/hypervisor/libvirt/backup.go:445-516 | replaying a chain image by image rebuilds the disk as it was captured |
| `RestoreCorrectness.ChainIffAncestorsListed` | backend/internal/hypervisor/libvirt/backup.go:430-443 | a chain is found if and only if every ancestor is still listed |
| `RestoreCorrectness.RestoreIsExact` | backend/internal/hypervisor/libvirt/backup.go:264-332 | exactly when a restore succeeds and with which error it fails otherwise; success on a sound chain leaves the captured disks, refusal changes nothing |
| `RestoreCorrectness.CleanRunKeeps` | backend/internal/hypervisor/libvirt/backup.go:42-332 | over runs in which no restore tears and jobs that end have finished their images, no point is ever unsound and snapshots are never forgotten |
| `RestoreCorrectness.BackupThenRestore` | backend/internal/hypervisor/libvirt/backup.go:42-332 | end to end: a later successful restore gives every disk its contents from the time of the backup; it succeeds whenever the VM is stopped and no ancestor is gone; with one gone nothing changes |
| `ChainConsequences.ParentsOverRuns` | backend/internal/backup/backup.go:172-177 | a listed point is incremental exactly when it names a parent, which is older, with no listed point and no completed restore in between |
| `ChainConsequences.ChosenParentIsCovered` | backend/internal/hypervisor/libvirt/backup.go:384-414 | over every run, each cell that differs from the chosen parent's snapshot is in the dirty set the backup copies, unless a restore since then failed after replacing a disk |
| `ChainConsequences.RestoreStartsNewChain` | backend/internal/hypervisor/libvirt/backup.go:329-332 | after a restore the first automatic backup is a full and a forced incremental is refused, whatever happened in between |
| `ChainConsequences.NewPointRestorable` | backend/internal/hypervisor/libvirt/backup.go:397-413 | a new point can be restored if and only if it is a full or its parent still could be |
| `ChainOutcomes.BackupOutcome` | backend/internal/hypervisor/libvirt/backup.go:42-126 | for every request: a backup is refused, changing nothing, exactly when an incremental is forced and the newest point is missing, has no checkpoint or lost it; otherwise it is done unless a step fails or a running VM has no file-backed disk |
| `ChainOutcomes.StartedJob` | backend/internal/hypervisor/libvirt/backup.go:384-414 | on a running VM the new point is incremental on the newest one exactly when no full is forced and that one's checkpoint is there; it gets a checkpoint of its own, named after it |
| `ChainOutcomes.StartedImages` | backend/internal/hypervisor/libvirt/backup.go:93-124 | a full's images are the whole disks; an incremental's hold exactly the clusters dirtied since the parent's checkpoint |
| `ChainOutcomes.OfflinePoint` | backend/internal/hypervisor/libvirt/backup.go:173-206 | a stopped VM gets a full of its whole disks without a checkpoint, whatever is asked for short of a refused incremental |
| `ChainOutcomes.DeleteOutcome` | backend/internal/hypervisor/libvirt/backup.go:233-258 | a deletion is done exactly for a listed id; the point and its own checkpoint go, and no other |
| `ChainOutcomes.PruneTakesTheirs` | backend/internal/scheduler/scheduler.go:396-404 | a prune, whichever deletions fail, takes out of the domain exactly the checkpoints of the points that go |
| `ChainOutcomes.RestoreCheckpoints` | backend/internal/hypervisor/libvirt/backup.go:329-332 | a completed restore takes out exactly the checkpoints whose names begin with chk-, any other leaves them all |
| `Exactness.EndedExactIff` | backend/internal/hypervisor/libvirt/backup.go:128-168 | for full and incremental points on a sound, unbroken chain: restoring the point a job published gives the captured disks if and only if each image holds captured clusters only, and every one in which the captured disk differs from its base |
| `TornRestores.CalmRun` | backend/internal/hypervisor/libvirt/backup.go:115-118 | over guest writes, power changes, deletions, failed backups and changes of checkpoints, as long as a checkpoint is kept, the cells an incremental from it gets wrong are those it got wrong before and the guest has not rewritten |
| `TornRestores.TornDisks` | backend/internal/hypervisor/libvirt/backup.go:317-327 | a restore that fails at a disk has given the disks before it the restored point's contents, and changed nothing else |
| `TornRestores.TornCoverageIff` | backend/internal/hypervisor/libvirt/backup.go:317-332 | after a torn restore the next parent's dirty set still covers the changes if and only if the restored point and that parent differ on dirty cells only, on the disks replaced |
| `TornRestores.TearOfParentIsHarmless` | backend/internal/hypervisor/libvirt/backup.go:317-332 | after a torn restore of the chosen parent itself its dirty set still covers every change |
| `TornRestores.NextPointAfterTearIff` | backend/internal/hypervisor/libvirt/backup.go:317-332 | after a torn restore and any such events that leave the parent and its ancestors in place, the next automatic backup restores to the disks it was taken from if and only if the guest rewrote every cell the tear left stale |
| `ChainExamples.TornRestoreMisleads` | backend/internal/hypervisor/libvirt/backup.go:317-332 | an admissible run from a domain before its first backup, with a torn restore, after which a successful restore gives other bytes |
| `TearExamples.RewritingDecides` | backend/internal/hypervisor/libvirt/backup.go:317-332 | the same run from the domain before its first backup: the next backup comes back as it was taken if and only if the guest rewrites the one stale cell, whatever it writes |
| `ChainExamples.UnfinishedImageMisleads` | backend/internal/hypervisor/libvirt/backup.go:137-160 | an admissible run whose job leaves an image unfinished and whose point restores, successfully, to an emptied disk |
| `ChainExamples.BrokenChainGrows` | backend/internal/hypervisor/libvirt/backup.go:397-413 | an admissible run in which an automatic backup continues a chain whose full is gone and can never be restored |
| `LibvirtProvider.Provider.BackupChainParent` | backend/internal/hypervisor/libvirt/backup.go:384-414 | the search with its early returns chooses the parent that the invariant lemmas and ChainOutcomes are about |
| `LibvirtProvider.Provider.CopyDisks` | backend/internal/hypervisor/libvirt/backup.go:99-110 | the disk loop produces one image for each file-backed disk: all of it, or its cells dirtied since the parent |
| `LibvirtProvider.Provider.BackupVirtualMachine` | backend/internal/hypervisor/libvirt/backup.go:42-126 | a backup up to the started job, or an offline one, changes the object as the proved step does |
| `LibvirtProvider.Provider.AwaitJob` | backend/internal/hypervisor/libvirt/backup.go:128-145 | the job counts as ended exactly when some look shows it completed or gone and every look before showed it running; otherwise, a context done or a failed query first, it counts as canceled |
| `LibvirtProvider.Provider.ImagesExist` | backend/internal/hypervisor/libvirt/backup.go:151-160 | the check finds out whether every disk has an image |
| `LibvirtProvider.Provider.FinishBackup` | backend/internal/hypervisor/libvirt/backup.go:128-168 | done exactly when there was a job, it ended in that sense, every disk has an image and the files could be written; then the job's point, with the images found, is in front of the old library, and otherwise the library is as before |
| `LibvirtProvider.Provider.DeleteBackup` | backend/internal/hypervisor/libvirt/backup.go:233-258 | the point and its checkpoint go, one point exactly if found |
| `LibvirtProvider.Provider.RestoreChain` | backend/internal/hypervisor/libvirt/backup.go:430-443 | the loop terminates, since parents are older, and returns the ancestor chain or notices the gap |
| `LibvirtProvider.Provider.RestoreDiskChain` | backend/internal/hypervisor/libvirt/backup.go:450-516 | collecting then replaying the chain's images of one disk; fails exactly when an image is missing or copying fails |
| `LibvirtProvider.Provider.DeleteUltravCheckpoints` | backend/internal/hypervisor/libvirt/backup.go:605-619 | the loop over the listed checkpoints leaves what the fold of single deletions leaves |
| `LibvirtProvider.Provider.ReplaceDisks` | backend/internal/hypervisor/libvirt/backup.go:317-327 | the disk loop replaces the disks before the first failure and no other |
| `LibvirtProvider.Provider.RestoreBackup` | backend/internal/hypervisor/libvirt/backup.go:264-332 | the whole restore changes the object as the proved step does, error cases included |
| `LibvirtProvider.Provider.PruneBackups` | backend/internal/scheduler/scheduler.go:371-406 | the two loops of a prune change the object as the proved prune does and return how many points went |
| `Retention.PruneIsExact` | backend/internal/scheduler/scheduler.go:369-406 | the survivors are exactly the points not older than the keep-th newest full, with exactly keep fulls; with fewer fulls nothing goes; a second prune does nothing |
| `Retention.EveryDeletionKeepsChains` | backend/internal/scheduler/scheduler.go:396-404 | after every single deletion of a prune, the listed points have the chains they had before |
| `Retention.PruneKeepsChainsIff` | backend/internal/scheduler/scheduler.go:396-404 | with failing deletions, survivors keep their chains if and only if the failures reach down to the fulls |
| `ChainExamples.RefusedDeletionBreaks` | backend/internal/scheduler/scheduler.go:396-404 | an admissible run after which a prune with one failing deletion leaves a restorable incremental without its full |
| `Retention.PruneKeepsAnchor` | backend/internal/scheduler/scheduler.go:371-406 | a prune does not change the parent of the next backup |
| `MetadataText.QuoteIsNeutral` | backend/internal/backup/backup.go:195-202 | a quoted and escaped JSON string never unbalances the brackets around it, whatever it holds |
| `MetadataText.TornIsNeverClosed` | backend/internal/backup/backup.go:195-202 | a prefix of metadata.json has its brackets closed if and only if it is the whole file |
| `MetadataReading.TextIsInjective` | backend/internal/backup/backup.go:195-202 | no two descriptors have the same text, whatever quotes, brackets, commas or control characters their names contain |
| `MetadataReading.ReadersExist` | backend/internal/backup/backup.go:205-215 | some reader gives back every descriptor and takes only texts whose brackets close, as the results on crashes ask for |
| `BackupLibrary.IdSafeIff` | backend/internal/backup/backup.go:311-314 | the accepted directory names are single path elements, and "/" |
| `LibraryOutcomes.IdsAreNames` | backend/internal/backup/backup.go:29 | the accepted ids are bk- with one to eighty letters, digits, dots, underscores or dashes; each is a single path element |
| `LibraryOutcomes.GeneratedIdsAreIds` | backend/internal/backup/backup.go:302-309 | every id that is generated is accepted |
| `LibraryOutcomes.VisibleIff` | backend/internal/backup/backup.go:217-243 | a point is shown for exactly the VM's folders with an accepted name and a complete, readable descriptor |
| `LibraryOutcomes.GetIff` | backend/internal/backup/backup.go:245-257 | a malformed id is refused first; a point is found exactly when the first folder of that name holds a complete descriptor |
| `BackupLibrary.CrashShowsOnlyFinished` | backend/internal/backup/backup.go:120-202 | stopping after any number of a point's writes, or inside one, the point is shown if and only if all of them finished, with final images and XML; other points are shown as before |
| `BackupLibrary.AbortUndoes` | backend/internal/backup/backup.go:192-193 | aborting after any number of writes leaves the library as before the point was created |
| `BackupStore.Store.Create` | backend/internal/backup/backup.go:120-142 | only an unsafe name is refused, without change; otherwise a folder without descriptor is added |
| `BackupStore.Store.List` | backend/internal/backup/backup.go:217-243 | exactly the completed points of the VM, newest first; unreadable and unfinished ones are left out |
| `BackupStore.Store.Get` | backend/internal/backup/backup.go:245-257 | the completed point of that id, or which error |
| `BackupStore.Store.Delete` | backend/internal/backup/backup.go:272-285 | which ids are refused and how; otherwise that folder goes and no other |
| `BackupStore.Point.DiskPath` | backend/internal/backup/backup.go:153-158 | the disk is recorded and its file is never the descriptor or the domain XML |
| `BackupStore.Point.SetDiskSize` | backend/internal/backup/backup.go:160-167 | every disk of that name gets the size and nothing else changes |
| `BackupStore.Point.SetParent` | backend/internal/backup/backup.go:172-177 | sets parent and kind for any id, and for a named one keeps the rule that a point is incremental exactly when it names a parent |
| `BackupStore.Point.SetCheckpoint` | backend/internal/backup/backup.go:179-180 | only the checkpoint is recorded |
| `BackupStore.Point.Complete` | backend/internal/backup/backup.go:185-202 | the descriptor, now complete, is written to the point's folder and to no other, wholly or, if the write fails, in part |
| `BackupStore.Point.Abort` | backend/internal/backup/backup.go:192-193 | the point's folder goes and no other |
| `BackupStore.RecordSizes` | backend/internal/hypervisor/libvirt/backup.go:166-167 | every recorded disk with an image gets that image's size, the last one's of a name, and no other disk changes |
| `BackupStore.WorkHolds` | backend/internal/hypervisor/libvirt/backup.go:177-202 | when the descriptor is due, the folder holds every source's image under its own file name, and the domain's XML |
| `BackupStore.BackupOffline` | backend/internal/hypervisor/libvirt/backup.go:173-206 | succeeds exactly when the name is safe, every copy works and both last writes do; a failing copy or XML leaves the library as before, a failing descriptor what a crash inside it leaves |
| `BackupStore.BackupOnline` | backend/internal/hypervisor/libvirt/backup.go:75-168 | the same for an online backup with parent and checkpoint: it publishes exactly when there are disks, the job was not canceled and left every image non-empty |
| `BackupStore.OutcomeShowsOnlyFinished` | backend/internal/hypervisor/libvirt/backup.go:162-168 | however the last two writes end, the point is shown if and only if its descriptor was written to the end after the XML |
| `TaskModel.TrimDropsExactly` | backend/internal/tasks/tasks.go:151-161 | one trim drops the smaller of the excess and what can be dropped in one pass |
| `TaskModel.DroppableIsAtLeastHalf` | backend/internal/tasks/tasks.go:151-161 | what can be dropped in one pass is at least half of the finished tasks, and at most all |
| `TaskModel.TrimDropsOnlyFinished` | backend/internal/tasks/tasks.go:151-161 | no unfinished task is dropped, none is repeated, and the dropped set is exactly what is missing |
| `TaskModel.TrimOfOneDropsOldest` | backend/internal/tasks/tasks.go:150-161 | with one task too many the oldest finished one goes |
| `TaskModel.StartKeeps` | backend/internal/tasks/tasks.go:124-162 | index and order hold the same tasks without repeats; the new task and all unfinished ones stay; how long the history gets |
| `TaskModel.BoundHoldsIff` | backend/internal/tasks/tasks.go:150-161 | the cap holds after a start if and only if the excess can be dropped in one pass |
| `TaskModel.UnfinishedOutgrowBound` | backend/internal/tasks/tasks.go:150-161 | a run from the empty manager: any number of tasks above the cap, started while none has finished, all stay |
| `TaskModel.FullHistoryDropsOldest` | backend/internal/tasks/tasks.go:150-161 | a start from a full history drops exactly the oldest finished task |
| `TaskModel.RunKeeps` | backend/internal/tasks/tasks.go:124-261 | the invariant holds in every interleaving of starts, workers, reports and cancels |
| `TaskModel.TerminalAbsorbs` | backend/internal/tasks/tasks.go:170-197 | a finished task's record never changes again |
| `TaskModel.ContextTracksAcceptance` | backend/internal/tasks/tasks.go:231-250 | a task's context is done if and only if some cancel on it was accepted |
| `TaskModel.CancelIsHonoured` | backend/internal/tasks/tasks.go:170-250 | a task ends cancelled if and only if some cancel on it was accepted, in every interleaving; progress stays in 0..100, success means 100, and only queued or running tasks are cancellable |
| `TaskTraces.OutcomeIsReturned` | backend/internal/tasks/tasks.go:178-195 | over every run a task has failed if and only if its function returned an error and no cancel was accepted, has succeeded if and only if it returned none and no cancel was accepted, and has ended exactly when it returned |
| `TaskTraces.AcceptedIff` | backend/internal/tasks/tasks.go:231-250 | over every run a cancel is accepted if and only if its task has started, not ended, and no accepted cancel is pending; which of queued, running and cancelling a live task shows follows from the events |
| `TaskTraces.ProgressIsLastReport` | backend/internal/tasks/tasks.go:68-79 | over every run a task shows what its worker reported last, as the nearest value from 0 to 100; 0 before the first report, and 100 once it has succeeded |
| `TaskManager.Task.Finish` | backend/internal/tasks/tasks.go:178-195 | cancelled if the context is done, else failed if the function failed, else succeeded |
| `TaskManager.Manager.constructor` | backend/internal/tasks/tasks.go:113-118 | an empty manager |
| `TaskManager.Manager.Append` | backend/internal/tasks/tasks.go:145 | appending keeps every earlier cell, in place or in a new array |
| `TaskManager.Manager.Drop` | backend/internal/tasks/tasks.go:253-261 | the later cells shift down in place, the cell past the end keeps its old value, the index loses the id |
| `TaskManager.Manager.TrimOne` | backend/internal/tasks/tasks.go:152-160 | one pass of the trim loop, reading a cell of the array that earlier passes shifted, advances the pass that the trim lemmas describe |
| `TaskManager.Manager.TrimLoop` | backend/internal/tasks/tasks.go:151-161 | the loop over the shifted array computes the trim that the trim lemmas are about |
| `TaskManager.Manager.Start` | backend/internal/tasks/tasks.go:132-162 | registering and trimming change the manager as the proved step does |
| `TaskManager.Manager.WorkerBegins` | backend/internal/tasks/tasks.go:171-174 | running overwrites whatever status the task has |
| `TaskManager.Manager.SetProgress` | backend/internal/tasks/tasks.go:68-79 | the reported progress is clamped to 0..100 and nothing else changes |
| `TaskManager.Manager.WorkerEnds` | backend/internal/tasks/tasks.go:178-195 | the worker's last step changes the manager as the proved step does |
| `TaskManager.Manager.Cancel` | backend/internal/tasks/tasks.go:231-250 | accepted exactly for a known queued or running task, which then has its context cancelled; otherwise nothing changes |
| `ScheduleSafety.DueOnLaterDay` | backend/internal/scheduler/scheduler.go:298-314 | a schedule created after its time of the day is due on a later day only |
| `ScheduleOutcomes.DueIff` | backend/internal/scheduler/scheduler.go:298-314 | a schedule for h:m is due on a day from that time on, unless it has run since, or never ran and was created after it; one without a valid time never is |
| `ScheduleOutcomes.TimesAreClocks` | backend/internal/scheduler/scheduler.go:57 | the accepted times are exactly 00:00 to 23:59 |
| `ScheduleOutcomes.UpdateSets` | backend/internal/scheduler/scheduler.go:213-254 | an update replaces the schedule by the copy it holds with exactly the named fields set, in its place; no other schedule changes |
| `ScheduleOutcomes.RunEndMarks` | backend/internal/scheduler/scheduler.go:408-416 | a run that found its targets marks the schedule, as listed by then, with the instant it started; any end frees the lock |
| `ScheduleSafety.OneRunAtATime` | backend/internal/scheduler/scheduler.go:280-349 | over every run at most one backup run is in progress, exactly while the lock is held; a schedule created after its time does not run that day unless its time is changed |
| `ScheduleRepeats.AtMostOncePerOccurrence` | backend/internal/scheduler/scheduler.go:280-349 | with steps interleaved in any way, a schedule completes at most one run for each date and time if, and for a time never changed only if, each run it completes is for an occurrence after the latest one marked |
| `ScheduleRepeats.FreshRunAdvances` | backend/internal/scheduler/scheduler.go:280-349 | that condition holds in every run in which no tick starts a stale copy and no update loses a mark |
| `ScheduleActs.UninterruptedIsSafe` | backend/internal/scheduler/scheduler.go:213-349 | with every tick and update uninterrupted, at most one run for each date and time, one run at a time, and none on a late first day, over every run |
| `ScheduleMarks.MarksRun` | backend/internal/scheduler/scheduler.go:408-416 | over every run, the last run of a schedule whose time never changed is the run of a completed occurrence |
| `ScheduleRepeats.RepeatsIffBehind` | backend/internal/scheduler/scheduler.go:282-294 | after any run, with marks lost or schedules deleted: a tick's step leads to a second completion of an occurrence only if that is not after the latest mark, and, for a time never changed, whenever it is not |
| `ScheduleRepeats.RepeatsIffStale` | backend/internal/scheduler/scheduler.go:282-294 | the same read off the list, after any run in which no update lost a mark: by a stale copy only, and, for a listed schedule whose time never changed, by every stale copy |
| `ScheduleRepeats.LostMarkRepeatsIff` | backend/internal/scheduler/scheduler.go:213-254 | when a schedule is updated and the next tick starts it, it repeats a completed occurrence if and only if the listed schedule carried a mark at or after that occurrence and the update leaves the time of day as it was; only if, when the time had been changed before |
| `ScheduleExamples.StaleTickRunsTwice` | backend/internal/scheduler/scheduler.go:282-294 | an admissible run from the empty service in which a tick's stale list makes a schedule run twice for one occurrence |
| `ScheduleExamples.LostMarkRunsTwice` | backend/internal/scheduler/scheduler.go:213-254 | an admissible run from the empty service in which an update overwrites the run mark and the schedule runs twice |
| `ScheduleExamples.LossRepeatsIffSameDay` | backend/internal/scheduler/scheduler.go:213-254 | the same loss, with the first tick after it at any later time: the run is repeated if and only if that tick comes on the same day |
| `ScheduleService.Store.Get` | backend/internal/scheduler/scheduler.go:93-103 | the first schedule with the id, if any |
| `ScheduleService.Store.Append` | backend/internal/scheduler/scheduler.go:105-111 | the list grows at its end |
| `ScheduleService.Store.Put` | backend/internal/scheduler/scheduler.go:113-124 | only the first schedule with the id is replaced; reports whether there was one |
| `ScheduleService.Store.Remove` | backend/internal/scheduler/scheduler.go:126-137 | only the first schedule with the id goes, the order of the others stays |
| `ScheduleService.Service.Create` | backend/internal/scheduler/scheduler.go:195-209 | the accepted schedule joins the list as in the proved step |
| `ScheduleService.Service.UpdateReads` | backend/internal/scheduler/scheduler.go:213-217 | the update holds a copy from here on |
| `ScheduleService.Service.UpdateWrites` | backend/internal/scheduler/scheduler.go:218-254 | exactly the requested fields of the held copy are set before it is written back; reports whether the schedule was still there |
| `ScheduleService.Service.Delete` | backend/internal/scheduler/scheduler.go:257-263 | the schedule goes, runs in progress stay; reports whether there was one |
| `ScheduleService.Service.TickBegins` | backend/internal/scheduler/scheduler.go:281-282 | the tick works on a copy of the list |
| `ScheduleService.Service.TickNext` | backend/internal/scheduler/scheduler.go:282-295 | a run starts exactly for an enabled, due copy while the lock is free |
| `ScheduleService.Service.RunEnds` | backend/internal/scheduler/scheduler.go:319-349 | the run is marked unless its targets could not be found, and the lock is released either way |
| `ScheduleService.Service.Tick` | backend/internal/scheduler/scheduler.go:280-296 | a whole tick starts the first enabled and due schedule if the lock is free, and no other |
| `MountTable.UnescapeEscape` | backend/internal/hypervisor/libvirt/storage_visibility.go:209-219 | undoing the kernel's octal escapes in one pass gives back every text, backslashes followed by digits included |
| `MountTable.ParseMountinfo` | backend/internal/hypervisor/libvirt/storage_visibility.go:178-207 | the line and separator loops compute the parse that the round trip is about |
| `MountTable.LineIff` | backend/internal/hypervisor/libvirt/storage_visibility.go:185-204 | lines with fewer than seven fields, without a separator or with nothing after it are passed over; any other gives the fourth and fifth field and the one after the separator |
| `MountTable.UnescapeLeaves` | backend/internal/hypervisor/libvirt/storage_visibility.go:212-219 | a text without one of the four escapes is left as it is |
| `MountTable.RoundTripIff` | backend/internal/hypervisor/libvirt/storage_visibility.go:178-219 | rendered entries with any number of optional fields parse back to themselves, in order, if and only if they hold no white space the kernel leaves unescaped and no empty field |
| `MountLookup.MountFor` | backend/internal/hypervisor/libvirt/storage_visibility.go:162-176 | the first of the longest mount points holding the cleaned path, or none exactly when none holds it |
| `MountLookup.HoldsIsNamePrefix` | backend/internal/hypervisor/libvirt/storage_visibility.go:168 | a mount point holds a clean path exactly when its components are a prefix of the path's, so siblings never match |
| `MountLookup.InspectPath` | backend/internal/hypervisor/libvirt/storage_visibility.go:137-153 | unknown exactly when no mount holds the path, private exactly when the best mount is an overlay, tmpfs or ramfs, otherwise the verdict of the best mount |
| `MountLookup.CleanPathsTranslate` | backend/internal/hypervisor/libvirt/storage_visibility.go:137-153 | a clean path is seen below the mount's root on the host: the same path exactly when root and mount point agree |
| `MountTranslation.ReportedRightIff` | backend/internal/hypervisor/libvirt/storage_visibility.go:137-153 | every absolute spelling of a path is reported like the clean one if and only if the text left after trimming ends with the names it climbs over in the mount's root, followed by those below the mount point |
| `MountTranslation.WithoutDotsRightIff` | backend/internal/hypervisor/libvirt/storage_visibility.go:147-151 | without .. a path is reported right if and only if it starts with the text of the mount point |
| `MountTranslation.DotsHideElsewhere` | backend/internal/hypervisor/libvirt/storage_visibility.go:147-151 | a family of paths with .. reported as the same on the host although the host has them elsewhere |
| `MountLookup.UncleanPathMisreported` | backend/internal/hypervisor/libvirt/storage_visibility.go:147-152 | a family of paths with a doubled slash reported elsewhere although the host sees them under the same path |
| `IpArithmetic.AddToIP` | backend/internal/hypervisor/libvirt/pools_networks.go:602-612 | the carry loop over a fresh copy computes the sum that the arithmetic lemmas are about |
| `IpArithmetic.AddWithoutOverflow` | backend/internal/hypervisor/libvirt/pools_networks.go:602-612 | for every length, big-endian addition modulo 256^n while the first sum fits 32 bits |
| `IpArithmetic.AddIsExactIff` | backend/internal/hypervisor/libvirt/pools_networks.go:602-612 | for every int32 delta the result is exact if and only if the first sum does not overflow or there are at most four bytes |
| `IpArithmetic.SubnetFirstAndLastHost` | backend/internal/hypervisor/libvirt/pools_networks.go:585-600 | the byte loop and the decrement give the two addresses that the subnet lemmas are about; nothing for other than IPv4 |
| `IpArithmetic.SubnetBounds` | backend/internal/hypervisor/libvirt/pools_networks.go:593-596 | masking byte by byte gives the network address and setting the host bits the address size - 1 above it, for every prefix |
| `IpArithmetic.LastHost` | backend/internal/hypervisor/libvirt/pools_networks.go:597-599 | the last host is network + 2^(32 - p) - 2, and inside the subnet if and only if p <= 31 |
| `IpArithmetic.FirstHostIsNextIff` | backend/internal/hypervisor/libvirt/pools_networks.go:594 | the first host is network + 1 if and only if the first three network bytes are odd and the last is even |
| `IpArithmetic.FirstHostLeavesItsSubnet` | backend/internal/hypervisor/libvirt/pools_networks.go:594 | the first host of 192.168.100.0/24 is 193.169.101.1 |
| `MockNetworks.GatewayIsNext` | backend/internal/hypervisor/mock/pools_networks.go:205-208 | the simulated gateway is the network address + 1 for prefixes up to 31 |
| `MockNetworks.GatewayIsFixedIff` | backend/internal/hypervisor/mock/pools_networks.go:271-289 | computing the gateway again from the gateway's own subnet changes nothing if and only if the prefix is at most 31 |
| `MockNetworks.RunKeeps` | backend/internal/hypervisor/mock/pools_networks.go:152-312 | over every run names are distinct, bridges have no addressing of their own, and all others have an address, which is the gateway of their subnet for prefixes up to 31 |
| `MockOutcomes.CreateOutcome` | backend/internal/hypervisor/mock/pools_networks.go:176-234 | which creations are refused and how, and every field of the new network in terms of the request |
| `MockOutcomes.UpdateOutcome` | backend/internal/hypervisor/mock/pools_networks.go:236-295 | only the addressed network changes; its autostart flag is set even when the rest then fails, unless the update is structural and the network active |
| `MockOutcomes.StructuralOutcome` | backend/internal/hypervisor/mock/pools_networks.go:251-292 | which structural updates are refused and how, and every field they set; DHCP is on unless the request says no |
| `MockNetworks.UpdateKeepsGatewayIff` | backend/internal/hypervisor/mock/pools_networks.go:271-289 | a structural update that names no subnet keeps the gateway if and only if the prefix is at most 31 |
| `MockNetworks.OneAddressNetworkMoves` | backend/internal/hypervisor/mock/pools_networks.go:271-289 | a run from the initial networks in which a /32 network gets 10.0.0.6 and an update of nothing but DHCP moves it to 10.0.0.7 |
| `MockNetworks.BridgeForgetsSubnet` | backend/internal/hypervisor/mock/pools_networks.go:258-280 | a network that became a bridge cannot go back to routing without a new subnet |
| `MockNetworkProvider.Provider.CreateNetwork` | backend/internal/hypervisor/mock/pools_networks.go:176-234 | creates or refuses as the proved step does, in the order of the source's checks |
| `MockNetworkProvider.Provider.UpdateNetwork` | backend/internal/hypervisor/mock/pools_networks.go:236-295 | field by field, with its early returns, as the proved step does |
| `MockNetworkProvider.Provider.StartNetwork` | backend/internal/hypervisor/mock/pools_networks.go:152-162 | activates an inactive network and no other |
| `MockNetworkProvider.Provider.StopNetwork` | backend/internal/hypervisor/mock/pools_networks.go:164-174 | deactivates an active network and no other |
| `MockNetworkProvider.Provider.DeleteNetwork` | backend/internal/hypervisor/mock/pools_networks.go:297-312 | only an inactive network goes, the others keep their order |
| `PowerModel.RunKeeps` | backend/internal/hypervisor/mock/mock.go:220-385 | in every interleaving of calls and timers: stopped means no boot time and no address, running and shutting down mean both, and a VM shutting down has a timer pending |
| `PowerOutcomes.CallAnswers` | backend/internal/hypervisor/mock/mock.go:285-385 | in which states each call is accepted, how it is refused otherwise, and that a refusal changes nothing |
| `PowerOutcomes.CallChanges` | backend/internal/hypervisor/mock/mock.go:285-385 | what each accepted call makes of its VM, with every other VM, name and timer as before |
| `PowerOutcomes.BootIsLatest` | backend/internal/hypervisor/mock/mock.go:285-350 | over every run the boot time of a VM that is on is when it was last created running, started or rebooted |
| `PowerOutcomes.AddressesCollide` | backend/internal/hypervisor/mock/mock.go:229-231 | a run from the initial fleet after which two running VMs have the same address |
| `PowerModel.DeletedTimersNeverAct` | backend/internal/hypervisor/mock/mock.go:326-333 | timers of a deleted VM never change any VM again, one re-created under its name included |
| `PowerModel.GraceHonouredIff` | backend/internal/hypervisor/mock/mock.go:310-335 | a shutdown gets its whole grace period in every run without a forced stop if and only if no earlier timer of the VM was due within it |
| `PowerModel.LeftoverTimerEndsGrace` | backend/internal/hypervisor/mock/mock.go:310-335 | a run from the initial fleet (shutdown, forced stop, start) after which a shutdown does not get its grace period |
| `PowerProvider.Provider.CreateVirtualMachine` | backend/internal/hypervisor/mock/mock.go:220-282 | a new object under a free name, stopped or running, with the address of the fleet's size |
| `PowerProvider.Provider.StartVirtualMachine` | backend/internal/hypervisor/mock/mock.go:285-305 | starts as the proved step does, refusing every state that is on or in between |
| `PowerProvider.Provider.ShutdownVirtualMachine` | backend/internal/hypervisor/mock/mock.go:307-335 | the VM is shutting down and a goroutine holding its object is pending |
| `PowerProvider.Provider.SleeperWakes` | backend/internal/hypervisor/mock/mock.go:326-333 | the goroutine powers its own object off, only if that is still shutting down |
| `PowerProvider.Provider.RebootVirtualMachine` | backend/internal/hypervisor/mock/mock.go:337-350 | only the boot time of a running VM changes |
| `PowerProvider.Provider.ForceStopVirtualMachine` | backend/internal/hypervisor/mock/mock.go:352-367 | any VM that is not stopped is powered off; its timers stay pending |
| `PowerProvider.Provider.DeleteVirtualMachine` | backend/internal/hypervisor/mock/mock.go:369-385 | only a stopped VM's name goes; its object and timers live on |
| `GuestDevices.Detect` | backend/internal/hypervisor/libvirt/domainxml.go:605-679 | the loop over the disks reads back the profile that the survival lemma is about |
| `GuestDevices.NextCdromTarget` | backend/internal/hypervisor/libvirt/update.go:244-276 | the first of sda..sdz no disk has, on the bus of a legacy system disk or sata; none only if all are taken |
| `GuestDevices.PersistentConfig.CurrentCdrom` | backend/internal/hypervisor/libvirt/update.go:295-312 | the name of the first CD-ROM, if any |
| `GuestDevices.PersistentConfig.SetCDROM` | backend/internal/hypervisor/libvirt/update.go:147-190 | detach, search and attach change the disk list as the proved step does, whether or not each takes effect |
| `GuestOutcomes.ChangeOutcome` | backend/internal/hypervisor/libvirt/update.go:147-190 | the first CD-ROM goes if its detach works; an ISO that is wanted and attached comes as one new CD-ROM under the first free name, and otherwise nothing is added |
| `GuestOutcomes.CdromBusFollows` | backend/internal/hypervisor/libvirt/update.go:250-268 | a new CD-ROM goes on IDE if the first disk that is none and names a bus is on it, and on SATA otherwise |
| `GuestOutcomes.Provisioned` | backend/internal/hypervisor/libvirt/domainxml.go:505-567 | only an unknown NIC model is refused; the ISOs come in order before the system disk, on SATA, and a NIC that is asked for wins over the profile |
| `GuestOutcomes.ProfilesByOs` | backend/internal/hypervisor/libvirt/domainxml.go:429-503 | the CPU mode, disk bus, cache, I/O threads and NIC of each operating system, and Hyper-V for Windows alone |
| `GuestDevices.ProvisionedNames` | backend/internal/hypervisor/libvirt/domainxml.go:518-567 | provisioning hands out sda, sdb, sdc without gaps or repeats |
| `GuestDevices.RunKeeps` | backend/internal/hypervisor/libvirt/update.go:147-190 | after provisioning and any CD-ROM changes, names are distinct and the system disk is as provisioned |
| `GuestDevices.NamesNeverRunOut` | backend/internal/hypervisor/libvirt/update.go:147-190 | as long as detaches take effect the search for a name never fails, over every run |
| `GuestDevices.ProfileSurvives` | backend/internal/hypervisor/libvirt/domainxml.go:605-679 | for Windows guests the profile read back is exactly the one applied, after any CD-ROM changes; for others there is none |
| `GuestOutcomes.DetectedIff` | backend/internal/hypervisor/libvirt/domainxml.go:605-679 | of any domain with Hyper-V features: SATA if any hard disk is on it, the last cache mode named, the NIC model if known, and no I/O threads unless it says so |

## Left out

Assumptions of the chain engine and the library:

- The chain model covers one VM. Its backups do not overlap, point ids are fresh, and creation times increase. Its disk devices stay the same during a run.
- Guest discards, which take clusters away from a disk (disks are provisioned with discard='unmap', backend/internal/hypervisor/libvirt/domainxml.go:557).
- libvirt and qemu-img do what their documentation says: a checkpoint's bitmap holds every write made while it is the newest, deleting a checkpoint succeeds and merges its bitmap into the one before it, an incremental job copies the cells dirtied since the named checkpoint, and `convert -n` writes only allocated clusters. An offline copy sees one state of the disk.
- That a stale checkpoint is still honoured after a torn restore follows the comment at backend/internal/hypervisor/libvirt/backup.go:329-331.
- A failing write of metadata.json after its whole text has reached the file, which leaves the point shown (`BackupStore.OutcomeShowsOnlyFinished`): the chain model has it only as a backup that succeeds, with the same state and without the reported error.
- Redefining the domain from its saved XML after a restore (backend/internal/hypervisor/libvirt/backup.go:334-347), refreshing pools, volume streaming and transient pools.
- The VM being undefined while its points remain: a delete then skips the checkpoint, a restore is refused (backend/internal/hypervisor/libvirt/backup.go:244-248, 280-284).
- Ids of points are unique across VMs, so the glob of `pointDir` has one match; stray files and links in the library directory. A crash in the middle of removing a directory. Writes reach the disk in order.
- The JSON reader and the formatter of times are parameters: the reader accepts only texts whose brackets close, and reads the point being published back (`MetadataReading.ReadersExist`: there are such readers). Whatever else a reader rejects only hides more. Text that is not valid UTF-8.
- backend/internal/hypervisor/mock/backup.go: its choice of a parent differs from libvirt's, so it is not a refinement of the same engine.

Other components:

- Task messages, warnings, result ids and the sorted `List`; ids are numbers instead of `task-%06d` text. The worker's function is reduced to whether it fails.
- Schedules: days last 24 hours of one local time; times are validated HH:MM, as the API checks; the read and the write of `markRun` are one step; name checks, the file behind the store and the backups themselves are not part of a run's step.
- `ScheduleRepeats.AtMostOncePerOccurrence`: goes one way only for a schedule whose time was ever changed, because the latest mark then does not tell at which time of the day it was made; so do `ScheduleRepeats.RepeatsIffBehind` and `ScheduleRepeats.RepeatsIffStale`.
- `ScheduleRepeats.LostMarkRepeatsIff`: covers the first change of a schedule's time exactly, and goes one way only after a second. It speaks of the next tick, with no run in progress; `ScheduleRepeats.RepeatsIffBehind` covers any later one.
- Relative paths, which no mount point but / holds.
- bufio.Scanner's limit of 1 MiB for a line; text as characters rather than bytes.
- CIDR text is parsed by net.ParseCIDR: the model starts from address and prefix, or from blank, malformed and IPv6 as separate cases. IPv4-mapped IPv6 subnets.
- `MockNetworks.UpdateKeepsGatewayIff`: says nothing about DHCP, which every structural update without a DHCP field turns on.
- The simulated provider's vCPU, memory, ISO and network updates, metrics and MAC addresses; `ShutdownVirtualMachine` reading the VM after releasing the lock.
- Where libvirt puts an attached disk in its list: the model puts it last.
- The boot order rewritten by `setOSBootOrder`, XML text itself, Hyper-V feature selection, and the argument checks of `buildDomainXML` other than the NIC model.
- libvirt's own network and storage pool operations, the HTTP layer, authentication, settings, ISO files, the console proxy, metrics and the frontend.

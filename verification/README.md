# PhoenixGPU verification model

A Dafny model of the parts of PhoenixGPU in which a mistake is a lost snapshot, a corrupted counter or a broken pod, with proofs about every input, every run or every interleaving. `dafny verify dfyconfig.toml` checks all of it.

Code that works under locks or sequentially is modelled as it is written: classes whose methods update fields and heap nodes, loops with invariants, arrays sorted in place, each proved against a specification function. Code whose difficulty is concurrency is a step machine: one action is one atomic load, compare-and-swap, send, receive, critical section, status patch or timer; a run is any sequence of actions, so a statement about runs covers every interleaving.

| file | what it models |
|---|---|
| AllocProtocol, AllocContention, AllocAdmission | `Alloc` and `Free` of the oversubscription manager, by any number of goroutines, one atomic operation at a time: what the counters keep, how long a call can take, and which calls are granted |
| Oversub | the same operations for one goroutine at a time, with uint64 arithmetic |
| Lru, LruHistory | the page tracker as a doubly-linked heap list with an index, and what its order means over whole histories |
| UploadPool, UploadFlow, UploadOverflow | the snapshot uploader: queue, workers, retry timers, shutdown; and what becomes of a snapshot |
| Storage, StoragePvc, StorageS3 | the abstract snapshot map, and the directory tree and flat key space that represent it |
| Pruning | what Prune leaves in that map when List passes over snapshots and deletions fail |
| JsonPatch, Webhook, WebhookEffect | JSON pointers (RFC 6901), the add operation (section 4.1 of RFC 6902), the patch list and what applying it does |
| CircuitBreaker | the breaker as a function of its recorded outcomes, and how often a failing checkpointer is tried by one caller |
| BreakerTraffic | the same with calls that overlap |
| FaultDetector | the node fault detector, node by node and over whole histories |
| HAController, HAProgress | checkpoints and concurrent restores of jobs, across restarts of the controller: what always holds, and that checkpoints and restores do happen |
| Meter | the kernel meter in libvgpu |
| Scheduler | filtering, scoring and normalisation in the scheduler extender |
| DevicePlugin | cutting GPUs into slices and allocating them |
| UInt64, Text, Counting, Division | wrap-around arithmetic, printed numbers and separators, sums over goroutines, integer quotients |

## What the proofs found

- `Alloc` tests `current + size > cap` in uint64. The test agrees with the intended one if and only if the sum does not wrap (`Oversub.AdmissionTestIsSoundIffNoWrap`); a request of 2^64 - 1 MiB is granted on any manager with 1 MiB in use.
- `Free` loads `swapUsedMiB` and writes it in two steps, which the model keeps apart. In any interleaving the counters are right at every moment if and only if each such write still finds what it takes out: all of the size when the load saw that much, else exactly what the load saw (`AllocProtocol.EveryInterleavingIsSafe`). Frees that run uninterrupted meet this (`UninterruptedFreesAreSafe`); `RacingFreesUnderflowSwap` is the run with two racing frees that wraps the counter below zero.
- The page tracker is created with a capacity that nothing enforces: it only sizes the map. For every number of addresses some history leaves that many tracked (`LruHistory.TrackerGrowsWithoutBound`).
- The retry wait is 10 s times 2^attempt in int64 nanoseconds: exact if and only if the attempt is below 30. So retries are spaced as documented for `MaxRetries` up to 31, and for every larger setting some run has attempt 31 start together with attempt 30 (`UploadOverflow.SpacingFailsAbove31`).
- A Save where there was no readable metadata, the leftovers of a failed Save included, is atomic towards `List` if and only if no source file but the last is itself a readable meta.json (`Storage.FreshSaveIsAtomicIffNoEarlyMeta`). Over a committed snapshot it is not: a Save that stops half way can leave a listed snapshot that is neither the old nor the new one, unless the source starts with a meta.json that cannot be read or holds no other file (`Storage.SecondSaveIsAtomicIffMetaBreaksFirst`, and for a stop between two files `Storage.StoppedBetweenFilesIsMixedIff`). A second Save overlays the first, although the interface speaks of overwriting; the result is that of a fresh Save if and only if every old file has a new namesake (`Storage.SecondSaveReplacesIffAllRenewed`).
- List passes over a snapshot whose metadata it fails to read and still succeeds, so Prune can delete a newer snapshot and keep an older one: with 1, 2 and 3 committed, one to keep and the metadata of 1 unreadable, it leaves 1 and 3, and a later Prune goes on to delete 1 (`Pruning.OldestSkippedOutlivesNewer`). The newest `keep` survive whatever is passed over (`Pruning.NewestSurvive`); what survives is the newest part if and only if nothing passed over is older than something deleted (`Pruning.SuffixIffNoneSkippedIsOlder`). Prune is documented as idempotent: after one that succeeded, a second that reads everything finds nothing to delete if and only if the first had read everything too or had nothing to delete (`Pruning.SecondListing`).
- Shutdown closes the channel unguarded: a run panics if and only if a submission, a due retry or a second Shutdown comes after its first Shutdown (`UploadPool.RunPanicsIffChannelUsedAfterClose`).
- Snapshot names with slashes make different jobs share keys and directories. Two snapshots share their keys if and only if their job keys and numbers are equal (`StorageS3.PrefixesCoincideIff`), and their directory if and only if their numbers are equal and the cleaned segments of their job keys lead to the same place (`StoragePvc.SnapDirsCoincideIff`); a name is one path component if and only if it is not empty, "." or ".." and has no slash (`StoragePvc.JoinAddsOneIffProper`).
- The patch list applies cleanly if and only if the pod has a metadata object; without one the first annotation patch has no parent (`WebhookEffect.PatchesPerformTheEdit`).
- The comment on the half-open state says one probe is allowed; every caller is. A failing streak that opened the breaker at t0 lets at most MaxFailures - 1 + c * (1 + (t - t0) / OpenDuration) calls through by time t if at most c of them overlap (`BreakerTraffic.OverlappingStreakIsThrottled`), and for every c some run meets this (`BreakerTraffic.CrowdMeetsTheBound`). The bound MaxFailures + (t - t0) / OpenDuration for callers one after the other holds of all runs if and only if c is at most 1 (`BreakerTraffic.OneProbeIffOneCaller`).
- `restoreAttempts` is read and compared with the maximum but never written, so whether a failed restore fails the job is decided by the value the job started with (`HAController.FailureIsDecidedAtTheStart`).
- Pending flops wrap at 2^64. With estimates of at most M flops and T threads, no interleaving loses any if and only if (999 + T) * M is below 2^64 (`Meter.NothingIsLostIffEstimatesFit`).
- Rescaling scores by integer division keeps every difference if and only if the range is at most 100, which the clamp in `scoreNode` provides (`Scheduler.RescaleIsStrictIffRangeFits`).

## Model

| member | source | states |
|---|---|---|
| AllocProtocol.ActMoves | pkg/vgpu/oversub.go:144-200 | every atomic step of Alloc or Free that is not a harmful write moves the counters exactly as far as it moves the caller's shares and stays within both caps |
| AllocProtocol.TallyUpdate | pkg/vgpu/oversub.go:144-200 | one call's step changes what all calls together hold by what it changes for that call |
| AllocProtocol.StepIsSafeIffHarmless | pkg/vgpu/oversub.go:144-200 | from an accounted state a step of any call keeps the accounts, and is safe, if and only if it is not a Free's write of a swap counter that no longer holds what it takes out |
| AllocProtocol.RunKeepsAccounts | pkg/vgpu/oversub.go:144-200 | the accounting invariant holds after every schedule of harmless steps |
| AllocProtocol.EveryInterleavingIsSafe | pkg/vgpu/oversub.go:144-200 | for every interleaving: neither cap is ever exceeded, no counter underflows, and virtual use equals physical plus swap plus what is reserved but not attributed, less what half-done frees owe back, at every moment, if and only if every write of swap is harmless when it is made |
| AllocProtocol.UninterruptedFreesAreSafe | pkg/vgpu/oversub.go:184-200 | when no other call takes a step between the first and last of a Free, all this holds |
| AllocProtocol.GapsBalance | pkg/vgpu/oversub.go:144-200 | reserved-not-attributed and owed-back amounts are exactly the difference between virtual and attributed shares |
| AllocProtocol.RacingFreesUnderflowSwap | pkg/vgpu/oversub.go:184-200 | a schedule of two racing frees after which swap has wrapped below zero and physical memory stays full |
| AllocContention.StepKeepsContention | pkg/vgpu/oversub.go:145-179 | a lost compare-and-swap is always paid for by another call's strict advance of that counter |
| AllocContention.LosesAtMostTheOthers | pkg/vgpu/oversub.go:145-179 | among n concurrent Allocs each call loses at most n - 1 rounds of each of its two loops |
| AllocContention.FinishesInBoundedTurns | pkg/vgpu/oversub.go:144-181 | a call that is given 4n + 1 turns among n Allocs is finished, whatever the others do |
| AllocContention.FinishedAllocsFillPhysicalFirst | pkg/vgpu/oversub.go:159-179 | when all Allocs have finished, physical use is the smaller of virtual use and the cap, and swap is the rest |
| AllocAdmission.RunKeepsVirt | pkg/vgpu/oversub.go:144-200 | whatever frees do to the swap counter, virtual use is at every moment exactly what the calls hold, and within its cap |
| AllocAdmission.RefusedOnlyIfItDidNotFit | pkg/vgpu/oversub.go:145-157 | in every interleaving of Allocs and Frees a refused call did not fit at some moment before it was decided, and a granted one fitted when it took its space |
| AllocAdmission.NobodyIsRefusedIfAllFit | pkg/vgpu/oversub.go:145-157 | when all sizes fit the virtual cap together, no interleaving of Allocs and Frees refuses anybody |
| AllocAdmission.RefusedNeverFits | pkg/vgpu/oversub.go:145-157 | without frees a refused call does not fit at any later moment |
| AllocAdmission.FittingAllocsAreGranted | pkg/vgpu/oversub.go:144-181 | Allocs that fit together are each granted within 4n + 1 turns |
| AllocAdmission.AllocAlone | pkg/vgpu/oversub.go:144-181 | an Alloc that runs alone is granted exactly if it fits, and fills physical memory before swap |
| AllocAdmission.FreeAlone | pkg/vgpu/oversub.go:184-200 | a Free that runs alone gives back its size, out of swap first |
| UInt64.WrapIsModular | pkg/vgpu/oversub.go:186-186 | the wrapped operations are arithmetic modulo 2^64 |
| UInt64.SubByComplement | pkg/vgpu/oversub.go:186-198 | adding the complement of n - 1 is subtraction of n modulo 2^64, for every n including 0 |
| Oversub.OversubManager.constructor | pkg/vgpu/oversub.go:134-140 | a new manager has the given caps and all counters at zero |
| Oversub.OversubManager.Alloc | pkg/vgpu/oversub.go:144-181 | grants exactly when the wrapped sum is within the cap, adds the whole size, and keeps the three counters the split of the virtual use whenever the sum does not wrap |
| Oversub.OversubManager.Free | pkg/vgpu/oversub.go:184-200 | subtracts the size, gives swap back first, and keeps the split when no more is freed than is in use |
| Oversub.OversubManager.NeedsSwap | pkg/vgpu/oversub.go:204-206 | true exactly when granting the size would grow swap |
| Oversub.AdmissionTestIsSoundIffNoWrap | pkg/vgpu/oversub.go:145-150 | the cap test is the intended test if and only if the sum fits in 64 bits |
| Oversub.HugeRequestIsGranted | pkg/vgpu/oversub.go:145-150 | a concrete wrapping request that the test lets through |
| Oversub.RunUsesWhatWasGranted | pkg/vgpu/oversub.go:144-200 | after every legal sequential run the virtual use is what was granted less what was freed, and balanced runs return all counters to zero |
| Lru.LRUTracker.constructor | pkg/vgpu/oversub.go:60-66 | a new tracker is empty and well-formed |
| Lru.LRUTracker.Touch | pkg/vgpu/oversub.go:69-79 | moves or inserts the address at the front and leaves the rest in order; list, links and map stay in exact agreement |
| Lru.LRUTracker.Evict | pkg/vgpu/oversub.go:83-94 | returns and removes the last address, or returns 0 and changes nothing when empty |
| Lru.LRUTracker.Remove | pkg/vgpu/oversub.go:97-104 | takes exactly that address out, if tracked, keeping the order of the others |
| Lru.LRUTracker.Len | pkg/vgpu/oversub.go:107-111 | list length, order length and map size are the same number |
| Lru.IndexedMeansAgreement | pkg/vgpu/oversub.go:48-58 | an indexed list has no duplicate address and lists exactly the mapped ones |
| Lru.PageOf | pkg/vgpu/oversub.go:298-307 | clearing the low bits gives the 2 MiB page that contains the address |
| Lru.OnCuLaunchKernel | pkg/vgpu/oversub.go:298-307 | a launch touches the pages of its addresses in order, and does nothing without a tracker |
| LruHistory.OrderIsRecency | pkg/vgpu/oversub.go:69-104 | over every history the tracker holds exactly the addresses touched and not taken out since, once each, in descending order of last touch |
| LruHistory.EvictReturnsOldest | pkg/vgpu/oversub.go:83-94 | the evicted address is the tracked one whose last touch is oldest |
| LruHistory.TrackerGrowsWithoutBound | pkg/vgpu/oversub.go:48-79 | for every n up to the number of addresses some history leaves n tracked |
| LruHistory.ZeroIsAmbiguousOnlyForPageZero | pkg/vgpu/oversub.go:83-94 | Evict returns 0 if and only if nothing is tracked or page 0 itself is the oldest |
| LruHistory.BatchMovesPagesToFront | pkg/vgpu/oversub.go:298-307 | a launch moves its distinct pages to the front, the last used first, and keeps the others in order behind them |
| UploadPool.WithDefaults | pkg/checkpoint/uploader.go:47-62 | each positive setting is kept; the others become 4 workers, a buffer of 64, 5 minutes and 3 attempts |
| UploadPool.BackoffIsExactIffBelow30 | pkg/checkpoint/uploader.go:253-253 | the wait is 10 s times 2^attempt if and only if the attempt is at most 29; beyond, int64 overflows |
| UploadPool.StepKeepsPlace | pkg/checkpoint/uploader.go:144-268 | no action loses or duplicates a snapshot |
| UploadPool.EachSnapshotInOnePlace | pkg/checkpoint/uploader.go:144-268 | in every run each accepted snapshot is in exactly one of queue, worker, retry timer, succeeded, exhausted, dropped |
| UploadPool.StepKeepsDiscipline | pkg/checkpoint/uploader.go:200-268 | attempt numbers, numbers of Saves and due times stay consistent under every action |
| UploadPool.StepKeepsCounts | pkg/checkpoint/uploader.go:200-268 | pending, succeeded and failed account for every queued, running and finished Save |
| UploadPool.RunKeepsAll | pkg/checkpoint/uploader.go:144-268 | these invariants hold in every run: finished Saves are succeeded plus failed, each success counted once |
| UploadPool.SavesAreFewAndSpaced | pkg/checkpoint/uploader.go:246-267 | no snapshot sees more than MaxRetries Saves, and with MaxRetries at most 31 attempt a starts at least 10 s times (2^a - 1) after the first |
| UploadPool.SettledStaysSettled | pkg/checkpoint/uploader.go:219-268 | after success, exhaustion or a drop nothing more happens to the snapshot: in particular no Save after a success |
| UploadPool.ShutdownDrains | pkg/checkpoint/uploader.go:165-198 | once all workers have left after Shutdown, every accepted snapshot is settled or on a retry timer |
| UploadPool.RunPanicsIffChannelUsedAfterClose | pkg/checkpoint/uploader.go:144-172 | a run panics if and only if a submission, a due retry or a second Shutdown comes after its first Shutdown |
| UploadFlow.QueueFitsTheBuffer | pkg/checkpoint/uploader.go:144-155 | in every run the queue holds no more tasks than the buffer |
| UploadFlow.AcceptedIffRoom | pkg/checkpoint/uploader.go:144-155 | a submission is accepted, and put at the end of the queue, exactly if the channel is open and has room; nothing else accepts a snapshot |
| UploadFlow.AcceptsWhatFits | pkg/checkpoint/uploader.go:144-155 | in every run as many snapshots are accepted as submissions found the channel open with room |
| UploadFlow.FirstInFirstOut | pkg/checkpoint/uploader.go:144-198 | what was put into the channel is what workers received and what is still queued, in the same order |
| UploadFlow.RaisesSettlePending | pkg/checkpoint/uploader.go:144-155 | once every Enqueue has raised it, the pending counter is what is queued or just received |
| UploadFlow.OutcomeIsEarned | pkg/checkpoint/uploader.go:219-268 | a snapshot succeeded if and only if one of its Saves returned without error, was exhausted if and only if its last allowed Save failed, and was dropped if and only if a retry found the channel full |
| UploadFlow.FailedSaveIsRetried | pkg/checkpoint/uploader.go:246-267 | a failed Save sets a retry timer for the next attempt, due after the backoff, if and only if fewer than MaxRetries Saves were made |
| UploadFlow.ShutdownCanFinish | pkg/checkpoint/uploader.go:165-198 | once the channel is closed the workers alone can bring every queued task to its end and leave |
| UploadOverflow.ReachAttempt | pkg/checkpoint/uploader.go:246-267 | a run whose k-th attempt comes exactly as early as the bound allows: the spacing bound is tight |
| UploadOverflow.SpacingFailsAbove31 | pkg/checkpoint/uploader.go:253-253 | for every MaxRetries above 31 a run in which attempt 31 starts at the same time as attempt 30 |
| Storage.ListingIsUnique | pkg/checkpoint/storage.go:55-77 | the ascending listing of a job is determined by the set of its committed snapshots |
| Storage.SortIsAscending | pkg/checkpoint/storage_s3.go:324-328 | sorting by sequence number is strictly ascending when the numbers differ |
| Storage.JobKeyRoundTrip | pkg/checkpoint/storage.go:47-49 | splitting a job key gives back namespace and job if and only if the namespace has no slash |
| Storage.MalformedKeys | pkg/checkpoint/storage_pvc.go:136-139 | a key names no job if and only if it has no slash |
| Storage.BytesAddUp | pkg/checkpoint/storage_pvc.go:60-78 | the recorded size is the sum of the lengths of the files |
| Storage.OverlayLookup | pkg/checkpoint/storage_pvc.go:46-90 | writing files over a snapshot replaces namesakes and leaves every other file as it was |
| Storage.FreshSaveIsAtomicIffNoEarlyMeta | pkg/checkpoint/storage_pvc.go:46-90 | over whatever has no readable metadata: at every point at which a Save may stop, a listed snapshot has all its files, if and only if no source file but the last reads as its metadata |
| Storage.SecondSaveIsAtomicIffMetaBreaksFirst | pkg/checkpoint/storage_pvc.go:46-90 | over a committed snapshot: what is listed at every stopping point is the old snapshot or has all new files, if and only if the source starts with a meta.json that cannot be read or holds no other file |
| Storage.StoppedBetweenFiles | pkg/checkpoint/storage_s3.go:126-169 | stopped between two files, a snapshot is listed exactly if the last meta.json written, or else the earlier one, can be read, and complete exactly if no remaining file differs from what was there |
| Storage.StoppedBetweenFilesIsMixedIff | pkg/checkpoint/storage_s3.go:126-169 | over a committed snapshot that leaves a listed mixture of old and new files if and only if files that change lie on both sides and no unreadable meta.json was copied |
| Storage.MetaSurvives | pkg/checkpoint/storage_pvc.go:46-90 | short of finishing, a Save makes no metadata readable that was not readable before |
| Storage.FinishedIsSaved | pkg/checkpoint/storage_pvc.go:46-90 | a Save that runs to its end leaves readable metadata with the right size, every plain file, and nothing else if there was nothing before |
| Storage.SavedIsLoaded | pkg/checkpoint/storage_contract_test.go:37-72 | loading such a snapshot to an empty directory yields exactly those files |
| Storage.LoadReturnsWhatWasSaved | pkg/checkpoint/storage_pvc.go:94-131 | loading a finished fresh Save gives exactly the source's plain files |
| Storage.SecondSaveOverlays | pkg/checkpoint/storage_pvc.go:46-90 | after saving again, new files have replaced their namesakes and stale ones are still there |
| Storage.SecondSaveReplacesIffAllRenewed | pkg/checkpoint/storage_pvc.go:46-90 | a second Save ends like a fresh one if and only if every old file other than meta.json has a new namesake |
| Storage.SaveKeepsFlatNames | pkg/checkpoint/storage_s3.go:126-169 | saves keep file names flat, which Load from the key space relies on |
| Storage.CopyFilesTo | pkg/checkpoint/storage_pvc.go:94-131 | copies the chosen files over the destination; stopped before or within a file it has copied some of them, and perhaps part of one more |
| Pruning.VisibleAreListed | pkg/checkpoint/storage_s3.go:309-316 | a listing that passes over unreadable snapshots is the whole listing without them |
| Pruning.SurvivorsAreListed | pkg/checkpoint/storage_pvc.go:183-204 | after deletions the listing is the earlier one without exactly the deleted snapshots, in order |
| Pruning.PruneOneMore | pkg/checkpoint/storage_pvc.go:183-204 | one more deletion takes exactly that snapshot out of the listing and touches no other job |
| Pruning.PruneOneHalf | pkg/checkpoint/storage_pvc.go:183-204 | a deletion that fails half way takes the snapshot out of the listing exactly if it takes its metadata |
| Pruning.NewestSurvive | pkg/checkpoint/storage_pvc.go:183-204 | however many snapshots are passed over and wherever the deletions stop, the newest `keep` committed ones survive |
| Pruning.SuffixIffNoneSkippedIsOlder | pkg/checkpoint/storage_pvc.go:183-204 | what survives is the newest part of the job's snapshots if and only if no snapshot that was passed over is older than a deleted one |
| Pruning.PruneMeans | pkg/checkpoint/storage_pvc.go:183-204 | these facts together, for every outcome of a Prune |
| Pruning.UnskippedSurvivors | pkg/checkpoint/storage_contract_test.go:122-163 | if nothing is passed over, exactly the newest `keep` survive |
| Pruning.OldestSkippedOutlivesNewer | pkg/checkpoint/storage_s3.go:309-316 | with the metadata of 1 unreadable, a Prune of 1, 2 and 3 to one snapshot lists 2 and 3 and leaves 1 and 3, which is no suffix |
| Pruning.SecondListing | pkg/checkpoint/storage_s3.go:359-373 | after a Prune that succeeded, a listing that reads everything has at most `keep` entries if and only if there were no more before or the first listing had read everything |
| Pruning.NothingNewIsRead | pkg/checkpoint/storage_s3.go:359-373 | after a Prune that succeeded, a listing that reads nothing the first could not has at most `keep` entries |
| Pruning.DeletingChanges | pkg/checkpoint/storage_s3.go:359-373 | a Prune that deletes anything listed changes the snapshots |
| StoragePvc.JoinAddsOneIffProper | pkg/checkpoint/storage_pvc.go:208-211 | joining a name to a path adds it as one component if and only if it is not empty, "." or ".." and has no slash |
| StoragePvc.SnapDirsAreApart | pkg/checkpoint/storage_pvc.go:208-211 | for such names one snapshot's directory is inside another's if and only if they are the same snapshot |
| StoragePvc.DescendsAsCleaned | pkg/checkpoint/storage_pvc.go:208-211 | joining segments one by one is going up and then down by their cleaned form |
| StoragePvc.SnapDirsCoincideIff | pkg/checkpoint/storage_pvc.go:208-211 | for any names two snapshots share their directory if and only if their numbers are equal and their cleaned names lead to the same place; below the root, if and only if the cleaned names are the same |
| StoragePvc.SnapDirsCoincideEverywhereIff | pkg/checkpoint/storage_pvc.go:208-211 | they share it whatever the root is if and only if cleaned names and numbers are the same |
| StoragePvc.SlashedNamesMerge | pkg/checkpoint/storage_pvc.go:208-211 | moving a slash between namespace and job gives another job the same directories |
| StoragePvc.WriteRefines | pkg/checkpoint/storage_pvc.go:46-90 | writing a snapshot's directory changes exactly that entry of the abstract map |
| StoragePvc.RemoveRefines | pkg/checkpoint/storage_pvc.go:171-179 | removing a snapshot's directory removes exactly that entry |
| StoragePvc.KeptIsFaithful | pkg/checkpoint/storage_pvc.go:135-167 | every committed snapshot's metadata names that snapshot |
| StoragePvc.LocalPVCBackend.Save | pkg/checkpoint/storage_pvc.go:46-90 | whatever the names, wherever it stops and whatever it then reports, only the snapshot's directory changes, to the old files overlaid by what was written so far, with meta.json last; for proper names this is one entry of the abstract map. If it reports success the snapshot is committed, with all its files and metadata that gives their total size |
| StoragePvc.LocalPVCBackend.Load | pkg/checkpoint/storage_pvc.go:94-131 | copies every file but meta.json over the destination, some of them and perhaps part of one when it is stopped, and reports a missing or unreadable directory |
| StoragePvc.LocalPVCBackend.List | pkg/checkpoint/storage_pvc.go:135-167 | returns the job's committed snapshots in strictly ascending order, without exactly those whose metadata it fails to read; fails exactly for a malformed key or a job directory that is there and cannot be read |
| StoragePvc.LocalPVCBackend.Delete | pkg/checkpoint/storage_pvc.go:171-179 | removes exactly one snapshot, or leaves some of its files when removal fails |
| StoragePvc.LocalPVCBackend.Prune | pkg/checkpoint/storage_pvc.go:183-204 | deletes the oldest of what it lists until `keep` are left or a deletion fails; whatever is passed over or fails, exactly the deleted are gone, the newest `keep` survive, other jobs are untouched, and the survivors are a suffix of the whole listing if and only if nothing passed over is older than something deleted |
| StoragePvc.LocalPVCBackend.PruneTwice | pkg/checkpoint/storage_pvc.go:183-204 | after a Prune that succeeded, a second one changes nothing if it cannot list or lists at most `keep`, and changes something if it lists more and no deletion fails; it lists no more if it reads nothing the first could not, and if it reads everything, exactly when the first had read everything or had nothing to delete |
| StoragePvc.LocalPVCBackend.SaveAndRead | pkg/checkpoint/storage_contract_test.go:37-94 | what is saved is in the listing, with its total size, and loads back as the files of the source |
| StoragePvc.LocalPVCBackend.DeleteAndRead | pkg/checkpoint/storage_contract_test.go:96-120 | what is deleted is not listed and cannot be loaded; the rest of the job is listed as before |
| StorageS3.JobKeysParse | pkg/checkpoint/storage_s3.go:377-384 | for slash-free names a key determines namespace, job and checkpoint directory, whatever follows |
| StorageS3.PrefixesAreApart | pkg/checkpoint/storage_s3.go:377-384 | a key of one snapshot starts with another's prefix if and only if they are the same snapshot: seq 1 against 10 and numbers wider than five digits included |
| StorageS3.PrefixesCoincideIff | pkg/checkpoint/storage_s3.go:377-384 | for any names two snapshots share their keys if and only if their job keys and their numbers are equal |
| StorageS3.SlashedNamesCollide | pkg/checkpoint/storage_s3.go:377-384 | moving a slash between namespace and job gives another job the same keys |
| StorageS3.SlashedPrefixIsDeeper | pkg/checkpoint/storage_s3.go:377-384 | no metadata of a slash-free snapshot lies below the prefix of one with a slash in a name |
| StorageS3.WriteRefines | pkg/checkpoint/storage_s3.go:126-169 | changes below one snapshot's prefix change exactly that entry of the abstract map |
| StorageS3.KeptIsFaithful | pkg/checkpoint/storage_s3.go:292-329 | every committed snapshot's metadata names that snapshot |
| StorageS3.BaseOfKey | pkg/checkpoint/storage_s3.go:219-266 | the base name of an object key is the file name it was made from |
| StorageS3.TrimmedIs | pkg/checkpoint/storage_s3.go:377-384 | all slashes at the end of the configured prefix are taken off, and nothing else |
| StorageS3.KeyLayout | pkg/checkpoint/storage_s3.go:377-384 | a key is prefix, namespace, job, ckpt-00007 for number 7, and file name, with slashes between them |
| StorageS3.S3Backend.Save | pkg/checkpoint/storage_s3.go:126-169 | whatever the names, after any number of puts and whether or not the put that reports failure took effect, only keys below the snapshot's prefix change, to the old files overlaid by those put, with meta.json last; for slash-free names this is one entry of the abstract map. If it reports success the snapshot is committed, with all its files and metadata that gives their total size |
| StorageS3.S3Backend.UploadFiles | pkg/checkpoint/storage_s3.go:139-158 | uploads the plain files in order and counts their bytes, up to the first failure, with or without that file |
| StorageS3.S3Backend.Load | pkg/checkpoint/storage_s3.go:219-266 | fetches every file but meta.json of a committed snapshot over the destination, some of them and perhaps part of one on failure, and fails when meta.json cannot be read |
| StorageS3.S3Backend.List | pkg/checkpoint/storage_s3.go:292-329 | returns the job's committed snapshots in strictly ascending order, without exactly those whose metadata it fails to fetch; fails exactly for a malformed key or a failing listing request |
| StorageS3.S3Backend.Delete | pkg/checkpoint/storage_s3.go:333-355 | removes exactly the objects below one prefix, or leaves some or none of them when a request fails; for slash-free names that is one snapshot |
| StorageS3.S3Backend.Prune | pkg/checkpoint/storage_s3.go:359-373 | deletes the oldest of what it lists until `keep` are left or a deletion fails; whatever is passed over or fails, exactly the deleted are gone, the newest `keep` survive, other jobs are untouched, and the survivors are a suffix of the whole listing if and only if nothing passed over is older than something deleted |
| StorageS3.S3Backend.PruneTwice | pkg/checkpoint/storage_s3.go:359-373 | after a Prune that succeeded, a second one changes nothing if it cannot list or lists at most `keep`, and changes something if it lists more and no deletion fails; it lists no more if it reads nothing the first could not, and if it reads everything, exactly when the first had read everything or had nothing to delete |
| StorageS3.S3Backend.SaveAndRead | pkg/checkpoint/storage_contract_test.go:37-94 | what is saved is in the listing, with its total size, and loads back as the files of the source |
| StorageS3.S3Backend.DeleteAndRead | pkg/checkpoint/storage_contract_test.go:96-120 | what is deleted is not listed and cannot be loaded; the rest of the job is listed as before |
| Text.PaddedRoundTrip | pkg/checkpoint/storage_s3.go:381-384 | zero-padded numbers read back as themselves at every width, so no two print alike |
| Text.CkptNameLayout | pkg/checkpoint/storage_s3.go:381-384 | the directory of a checkpoint is ckpt- and its number, filled up with zeros to five digits and no further |
| Text.SplitIsUnique | pkg/checkpoint/storage_s3.go:377-384 | what stands before and after the first separator is determined by the whole |
| Text.SplitAtLast | pkg/checkpoint/storage_s3.go:377-384 | what stands before and after the last separator is determined by the whole |
| JsonPatch.PointerRoundTrip | cmd/webhook/main.go:222-234 | a JSON pointer made of any tokens is read back as those tokens, escapes included |
| JsonPatch.ApplyConcat | cmd/webhook/main.go:182-186 | applying two patch lists one after the other is applying their concatenation |
| JsonPatch.AddInserts | cmd/webhook/main.go:182-186 | adding at an index moves the later items up, "-" appends, and any other place in an array is an error |
| Webhook.AnyRequestsVgpu | cmd/webhook/main.go:192-211 | finds whether some container requests a resource whose name contains vgpu |
| Webhook.ContainsIffOccurs | cmd/webhook/main.go:202-202 | the substring test is true if and only if the substring occurs at some position |
| Webhook.RequestsVgpuIff | cmd/webhook/main.go:196-207 | a container asks for a vgpu if and only if resources.requests is an object with a key that has "vgpu" somewhere in it |
| Webhook.HasVgpuIff | cmd/webhook/main.go:192-207 | a pod does if and only if some container in the list spec.containers does |
| Webhook.BuildMutationPatches | cmd/webhook/main.go:189-276 | emits the annotation patches and, per container, one patch that creates the environment or two that append to it |
| Webhook.AnnotationPaths | cmd/webhook/main.go:213-234 | the escaped paths point at the two annotations |
| Webhook.EnvPaths | cmd/webhook/main.go:236-273 | the formatted paths point at the container's environment and at its end |
| WebhookEffect.EnvPatchesEdit | cmd/webhook/main.go:236-273 | applied in order, the environment patches append the two entries at the end of every container's environment |
| WebhookEffect.AnnotationPatchesEdit | cmd/webhook/main.go:213-234 | applied in order, the annotation patches add the two annotations and keep the others |
| WebhookEffect.PatchesPerformTheEdit | cmd/webhook/main.go:189-276 | without a vGPU request there is no patch; otherwise applying the list fails exactly when the pod has no metadata object, and else yields the pod with just the two annotations and the two entries per container |
| WebhookEffect.EditedPod | cmd/webhook/main.go:189-276 | the edited pod differs only in metadata and spec, its spec only in the containers, each of them edited |
| WebhookEffect.EditedContainer | cmd/webhook/main.go:236-273 | an edited container has the two environment entries, spelled out, behind its own, and all else as it was |
| WebhookEffect.EditedMetadata | cmd/webhook/main.go:213-234 | edited metadata has the two annotations, spelled out, among the others, and all else as it was |
| CircuitBreaker.WithDefaults | pkg/checkpoint/circuit_breaker.go:77-92 | positive limits are kept, others become 3 failures and 30 s |
| CircuitBreaker.TrailingFailures | pkg/checkpoint/circuit_breaker.go:130-152 | the length of the run of failures at the end of the recorded outcomes |
| CircuitBreaker.CircuitBreaker.CurrentState | pkg/checkpoint/circuit_breaker.go:95-109 | the effective state is a function of the recorded outcomes and the clock: closed while the run is short, open until the pause is over, half-open after it |
| CircuitBreaker.CircuitBreaker.Allow | pkg/checkpoint/circuit_breaker.go:112-127 | lets a call through exactly when the effective state is not open |
| CircuitBreaker.CircuitBreaker.RecordSuccess | pkg/checkpoint/circuit_breaker.go:130-138 | appends a success; the failure count stays the length of the trailing run |
| CircuitBreaker.CircuitBreaker.RecordFailure | pkg/checkpoint/circuit_breaker.go:141-152 | appends a failure; the failure count stays the length of the trailing run |
| CircuitBreaker.ProtectedCheckpointer.Dump | pkg/checkpoint/circuit_breaker.go:168-179 | reaches the inner checkpointer exactly when the breaker is not open, and records exactly the outcomes of calls that reached it |
| CircuitBreaker.ProtectedCheckpointer.PreDump | pkg/checkpoint/circuit_breaker.go:181-192 | the same for PreDump |
| CircuitBreaker.ProtectedCheckpointer.Restore | pkg/checkpoint/circuit_breaker.go:194-205 | the same for Restore, with process id 0 when rejected and the inner id otherwise |
| CircuitBreaker.StreakInvariant | pkg/checkpoint/circuit_breaker.go:103-152 | after opening, each further failure of a streak came at least OpenDuration after the one before |
| CircuitBreaker.FailingStreakIsThrottled | pkg/checkpoint/circuit_breaker.go:103-152 | one call after the other: in a failing streak whose count reached MaxFailures at t0, at most MaxFailures + (T - t0) / OpenDuration calls reach the inner checkpointer by time T |
| BreakerTraffic.StepInGroup | pkg/checkpoint/circuit_breaker.go:103-152 | the calls let through after opening come in groups of at most c, each at least OpenDuration after a failure of the one before |
| BreakerTraffic.OverlappingStreakIsThrottled | pkg/checkpoint/circuit_breaker.go:103-205 | with at most c calls under way at a time, at most MaxFailures - 1 + c * (1 + (T - t0) / OpenDuration) are let through by time T |
| BreakerTraffic.CrowdMeetsTheBound | pkg/checkpoint/circuit_breaker.go:103-205 | for every c and every number of pauses some run lets exactly that many through |
| BreakerTraffic.OneProbeIffOneCaller | pkg/checkpoint/circuit_breaker.go:112-127 | the bound for calls one after the other holds of all overlapping runs if and only if c is at most 1 |
| FaultDetector.IsNodeReady | pkg/hacontroller/fault_detector.go:146-153 | ready exactly when the first Ready condition is True; no Ready condition means not ready |
| FaultDetector.NotReadyIff | pkg/hacontroller/fault_detector.go:146-153 | a node is not ready if and only if it has no Ready condition or its first one is False or Unknown |
| FaultDetector.FaultDetector.constructor | pkg/hacontroller/fault_detector.go:39-53 | nothing is tracked at the start |
| FaultDetector.FaultDetector.CheckNode | pkg/hacontroller/fault_detector.go:99-143 | one observation moves only that node's track, and raises a fault exactly when its automaton does |
| FaultDetector.FaultDetector.CleanUp | pkg/hacontroller/fault_detector.go:89-95 | forgets exactly the tracked nodes that are not listed |
| FaultDetector.FaultDetector.Poll | pkg/hacontroller/fault_detector.go:76-96 | each node's new track and faults are a function of what the poll shows of that node alone; only listed nodes are tracked afterwards; a failed List changes nothing |
| FaultDetector.FaultDetector.Run | pkg/hacontroller/fault_detector.go:56-73 | over any series of polls each node's faults are a function of its own observations |
| FaultDetector.EpisodeFaultsOnce | pkg/hacontroller/fault_detector.go:99-143 | a NotReady episode raises no fault while it is shorter than the threshold, and otherwise exactly one, at the first poll past the threshold |
| FaultDetector.EpisodesAreIndependent | pkg/hacontroller/fault_detector.go:99-143 | the faults of a history split at an episode are those before it, its own, and those after it, each as if alone |
| FaultDetector.FaultIsPrompt | pkg/hacontroller/fault_detector.go:99-143 | with polls at most P apart the one fault comes between threshold and threshold + P after the episode's first poll |
| FaultDetector.NoFaultIsEarly | pkg/hacontroller/fault_detector.go:117-143 | whenever a fault is raised the node has been NotReady in every observation for at least the threshold |
| HAController.SnapshotDirsAreApart | pkg/hacontroller/controller.go:526-529 | no two checkpoints share a directory, within a job or across jobs |
| HAController.NextDirIsUnpointed | pkg/hacontroller/controller.go:155-193 | the directory a checkpoint is about to write is one no status has pointed at |
| HAController.StepKeeps | pkg/hacontroller/controller.go:132-193 | status, directories and reconciles under way stay consistent under every action |
| HAController.RunKeeps | pkg/hacontroller/controller.go:132-333 | the same over every run |
| HAController.StatusPointsAtWholeCheckpoint | pkg/hacontroller/controller.go:531-562 | in every run the status points at the directory of checkpoint number checkpointCount, whose Dump succeeded, or at none |
| HAController.DumpsNeverTouchPointedDirs | pkg/hacontroller/controller.go:155-193 | in every run no Dump writes a directory any status has ever pointed at, and pointed directories keep their content |
| HAController.RestoresAreSoundAndFew | pkg/hacontroller/controller.go:197-333 | in every run each Restore reads a whole directory that a status pointed at, and at most the configured number run at once |
| HAController.StepKeepsSlots | pkg/hacontroller/controller.go:231-250 | the semaphore count is the number of goroutines inside it, never above capacity |
| HAController.Slots | pkg/hacontroller/controller.go:201-208 | the semaphore has the configured number of slots, or 10 when none is configured |
| HAController.FailureIsDecidedAtTheStart | pkg/hacontroller/controller.go:307-325 | a failed Restore fails the job if and only if the attempts the job started with were within one of the maximum |
| HAController.SnapshotDirLayout | pkg/hacontroller/controller.go:526-529 | the directory of checkpoint 7 of a job, spelled out |
| HAProgress.FaultStartsRestore | pkg/hacontroller/controller.go:215-252 | a fault starts a goroutine that can enter if and only if a slot is free, and can be cancelled while it waits |
| HAProgress.RestoreReadsTheLatest | pkg/hacontroller/controller.go:278-305 | from any reachable state: once it has its slot and has read the status, the goroutine of a job with checkpoints restores from the directory of number checkpointCount, with phase Restoring if that could be set |
| HAProgress.NoCheckpointNoRestore | pkg/hacontroller/controller.go:285-298 | without a checkpoint or without a job it gives its slot back and changes nothing |
| HAProgress.RestoreSucceeds | pkg/hacontroller/controller.go:327-332 | a Restore that succeeds sets the job Running and gives the slot back |
| HAProgress.RestoreFails | pkg/hacontroller/controller.go:307-325 | one that fails sets it Failed if the loaded attempts are within one of the maximum and leaves it alone otherwise; the slot comes back either way |
| HAProgress.PanicGivesTheSlotBack | pkg/hacontroller/controller.go:227-249 | a panic inside a restore gives the slot back |
| HAProgress.CheckpointGoesThrough | pkg/hacontroller/controller.go:132-193 | from any reachable state: a due reconcile of a running job whose Dump succeeds leaves a whole checkpoint under the next number, which the status then points at, and changes nothing else |
| HAProgress.SkippedIsForgotten | pkg/hacontroller/controller.go:158-168 | without pod or process the reconcile ends as if it had not begun |
| HAProgress.FailedDumpIsRetried | pkg/hacontroller/controller.go:178-182 | a failed Dump leaves the status as it was, and the next reconcile takes the same number |
| HAProgress.RestartStartsAfresh | pkg/hacontroller/controller.go:197-208 | after a restart all slots are free, and what the cluster knows is kept |
| Meter.StepKeeps | libvgpu/src/phoenix_meter.c:43-76 | conservation and the pending bound survive every critical section and every shared-memory addition |
| Meter.RunKeeps | libvgpu/src/phoenix_meter.c:43-76 | in every interleaving recorded kernels are flushed plus dropped plus pending plus in hand, flops likewise up to 2^64 per overflow, and pending is at most 999 plus the threads that owe a flush |
| Meter.NothingIsLostIffEstimatesFit | libvgpu/src/phoenix_meter.c:43-76 | with T threads and estimates of at most M flops no interleaving loses flops if and only if (999 + T) * M is below 2^64 |
| Meter.ModestEstimatesLoseNothing | libvgpu/src/phoenix_meter.c:43-76 | below that bound every recorded flop is flushed, dropped, pending or in a thread's hand |
| Meter.ImmodestEstimatesLoseFlops | libvgpu/src/phoenix_meter.c:43-56 | at or above it a run that loses flops |
| Meter.HugeEstimatesLoseFlops | libvgpu/src/phoenix_meter.c:43-56 | two estimates that overflow together lose 2^64 flops |
| Meter.Estimate | libvgpu/src/phoenix_meter.c:43-45 | a positive estimate is kept, and 0 counts as 1024 |
| Meter.AtRestAllIsFlushed | libvgpu/src/phoenix_meter.c:43-76 | when all threads are idle fewer than 1000 kernels are pending and all others are flushed or dropped |
| Meter.FlushedIffMapped | libvgpu/src/phoenix_meter.c:69-75 | while the shared memory stays mapped nothing is ever dropped, and while it stays unmapped nothing is ever flushed |
| Meter.FlushMovesAllPending | libvgpu/src/phoenix_meter.c:58-76 | a flush nobody interrupts moves all that is pending into the shared memory if that is mapped |
| Meter.RecordOwesAtThreshold | libvgpu/src/phoenix_meter.c:43-56 | a thread goes on to flush exactly from the thousandth pending kernel on |
| Scheduler.CanSchedule | cmd/scheduler-extender/main.go:170-195 | accepts exactly the nodes with enough of both resources and no Ready condition other than True |
| Scheduler.AcceptsIff | cmd/scheduler-extender/main.go:170-204 | acceptance, resource by resource: what a node does not mention it does not have, and no Ready condition may be other than True |
| Scheduler.SortIsTheStableOrder | cmd/scheduler-extender/main.go:338-340 | sorting yields the one sequence that is non-increasing and keeps the order of equal scores |
| Scheduler.SortPermutes | cmd/scheduler-extender/main.go:338-340 | no host is lost, added or repeated |
| Scheduler.SliceStable | cmd/scheduler-extender/main.go:338-340 | sorting in place by moving entries forward computes that order |
| Scheduler.NormalizePriorities | cmd/scheduler-extender/main.go:306-341 | the in-place loops compute the rescaled, stably sorted priorities |
| Scheduler.FindRange | cmd/scheduler-extender/main.go:311-322 | one pass finds the smallest and the largest score |
| Scheduler.MinScore | cmd/scheduler-extender/main.go:311-322 | the smallest score is attained and is a lower bound |
| Scheduler.MaxScore | cmd/scheduler-extender/main.go:311-322 | the largest score is attained and is an upper bound |
| Scheduler.RescaleIsStrictIffRangeFits | cmd/scheduler-extender/main.go:333-335 | integer division keeps all scores apart if and only if the range is at most 100 |
| Scheduler.NormalizedRanksByRawScore | cmd/scheduler-extender/main.go:306-341 | the result ranks the hosts by raw score, ties in their original order; only the numbers change |
| Scheduler.NormalizedScores | cmd/scheduler-extender/main.go:306-341 | new scores are within 0..100, strictly order-preserving, with minimum 0 and maximum 100 when they differ and 50 when not |
| Scheduler.ScoreOfAcceptedNode | cmd/scheduler-extender/main.go:259-303 | binpack scores the percentage of its free slices that the pod takes, spread the percentage of free slices in free and requested together, both rounded down; an unknown policy is binpack, and NUMA alignment adds ten up to 100 |
| Scheduler.ScoreOfOtherNode | cmd/scheduler-extender/main.go:259-303 | a node without slices scores 0, one with fewer than requested 100 under binpack |
| Scheduler.RawScores | cmd/scheduler-extender/main.go:237-244 | every node gets its own score, in order |
| Scheduler.Prioritize | cmd/scheduler-extender/main.go:237-247 | the handler's loop scores every node and normalises the list |
| Scheduler.PoliciesAreOpposite | cmd/scheduler-extender/main.go:267-285 | more free slices never raise the binpack score and never lower the spread score |
| Scheduler.FinalRanksAreOpposite | cmd/scheduler-extender/main.go:259-341 | of two accepted nodes, the one binpack finally scores higher, spread scores no higher |
| DevicePlugin.SliceIdsAreApart | cmd/device-plugin/main.go:155-170 | a slice id determines GPU index and slice number |
| DevicePlugin.BuildVgpuDevices | cmd/device-plugin/main.go:155-170 | the nested loops list every slice of every GPU, in order |
| DevicePlugin.DeviceAt | cmd/device-plugin/main.go:155-170 | the device at place g * n + s is slice s of GPU g: its id, index, uuid, health and its share of the memory |
| DevicePlugin.SliceIdLayout | cmd/device-plugin/main.go:155-170 | a slice id is gpu-<index>-slice-<number> in decimal |
| DevicePlugin.SliceIdsAreDistinct | cmd/device-plugin/main.go:155-170 | GPUs with distinct indices get distinct slice ids |
| DevicePlugin.SlicesUseTheGpu | cmd/device-plugin/main.go:155-170 | a GPU's slices add up to at most its memory and lose less MiB than there are slices |
| DevicePlugin.FindDevice | cmd/device-plugin/main.go:261-271 | finds the first device with the id, or none |
| DevicePlugin.Resolve | cmd/device-plugin/main.go:259-276 | the loops find the backing GPUs in first-use order and the memory of the known devices named |
| DevicePlugin.AllocateContainer | cmd/device-plugin/main.go:248-291 | a container's environment preloads libvgpu and states the backing GPUs, the memory limit and the number of ids, and its ratio is ids per slices |
| DevicePlugin.VisibleDevicesDetermineGpus | cmd/device-plugin/main.go:280-280 | the comma-separated list of visible devices names exactly one sequence of GPUs |
| DevicePlugin.JoinConcat | cmd/device-plugin/main.go:280-280 | the list is written with one comma between each two entries |
| DevicePlugin.Allocate | cmd/device-plugin/main.go:248-291 | each container of a request is served on its own |
| DevicePlugin.BackingIsFirstUseOrder | cmd/device-plugin/main.go:255-272 | each backing GPU is listed once, exactly if it is used, in the order of first use |
| DevicePlugin.LimitIsChosen | cmd/device-plugin/main.go:255-272 | a request without repeats gets the memory of exactly the devices it names |
| DevicePlugin.LimitsFitTheGpus | cmd/device-plugin/main.go:248-291 | containers with different slices together never get more memory than the GPUs they were given have |

## Left out

- AllocProtocol.EveryInterleavingIsSafe: requires the sizes of all calls and either cap to add up below 2^64; without that the admission test itself wraps, as `Oversub.HugeRequestIsGranted` shows.
- AllocContention.FinishesInBoundedTurns: counts interleavings of Alloc only; with frees a counter can return to an earlier value.
- Oversub.OversubManager.constructor: takes the product of memory and ratio as an exact real; floating-point rounding is not modelled.
- UploadPool.SavesAreFewAndSpaced: says nothing about upload timeouts inside one Save; a Save ends whenever it ends.
- UploadPool.ShutdownDrains: timers that are still waiting when the channel closes are not drained; when one fires the program panics, which the model shows.
- StoragePvc.LocalPVCBackend.Save: the root is absolute, part of a JSON document does not decode as metadata, and a failing mkdir leaves no new directory.
- StoragePvc.LocalPVCBackend.Load: reads uncommitted snapshots too, as the code does; only the key-space store demands meta.json.
- StoragePvc.LocalPVCBackend.Prune: `keep` is not negative, as in StorageS3; with a negative one the code slices past the end of the listing.
- StorageS3.S3Backend.Save: a put leaves the old object or the new one, whatever it reports; the abstract map speaks of slash-free names, as Kubernetes names are, because others share keys.
- StorageS3.S3Backend.SaveAndRead: needs the file names below the prefix to be free of slashes before the Save, as Load does.
- StorageS3.S3Backend.Load: file names have no slash, which every Save keeps true; objects put there by others are not covered.
- StorageS3.S3Backend.Delete: when a request fails, any subset of the objects may be left, none included.
- Webhook.BuildMutationPatches: the time stamp is a parameter, and requests are read as a set of names because Go's map order is arbitrary.
- WebhookEffect.PatchesPerformTheEdit: works on JSON trees; encoding and decoding of JSON text is not part of this model.
- CircuitBreaker.FailingStreakIsThrottled: is about one caller at a time; BreakerTraffic has the bound for callers that overlap.
- FaultDetector.FaultDetector.Run: the handler goroutines that events start are modelled in HAController, not here.
- HAController.StatusPointsAtWholeCheckpoint: statuses are read fresh, one reconcile per job runs at a time, jobs are not deleted and created again under the same name, and nobody else writes their status.
- HAController.RestoresAreSoundAndFew: the timeout of a Restore is a failing Restore, and a restart of the controller ends the Dumps and Restores of the old process; legal orders of phases are not claimed, because the checkpoint patch sets Running whatever the phase was.
- Meter.RunKeeps: additions to shared memory are atomic and the floating-point total is exact; the shared kernel counter does not reach 2^64, and `phoenix_meter_init`, which resets the pending counts without the lock, only runs before any thread records.
- Scheduler.ScoreOfAcceptedNode: exact arithmetic instead of floating point; the policy flag arrives already recognised.
- Scheduler.SliceStable: the insertion form of Go's stable sort, which Go uses for up to 20 elements; longer slices are merged, with the same specified result.
- DevicePlugin.AllocateContainer: the allocation ratio is kept as an exact fraction; its formatting to four decimals is not modelled.
- DevicePlugin.BuildVgpuDevices: the number of slices is not zero; the code divides by it and would panic.
- DevicePlugin.LimitsFitTheGpus: needs GPU memory that is not negative and no id used twice, which the kubelet provides.
- The VRAM quota in libvgpu: check and record are separate critical sections and frees record nothing, so there is no concurrent quota to prove.
- HTTP and gRPC handlers, kubelet registration, controller-runtime, the AWS SDK, subprocesses and /proc scanning: their outcomes appear as parameters.
- pkg/migration, pkg/billing, pkg/types and the metrics cache: they would add only easy members.
- The web interface, Helm charts, shell scripts, SQL, metrics and logging: nothing to prove.

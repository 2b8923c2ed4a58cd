# installd and dumpstate: verified models

Dafny models of the stateful parts of Android's `installd` and `dumpstate`, and proofs of what they
promise.

- **Cache eviction** (`Fts`, `CacheItems`, `CacheItemFacts`, `CacheTracker`, `Bounce`, `QuotaStops`,
  `TargetStops`, `FreeCache`, `Purge`, `Eviction`, `EvictionRuns`). One pass over an fts stream turns cache
  directories into items; `freeCache` keeps one tracker per UID in a max-heap and bounces between
  trackers, purging from whichever is most over its quota. The walk is proved to meet a description
  of the tree by addresses, the loop is proved to follow a state machine, the heap stays valid
  although its keys change, and everything said about runs of that machine holds for every run. The purges are followed to the disk: at every
  point of every run, each cache directory of each tracker has lost exactly what its own purged
  items stand for and nothing outside the cache directories has changed; a directory all of whose
  items are gone is as one recursive purge would leave it.
- **Lock table** (`LockTable`). Mutexes per user and per package that come and go with their
  holders, as steps of any number of threads.
- **Worker pool and zip queue** (`DumpPool`, `TaskQueue`, `Progress`). A pool on one condition
  variable with spurious wakeups, a task queue drained by several callers, and the progress
  percentages reported meanwhile.
- **Replacing files and data** (`RestorableFile`, `SnapshotRestore`). A file replaced through a work
  file and a backup while any system call may fail, three of them at once, and the restore of an
  app's four storage areas from a snapshot.
- **matchgen** (`MatchGen`, `SwitchCode`, `MatchEmit`). A table of extensions compiled to a trie and
  then to nested C switches, with a semantics of those switches.

Objects whose fields the program updates are classes, loops are loops with invariants, and what
runs on several threads is a transition system whose runs are all interleavings.

## Where the code does less than its comments say

- The quota check of the eviction loop looks at the active tracker before a better one is swapped
  in. The loop can stop while a waiting tracker is over quota (`QuotaStops.EarlyQuotaStopHappens`).
  That is ruled out, whatever the disk and the files, exactly when at most one of the trackers that
  `freeCache` starts with is over quota (`QuotaStops.StopsFairlyExactly`).
- `getCacheRatio` narrows to `int`, which can hide overuse (`CacheTrackers.RatioCanHideOveruse`);
  `CacheTrackers.RatioMeetsQuota` says when it does not. A usage that purging has taken far below
  zero can come out as over quota (`CacheTrackers.RatioCanHideDeficit`), exactly under the condition
  of `CacheTrackers.RatioOfDeficit`, and is then purged again (`QuotaStops.DeficitIsPurged`).
- The sort comparator is not a strict order on directories with equal time and level
  (`CacheTrackers.ComparatorOrder`).
- A tombstoned link or special file that is its own item is truncated, while the walk of a
  directory unlinks it (`Purging.LeafRulesDiffer`).
- In `clearAppData` the result for device-encrypted storage replaces the one for
  credential-encrypted storage, so a failed clear can go unnoticed and a snapshot is then copied
  over old data (`SnapshotRestore.HiddenFailureMixes`). A reported success can be trusted exactly
  for requests that do not ask for both storages (`SnapshotRestore.ClearReports`), and a restore
  exactly for the requests and areas of `SnapshotRestore.SuccessRestoresExactly`.
- When a snapshot copy fails half way, what it wrote stays (`SnapshotRestore.HalfCopyStays`). That is
  ruled out exactly for requests whose snapshots are all empty
  (`SnapshotRestore.FailuresEmptyExactly`).
- When publishing dexopt's output fails and is rolled back, a file that had no original keeps its
  new content (`RestorableFiles.RollbackKeepsNew`) or gets a stale backup
  (`RestorableFiles.RollbackInstallsStale`). `RestorableFiles.RollbackIsOldExactly` tells from the
  disk at the start when neither can happen, and `RestorableFiles.PublishFailingAt` that every
  rollback it speaks of does happen for some failing call.

## Model

| member | source | states |
|---|---|---|
| `CacheItemFacts.WalkMeetsSpecification` | cmds/installd/CacheTracker.cpp:99-164 | the single pass over the fts stream of any tree appends exactly the items of the recursive specification and leaves no group open |
| `CacheItems.WalkNode` | cmds/installd/CacheTracker.cpp:107-161 | the events of one subtree append that subtree's items and raise the parent's modification time to the newest in the subtree, nothing else |
| `CacheItems.WalkAll` | cmds/installd/CacheTracker.cpp:107-161 | the same for the entries of a directory, one after the other |
| `CacheItems.GroupNode` | cmds/installd/CacheTracker.cpp:129-143 | below a group directory every entry is added to the group's item: all sizes, and the newest time |
| `CacheItemFacts.ItemsDescribeTree` | cmds/installd/CacheTracker.cpp:99-164 | an entry has an item, and one only, exactly when it is below the root with no group directory above it; the item has the entry's level, kind, inherited tombstone, size (the whole subtree for a group) and newest time, is linked to the item of its directory, and the sizes add up to all bytes below the root |
| `CacheItemFacts.NewestIsMaximum` | cmds/installd/CacheTracker.cpp:139-161 | the bubbled time is the maximum over the entry and everything below it, and some entry attains it |
| `CacheItemFacts.WalkKeepsParents` | cmds/installd/CacheTracker.cpp:112-161 | parent pointers lead to earlier items, one level up, at least as new |
| `CacheItemFacts.PathsOfItems` | cmds/installd/CacheItem.cpp:59-67 | following parent pointers gives every item the full path of its entry |
| `CacheItemFacts.BuildPath` | cmds/installd/CacheItem.cpp:59-67 | the loop that prepends the parents' names computes that path |
| `CacheTrackers.RatioIsQuotient` | cmds/installd/CacheTracker.cpp:201-207 | for every usage and quota: the ratio is the quotient of 10000 times the usage by the quota, without its fraction, up to a multiple of 2^32 that brings it into 32 bits; and 0 without a quota |
| `CacheTrackers.RatioIsShare` | cmds/installd/CacheTracker.cpp:201-207 | where nothing is cut off, the ratio is the usage in hundredths of a percent of the quota, rounded down |
| `CacheTrackers.RatioIsMonotone` | cmds/installd/CacheTracker.cpp:201-207 | there, a tracker that has used a smaller share of its quota has no larger ratio, so ratios order trackers by their share |
| `CacheTrackers.RatioOrdersShares` | cmds/installd/CacheTracker.cpp:201-207 | conversely, if one ratio is no larger than another, the share of the first exceeds that of the second by less than a hundredth of a percent |
| `CacheTrackers.RatioMeetsQuota` | cmds/installd/CacheTracker.cpp:201-207 | a ratio of at least 10000 means usage at or above quota; the converse holds exactly when the narrowed quotient stays in range |
| `CacheTrackers.RatioCanHideOveruse` | cmds/installd/CacheTracker.cpp:201-207 | an input on which narrowing hides overuse |
| `CacheTrackers.RatioOfDeficit` | cmds/installd/CacheTracker.cpp:201-207 | exactly which negative usages are reported as over quota |
| `CacheTrackers.RatioCanHideDeficit` | cmds/installd/CacheTracker.cpp:201-207 | an input on which a negative usage is reported as over quota |
| `CacheTrackers.ComparatorOrder` | cmds/installd/CacheTracker.cpp:177-187 | when the comparator puts two items before each other, and that it never contradicts newest-first, shallow-first |
| `CacheTrackers.InsertItem` | cmds/installd/CacheTracker.cpp:188-188 | inserting by the comparator keeps a list ordered newest first, shallow first, directories before files, and adds the one item; the others keep their order, and it passes only those the comparator puts it before |
| `CacheTrackers.SortItems` | cmds/installd/CacheTracker.cpp:176-189 | sorting by the comparator permutes the items into newest first, shallow first, directories before files, and is stable: an item overtakes another only if the comparator puts it before that one |
| `CacheTrackers.AncestorsOutlive` | cmds/installd/CacheTracker.cpp:177-188 | items are taken from the back, so when one is taken every directory item above it is still in the list |
| `CacheTrackers.LoadedWellParented` | cmds/installd/CacheTracker.cpp:166-174 | the items of all of a tracker's directories together still have parent pointers to earlier, shallower items that are at least as new |
| `CacheTrackers.CacheTracker.constructor` | cmds/installd/CacheTracker.cpp:37-44 | a new tracker has nothing loaded |
| `CacheTrackers.CacheTracker.LoadItemsFrom` | cmds/installd/CacheTracker.cpp:99-164 | the loop with its nested loop for groups appends the specified items of one directory, or nothing if it cannot be opened |
| `CacheTrackers.CacheTracker.ReadEntry` | cmds/installd/CacheTracker.cpp:107-161 | one turn of the loop advances in the stream and keeps the walk on its specified course |
| `CacheTrackers.CacheTracker.CollectGroup` | cmds/installd/CacheTracker.cpp:129-143 | the nested loop stops behind the entry that closes its group, which every stream holds |
| `CacheTrackers.CacheTracker.LoadItems` | cmds/installd/CacheTracker.cpp:166-190 | all items of all directories, each once, in purge order, sorted stably |
| `CacheTrackers.CacheTracker.EnsureItems` | cmds/installd/CacheTracker.cpp:192-199 | items are loaded the first time and never again |
| `Bounce.StepInv` | cmds/installd/InstalldNativeService.cpp:2544-2596 | every turn of the loop keeps: each tracker is in play once or loaded and used up; items left plus items purged are its sorted list; usage has gone down by exactly what was purged; `needed` is the target less the last reading less the sizes purged since |
| `Bounce.RunInv` | cmds/installd/InstalldNativeService.cpp:2544-2596 | the same at every loop head of every run, for every sequence of free-space readings |
| `Bounce.StepProgress` | cmds/installd/InstalldNativeService.cpp:2544-2596 | every turn uses up one of a bounded number of turns |
| `Bounce.RunsAreShort` | cmds/installd/InstalldNativeService.cpp:2544-2596 | every run has at most two turns for each item and each tracker, and one more |
| `Bounce.PurgeTakesLast` | cmds/installd/InstalldNativeService.cpp:2555-2582 | a purge takes the last item of the active tracker, whose ratio no waiting one exceeds and which is at least 10000 unless quotas are to be ignored |
| `Bounce.PurgesAreFair` | cmds/installd/InstalldNativeService.cpp:2555-2582 | in terms of usage and quota: no waiting tracker has used a larger share of its quota than the one purged, up to a hundredth of a percent |
| `Bounce.PurgesAreOverQuota` | cmds/installd/InstalldNativeService.cpp:2546-2551 | without the defy flag a purged tracker's usage was at or above its quota, or so far below zero that the ratio wraps around |
| `Bounce.PurgesLeaveAncestors` | cmds/installd/InstalldNativeService.cpp:2575-2582 | at every purge in every run the directory items above the purged one are still held, so its path can be built |
| `Bounce.EndStates` | cmds/installd/InstalldNativeService.cpp:2544-2596 | the loop ends only when a reading taken after the last purge meets the target, or every item of every tracker is purged, or quotas are respected and the active tracker is under its own |
| `TargetStops.NeededIsShortfall` | cmds/installd/InstalldNativeService.cpp:2580-2592 | at every loop head, `needed` is the target less the last reading less the bytes purged since that reading |
| `TargetStops.ReadsWhenEnough` | cmds/installd/InstalldNativeService.cpp:2584-2592 | a turn reads free space if and only if it purges, the target is to be kept, and the last reading and the bytes purged since, this purge included, reach the target |
| `TargetStops.NeedsMore` | cmds/installd/InstalldNativeService.cpp:2584-2592 | at every loop head something is still needed, or a reading just taken meets the target and the loop is over |
| `TargetStops.PurgesAreNeeded` | cmds/installd/InstalldNativeService.cpp:2584-2592 | as long as the loop goes on, the last reading and the bytes purged since stay below the target; the turn after which they reach it is exactly the one that reads free space again |
| `TargetStops.MetIsLast` | cmds/installd/InstalldNativeService.cpp:2587-2592 | a reading that meets the target is the last thing the loop does |
| `Bounce.EarlyQuotaStop` | cmds/installd/InstalldNativeService.cpp:2546-2551 | a stop with an over-quota tracker waiting follows a purge that took the active tracker under it |
| `QuotaStops.EarlyStopExactly` | cmds/installd/InstalldNativeService.cpp:2546-2551 | within a run: a stop by the quota check leaves an over-quota tracker waiting if and only if the turn before was a purge made while one was waiting |
| `QuotaStops.RunAtMostOne` | cmds/installd/InstalldNativeService.cpp:2544-2596 | if at most one tracker starts over quota, then at every loop head of every run at most one in play is, and none that waits while another is active |
| `QuotaStops.EarlyStop` | cmds/installd/InstalldNativeService.cpp:2546-2551 | for any trackers of which the furthest over quota and another are over it, a disk and a run that stops with the other waiting |
| `QuotaStops.StopsFairlyExactly` | cmds/installd/InstalldNativeService.cpp:2544-2596 | told from the trackers at the start: over all disks, files, readings and runs, a stop by the quota check leaves no waiting tracker over quota if and only if at most one tracker starts over quota |
| `QuotaStops.EarlyQuotaStopHappens` | cmds/installd/InstalldNativeService.cpp:2546-2551 | two trackers with which a run stops early |
| `QuotaStops.DeficitIsPurged` | cmds/installd/InstalldNativeService.cpp:2546-2582 | a run without the defy flag in which a tracker whose usage is below zero is purged again |
| `FreeCache.TopIsLargest` | cmds/installd/InstalldNativeService.cpp:2529-2533 | the front of the heap has the largest ratio |
| `FreeCache.Push` | cmds/installd/InstalldNativeService.cpp:2536-2536 | adding a tracker keeps the heap and adds just that tracker |
| `FreeCache.Pop` | cmds/installd/InstalldNativeService.cpp:2563-2563 | removes one tracker of maximal ratio and keeps the heap |
| `FreeCache.SiftDown` | cmds/installd/InstalldNativeService.cpp:2563-2563 | restores the heap order below a replaced front |
| `FreeCache.TopDecides` | cmds/installd/InstalldNativeService.cpp:2555-2556 | comparing with the front decides whether any queued tracker is better |
| `FreeCache.HeapFrame` | cmds/installd/InstalldNativeService.cpp:2580-2580 | changing the usage of a tracker that is not queued leaves the heap valid |
| `FreeCache.Populate` | cmds/installd/InstalldNativeService.cpp:2527-2538 | every tracker is queued once, in a valid heap |
| `FreeCache.SwapIn` | cmds/installd/InstalldNativeService.cpp:2557-2566 | swapping trackers is the machine's swap step |
| `FreeCache.PurgeOne` | cmds/installd/InstalldNativeService.cpp:2573-2595 | booking a purge and reading free space again is the machine's purge step |
| `FreeCache.PurgeTurn` | cmds/installd/InstalldNativeService.cpp:2570-2595 | a purge on disk and in the books is the machine's purge step, and the disk is at the stage the purges say |
| `FreeCache.Turn` | cmds/installd/InstalldNativeService.cpp:2553-2596 | one turn of the loop is one step of the machine |
| `FreeCache.GoOn` | cmds/installd/InstalldNativeService.cpp:2545-2595 | the body of the loop stops where the machine does, and otherwise takes one step |
| `FreeCache.BounceAcross` | cmds/installd/InstalldNativeService.cpp:2541-2596 | the loop terminates, its states are a run of the machine that ends where the machine stops, and the disk is what the purges of that run leave |
| `FreeCache.Run` | cmds/installd/InstalldNativeService.cpp:2410-2615 | what is done and returned in each case: failed reading, target already met, unsupported strategy, and otherwise by one last reading after a complete run; and the disk afterwards, unchanged if nothing was done or the no-op flag is set, else evicted by exactly the purges of the run |
| `Purging.PurgeWalk` | cmds/installd/CacheItem.cpp:80-118 | the walk with inherited marks leaves of any directory exactly what the recursive specification keeps, and fails exactly when something is left |
| `Purging.FileSystem.Purge` | cmds/installd/CacheItem.cpp:69-134 | purging replaces the item's subtree by what is kept of it, and changes nothing else |
| `Purging.FileSystem.Visit` | cmds/installd/CacheItem.cpp:81-117 | one entry of the walk |
| `Purging.FileSystem.Truncate` | cmds/installd/CacheItem.cpp:121-124 | empties a regular file and leaves anything else |
| `Purging.PurgeLeavesSurvivors` | cmds/installd/CacheItem.cpp:69-118 | after a purge a path below the item exists exactly when it leads to a regular file under a tombstoned directory or under the item's own flag; those files are empty, the rest are directories |
| `Purging.LeafRulesDiffer` | cmds/installd/CacheItem.cpp:119-131 | a single item and an entry of a directory are treated alike except for tombstoned links and special files |
| `Eviction.ItemDone` | cmds/installd/CacheItem.cpp:69-134 | purging what the items below a directory have left of it leaves what purging the directory outright would |
| `Eviction.ItemIsLocal` | cmds/installd/CacheItem.cpp:69-134 | purging one item changes the disk at and below its path only |
| `Eviction.NextPurge` | cmds/installd/InstalldNativeService.cpp:2573-2580 | purging the next item of one cache directory, with the flag it was loaded with, takes that directory from one stage of its eviction to the next |
| `Eviction.EvictionLeavesSurvivors` | cmds/installd/InstalldNativeService.cpp:2573-2582 | once all items of a cache directory are purged, a path below it exists exactly when it leads to a regular file under a tombstoned directory; those files are empty |
| `EvictionRuns.ItemPath` | cmds/installd/CacheItem.cpp:59-67 | among the items of several directories too, the path an item builds is that of its entry |
| `EvictionRuns.LastIsNext` | cmds/installd/CacheTracker.cpp:177-188 | in a sorted list of the items of any number of directories, the last item has everything below it purged and everything above it in its directory still there |
| `EvictionRuns.PlotsPartition` | cmds/installd/CacheTracker.cpp:166-174 | every item of a tracker belongs to one of its `cache` and `code_cache` directories, and to one only |
| `EvictionRuns.PurgeEvicts` | cmds/installd/InstalldNativeService.cpp:2573-2580 | purging the next item of one directory leaves all other directories of all trackers, and everything else, as they are |
| `EvictionRuns.EvictedIsUnique` | cmds/installd/InstalldNativeService.cpp:2573-2582 | what is said of the disk after some purges determines it |
| `EvictionRuns.LastPurgeEvicts` | cmds/installd/InstalldNativeService.cpp:2573-2580 | at a loop head, the disk holds what is left of the active tracker's last item at the path that item builds, and purging it with its flag gives the disk with this one purge added |
| `EvictionRuns.TurnPurges` | cmds/installd/InstalldNativeService.cpp:2570-2582 | in every run a turn adds one purge, of the last item of a loaded tracker, or none |
| `EvictionRuns.Evictor.constructor` | cmds/installd/InstalldNativeService.cpp:2421-2421 | before the loop nothing is evicted |
| `EvictionRuns.Evictor.PurgeLast` | cmds/installd/InstalldNativeService.cpp:2573-2579 | purges the item at the path it builds, unless the no-op flag is set, and keeps the disk in line with the purges made |
| `EvictionRuns.PurgeRun` | cmds/installd/InstalldNativeService.cpp:2544-2596 | for every run and every point in it, whichever trackers and directories the purges come from: purging what was purged so far, in order, leaves each cache directory with exactly its own purged items done, and everything else as before |
| `EvictionRuns.UnloadedIsUntouched` | cmds/installd/InstalldNativeService.cpp:2563-2565 | at every point of every run, the directories of a tracker that has not been swapped in are still on disk as they were, so loading it late finds the items it stands for |
| `EvictionRuns.ExhaustedEvicts` | cmds/installd/InstalldNativeService.cpp:2544-2596 | when a run has used everything up, each cache directory of each tracker is as one recursive purge of its entries leaves it |
| `LockTable.StepInv` | cmds/installd/InstalldNativeService.cpp:346-418 | every step of every thread keeps pointers, table, mutexes and lock records consistent |
| `LockTable.RunInv` | cmds/installd/InstalldNativeService.cpp:346-418 | the same in every state of every interleaving |
| `LockTable.TableIsConsistent` | cmds/installd/InstalldNativeService.cpp:352-383 | whenever the map lock is free, holders of a key share one mutex, the table's keys are exactly those with a holder, and no weak pointer is expired |
| `LockTable.KeysAreExclusive` | cmds/installd/InstalldNativeService.cpp:397-418 | two threads never hold locks on one key at once unless both are readers of one user, although mutexes are destroyed and made again |
| `LockTable.LockIsGranted` | cmds/installd/InstalldNativeService.cpp:385-401 | in every reachable state: a package lock is granted to a thread if and only if no other thread guards the package, a user lock if and only if nobody guards the user, a read lock if and only if nobody guards the user exclusively |
| `LockTable.UnlockIsGranted` | cmds/installd/InstalldNativeService.cpp:385-388 | what is locked can be unlocked |
| `LockTable.LockingIsLocal` | cmds/installd/InstalldNativeService.cpp:385-418 | a lock or unlock changes the guard of its own holder and of no other, and nothing else changes guards |
| `LockTable.SectionsComplete` | cmds/installd/InstalldNativeService.cpp:346-383 | a constructor or destructor that has the map lock can always go on, is done after a bounded number of its own steps and is not set back by others; the constructor's holder then has a mutex, the destructor's is gone |
| `LockTable.NobodyIsTurnedAway` | cmds/installd/InstalldNativeService.cpp:346-383 | when the map lock is free any key can be asked for, and any holder without a lock can be given up or moved |
| `LockTable.HoldersKeepIdentity` | cmds/installd/InstalldNativeService.cpp:346-383 | a holder keeps its thread and key for life; a move hands both on, with the mutex, and empties the source |
| `LockTable.LockedMutexesLive` | cmds/installd/InstalldNativeService.cpp:367-383 | a mutex that is destroyed is not locked |
| `DumpPool.StepInv` | cmds/dumpstate/DumpPool.cpp:56-180 | every step of owner and workers keeps wakeups, tasks and temporary files accounted for |
| `DumpPool.RunInv` | cmds/dumpstate/DumpPool.cpp:56-180 | the same in every reachable state |
| `DumpPool.PoolSize` | cmds/dumpstate/DumpPool.cpp:75-90 | starting makes as many threads as asked for, four at most; there are never more, and they stay until all are joined |
| `DumpPool.OwnerServes` | cmds/dumpstate/DumpPool.h:120-171 | exactly when the owner can post, start, take a result, delete files and destroy the pool |
| `DumpPool.ThreadsServe` | cmds/dumpstate/DumpPool.cpp:166-180 | what each thread can do next: take a task if there is one, wait if not, leave at shutdown, finish what it runs |
| `DumpPool.TakenInOrder` | cmds/dumpstate/DumpPool.cpp:172-176 | a thread takes the task posted first among those not started, and begins it without a file |
| `DumpPool.TempFiles` | cmds/dumpstate/DumpPool.cpp:35-47 | a temporary file appears exactly when a running task opens it and goes exactly when its result is consumed or all are deleted |
| `DumpPool.DestroyBegins` | cmds/dumpstate/DumpPool.cpp:56-66 | the destructor drops exactly the tasks not started and wakes every waiting thread; without threads it is done |
| `DumpPool.NoLostWakeup` | cmds/dumpstate/DumpPool.cpp:166-180 | with a task queued some worker is neither waiting nor gone; and all are awake or one is on its way for each queued task |
| `DumpPool.TasksAccountedFor` | cmds/dumpstate/DumpPool.h:155-171 | every posted task is in exactly one of queued, running, finished, dropped; tasks start in posting order, once, on one thread |
| `DumpPool.ClosedPoolIsEmpty` | cmds/dumpstate/DumpPool.cpp:56-73 | after the destructor nothing is queued or running and no temporary file is left |
| `DumpPool.ShutdownCompletes` | cmds/dumpstate/DumpPool.cpp:56-73 | during shutdown every thread that has not exited can take a step, each step uses up a measure, and no other step gives any back |
| `DumpPool.ShutdownIsBounded` | cmds/dumpstate/DumpPool.cpp:56-73 | from any state of a shutdown on, the threads together take at most as many steps as that measure says, so every join completes |
| `TaskQueue.StepInv` | cmds/dumpstate/TaskQueue.cpp:27-36 | every step of all concurrent callers keeps each task in one place and its file's fate in line with it |
| `TaskQueue.RunInv` | cmds/dumpstate/TaskQueue.cpp:23-36 | the same in every reachable state |
| `TaskQueue.EntriesAreTaken` | cmds/dumpstate/dumpstate.cpp:3784-3799 | exactly when an entry can be added, and what happens to it: queued if there is a queue, otherwise zipped and deleted at once |
| `TaskQueue.TakenInOrder` | cmds/dumpstate/TaskQueue.cpp:29-31 | a `run` takes the entry enqueued first among those nobody has taken |
| `TaskQueue.RunsKeepFlag` | cmds/dumpstate/TaskQueue.cpp:27-36 | whether a `run` cancels is settled when it begins |
| `TaskQueue.HandledByFlag` | cmds/dumpstate/TaskQueue.cpp:33-33 | an entry handled by a cancelling `run` is deleted and not zipped, by another zipped once and then deleted |
| `TaskQueue.RunsDrain` | cmds/dumpstate/TaskQueue.cpp:27-36 | a `run` can always go on, and returns exactly when it finds the queue empty |
| `TaskQueue.LastRunCancels` | cmds/dumpstate/dumpstate.cpp:3778-3780 | the last `run` cancels all it takes |
| `TaskQueue.InvokedAtMostOnce` | cmds/dumpstate/TaskQueue.cpp:27-36 | across all `run` calls a task has one invocation; its file is deleted once at most, and zipped once at most and before that |
| `TaskQueue.EverythingHandled` | cmds/dumpstate/dumpstate.cpp:3774-3799 | after the last `run` the queue is empty; an entry is handled exactly when no other `run` is at it, its file then deleted exactly once and zipped exactly if not cancelled |
| `ProgressReports.AdvancedOk` | cmds/dumpstate/dumpstate.cpp:4052-4064 | an increment keeps progress within a positive maximum that never shrinks, counts non-negative deltas only, and sets an overrun maximum to eleven tenths of the progress, rounded down |
| `ProgressReports.PercentIsShare` | cmds/dumpstate/dumpstate.cpp:4745-4747 | the percentage is what is done of the maximum, rounded down |
| `ProgressReports.PercentInRange` | cmds/dumpstate/dumpstate.cpp:4745-4747 | it is between 0 and 100 |
| `ProgressReports.UpdatedOk` | cmds/dumpstate/dumpstate.cpp:4727-4769 | an update keeps the reports rising, in range and few |
| `ProgressReports.Progress.constructor` | cmds/dumpstate/dumpstate.cpp:3974-4026 | the maximum is the stored average if the statistics are plausible, and 5000 otherwise |
| `ProgressReports.Progress.Inc` | cmds/dumpstate/dumpstate.cpp:4052-4064 | advances the meter and tells whether the maximum grew |
| `ProgressReports.Reporter.UpdateProgress` | cmds/dumpstate/dumpstate.cpp:4727-4769 | advances the meter and reports the percentage if it is due |
| `ProgressReports.ReportsRise` | cmds/dumpstate/dumpstate.cpp:4727-4769 | after any sequence of updates: progress is the work done and within the maximum, reports are percentages that never fall, at most 100 of them positive, and none without notification |
| `ProgressReports.ReportsAreDue` | cmds/dumpstate/dumpstate.cpp:4743-4768 | after any sequence of updates: exactly when the next one reports, which is when notification is on and every report so far was smaller or zero, and that it reports the percentage then done |
| `ProgressReports.ReportsStay` | cmds/dumpstate/dumpstate.cpp:4727-4769 | at every point of a sequence the reports so far are kept and the maximum only grows |
| `ProgressReports.LastReportCovers` | cmds/dumpstate/dumpstate.cpp:4727-4769 | after any update the last report is at least the current percentage |
| `RestorableFiles.FailedCommitRestored` | cmds/installd/restorable_file.cpp:82-123 | after a backup, a failed commit and a successful restore the original is back |
| `RestorableFiles.RestorableFile.CreateWritableFile` | cmds/installd/restorable_file.cpp:139-152 | only the work file changes, in every state in between; it is opened exactly if there is a path and the call does not fail, and is empty if the stale one could be deleted |
| `RestorableFiles.RestorableFile.Reset` | cmds/installd/restorable_file.cpp:73-80 | only the work file changes, in every state in between |
| `RestorableFiles.RestorableFile.CreateBackupFile` | cmds/installd/restorable_file.cpp:82-93 | what it may do to the three files when it succeeds and when it fails; in every state in between the original is at its path or in the backup |
| `RestorableFiles.RestorableFile.CommitWorkFile` | cmds/installd/restorable_file.cpp:95-110 | the same; the backup is never touched |
| `RestorableFiles.RestorableFile.RestoreBackupFile` | cmds/installd/restorable_file.cpp:112-123 | the same; what was in the backup is at the path or in the backup throughout |
| `RestorableFiles.RestorableFile.RemoveBackupFile` | cmds/installd/restorable_file.cpp:125-127 | deletes the backup unless the unlink fails |
| `RestorableFiles.RestorableFile.RemoveAllFiles` | cmds/installd/restorable_file.cpp:154-158 | deletes the three files unless an unlink fails, and touches no others |
| `RestorableFiles.RestorableFile.ResetAndRemoveAllFiles` | cmds/installd/restorable_file.cpp:133-137 | the same, and the object is empty afterwards |
| `RestorableFiles.BackUpThree` | cmds/installd/dexopt.cpp:2018-2028 | three backups in a row: each original can be found in every state in between |
| `RestorableFiles.CommitThree` | cmds/installd/dexopt.cpp:2029-2029 | three commits in a row: which are done, by the first that fails |
| `RestorableFiles.RestoreThree` | cmds/installd/dexopt.cpp:2032-2033 | three restores in a row |
| `RestorableFiles.CommitOrRestore` | cmds/installd/dexopt.cpp:2029-2042 | commits or restores; which calls fail decides at which commit, and if none fails afterwards the outcome is publication or a rollback at that commit |
| `RestorableFiles.Publish` | cmds/installd/dexopt.cpp:2015-2050 | whatever fails, every original can be found in all states up to the last commit or the removal of everything; and what the three paths hold in each outcome (published, rolled back, everything removed); if no call fails before the commits and none after the first failing commit, which calls fail and which files were written decide the outcome; after a publication no backup is left unless an unlink failed, after a rollback none at all; files with other names are never touched |
| `RestorableFiles.RollbackIsOldExactly` | cmds/installd/dexopt.cpp:2015-2042 | told from the disk at the start: every rollback a publication can end in leaves the three files as they were if and only if each has an original, or has no stale backup and no work file that can be committed before a later commit fails |
| `RestorableFiles.PublishOn` | cmds/installd/dexopt.cpp:2015-2050 | the same from any disk and for any choice of failing calls |
| `RestorableFiles.PublishSmoothly` | cmds/installd/dexopt.cpp:2015-2050 | if no call fails: published if and only if every file was written, with the new content at each path and neither work file nor backup left; otherwise rolled back at the first that was not, without a backup left, and exactly when that rollback leaves the three files as they were |
| `RestorableFiles.PublishFailingAt` | cmds/installd/dexopt.cpp:2029-2042 | every commit that can be the first to fail does fail in some publication, which is then rolled back there |
| `RestorableFiles.RollbackKeepsNew` | cmds/installd/dexopt.cpp:2029-2042 | a disk on which a rollback keeps new content |
| `RestorableFiles.RollbackInstallsStale` | cmds/installd/restorable_file.cpp:112-123 | a disk on which a rollback installs a stale backup |
| `SnapshotRestore.Installd.ClearDirectory` | cmds/installd/InstalldNativeService.cpp:3986-4023 | a delete that succeeds leaves exactly the entries the flags spare: all but the cache, all but the code cache, or none; one that fails leaves what it keeps besides |
| `SnapshotRestore.ClearLeaves` | cmds/installd/InstalldNativeService.cpp:1279-1308 | entry by entry, what a clear leaves of each area: for a cache-only clear what is not in the cache, for a code-cache-only clear what is not in the code cache, otherwise nothing; more only if a delete fails, and everything if the area is not asked for or not reached |
| `SnapshotRestore.Installd.ClearAppData` | cmds/installd/InstalldNativeService.cpp:1267-1355 | what is left of each area, and that the result ignores credential-encrypted storage when device-encrypted storage is cleared too |
| `SnapshotRestore.Installd.DeleteDirsOnFailedRollback` | cmds/installd/InstalldNativeService.cpp:1900-1932 | erases exactly the areas asked for |
| `SnapshotRestore.Installd.RestoreArea` | cmds/installd/InstalldNativeService.cpp:1986-2036 | one phase: goes on with the snapshot copied and deleted, or fails with what was restored before erased |
| `SnapshotRestore.Installd.RestoreAppDataSnapshot` | cmds/installd/InstalldNativeService.cpp:1934-2055 | the state of every area and snapshot after each way the restore can end |
| `SnapshotRestore.RestoreReports` | cmds/installd/InstalldNativeService.cpp:1970-2055 | success is reported if and only if nothing had to be restored, and nothing is touched then, or the clear reported success and no copy and no relabelling failed |
| `SnapshotRestore.NoMixture` | cmds/installd/InstalldNativeService.cpp:1934-2055 | with deletes that succeed and copies that are all or nothing, either every selected area is empty or gone, or each equals its consumed snapshot and is empty where there was none; unselected areas are unchanged; success means the latter |
| `SnapshotRestore.FailureLeavesNothing` | cmds/installd/InstalldNativeService.cpp:1986-2036 | if deletes succeed, after a failed copy nothing is left if and only if that copy wrote nothing |
| `SnapshotRestore.FailuresEmptyExactly` | cmds/installd/InstalldNativeService.cpp:1986-2036 | told from the request: if deletes succeed, every failure leaves nothing if and only if every snapshot to be restored is empty |
| `SnapshotRestore.HalfCopyStays` | cmds/installd/InstalldNativeService.cpp:1986-1994 | a request whose failed copy stays |
| `SnapshotRestore.MixtureByArea` | cmds/installd/InstalldNativeService.cpp:1934-2055 | whatever deletes and copies fail: exactly when each area is as it should be after a success, and empty after a failure; a snapshot is lost only to a copy that succeeded |
| `SnapshotRestore.FailureLosesSnapshots` | cmds/installd/InstalldNativeService.cpp:1986-2036 | a failure loses both data and snapshot of the areas restored before, and keeps the later snapshots |
| `SnapshotRestore.ClearReports` | cmds/installd/InstalldNativeService.cpp:1280-1308 | whatever fails, a reported success means that all was cleared, if and only if the request does not ask for both storages |
| `SnapshotRestore.ReportIsFounded` | cmds/installd/InstalldNativeService.cpp:1279-1355 | a reported success means that no delete failed in the storage whose result counts, nor elsewhere; a reported failure means that something failed |
| `SnapshotRestore.ReportedClearIsClean` | cmds/installd/InstalldNativeService.cpp:1280-1308 | after a full clear that reports success only areas of CE can have kept anything, and only if DE was asked for too |
| `SnapshotRestore.SuccessRestoresExactly` | cmds/installd/InstalldNativeService.cpp:1934-2055 | whatever fails, a reported success means that an area has its snapshot, or nothing where there is none, if and only if the request is for a full clear and does not pair that CE area with DE |
| `SnapshotRestore.RestoredOverLeftovers` | cmds/installd/InstalldNativeService.cpp:1986-2036 | a restored area equals its snapshot if and only if the clear left nothing that the snapshot does not overwrite |
| `SnapshotRestore.HiddenFailureMixes` | cmds/installd/InstalldNativeService.cpp:1280-1308 | a request that succeeds with old data mixed in |
| `MatchGen.LabelsMatch` | cmds/installd/matchgen.py:80-84 | the one or two labels written for a key match exactly the characters that fold to it |
| `MatchGen.CaseOfLetter` | cmds/installd/matchgen.py:80-82 | the letters in one place of the two alphabets are lowered and raised to each other |
| `MatchGen.CaseOfOther` | cmds/installd/matchgen.py:67-82 | any other character is left as it is |
| `MatchGen.LookupIsListed` | cmds/installd/matchgen.py:65-71 | without conflicts, what the last entry for a word says is what the table lists |
| `MatchGen.Generator.Add` | cmds/installd/matchgen.py:67-71 | entering a word keeps the trie that of the words so far; a word of more than five characters is an error |
| `MatchGen.Generator.Build` | cmds/installd/matchgen.py:63-71 | the trie has exactly the prefixes of the table's folded words and their types; it fails exactly on a word that is too long |
| `MatchEmit.ExecArms` | cmds/installd/matchgen.py:76-85 | a switch goes to the arm of the folded character, and nowhere if there is none |
| `MatchEmit.BodyFinds` | cmds/installd/matchgen.py:73-88 | from a dictionary reached by the characters so far, the rest of the string decides |
| `MatchEmit.ProgramLooksUp` | cmds/installd/matchgen.py:73-94 | on every NUL-terminated string the generated code returns what the table has for the folded string, or 0, and reads nothing past the NUL |
| `MatchEmit.ProgramMatchesTable` | cmds/installd/MatchExtensionGen.h:23-797 | for a table without conflicts it returns a type if and only if the folded string is listed under it, and 0 if and only if it is not listed |
| `MatchEmit.ProgramIsWellLabelled` | cmds/installd/MatchExtensionGen.h:23-797 | no switch has a label twice |
| `MatchEmit.Generate` | cmds/installd/matchgen.py:63-94 | the whole generator: an error exactly for a word that is too long, otherwise code that computes the table |

## Left out

- CacheItem objects are records in an arena and pointers to them are indices; an item freed while another points to it is therefore not modelled as such, but `Bounce.PurgesLeaveAncestors` shows that the items a path is built from are still held.
- Purging.FileSystem.Purge: fts entries for unreadable directories, errors and cycles are not modelled, nor are truncate, unlink and rmdir calls that fail, except on a directory that is not empty.
- Purging.FileSystem.Truncate: truncating through a symbolic link reaches its target, which is not modelled.
- EvictionRuns.PurgeRun: the cache directories are those found on disk, none inside another and none changed by anyone else meanwhile; a path is a list of components that starts with the directory's own, so two names for one place are not modelled.
- Bounce: how trackers are created from the users and directories found, and how usage is read from quotas, are inputs; usage is not changed by anyone else during the loop.
- CacheTrackers.RatioMeetsQuota: 64-bit overflow of the usage times 10000 is not modelled.
- CacheTrackers.RatioOfDeficit: the same.
- CacheTrackers.RatioIsQuotient: the same, and so for the other lemmas on the ratio.
- Bounce.PurgesAreFair: says nothing where the purged tracker's usage is below zero or a waiting one's ratio does not fit 32 bits; the wrapped ratio decides there, by `CacheTrackers.RatioIsQuotient` and `Bounce.PurgeTakesLast`.
- CacheTrackers.SortItems: an insertion sort; the library's own algorithm may order directories with equal time and level differently, as the comparator is no strict order there. What is proved of runs therefore leaves the order of items with equal time and level open.
- LockTable: freedom from deadlock, since the order in which locks are taken is not uniform.
- DumpPool: what a task writes; a task that never returns keeps the destructor waiting.
- TaskQueue: the zip file's own contents, and unlink failures, which are only logged. `ShutdownDumpPool` destroys the queue object while a `run` started by `Cancel` may still be inside it (cmds/dumpstate/dumpstate.cpp:3260 and 3780); the object's lifetime is not modelled, and the model lets that `run` go on unharmed.
- ProgressReports.AdvancedOk: the growth factor is exactly 11/10 and integers are unbounded; floating-point rounding and 32-bit overflow are not modelled.
- ProgressReports.Progress.Inc: the same.
- ProgressReports.Progress.constructor: parsing the statistics file is not modelled, nor is saving it.
- RestorableFiles: stat errors other than a missing file; permissions; what the compiler writes into the work files; a crash inside a single system call.
- SnapshotRestore: creating snapshots, quota and profile handling, locks; shared storage and the SDK sandbox only report success or failure; relabelling likewise.
- MatchGen: words that contain NUL, a quote, a backslash or a line break, for which the script does not write valid case labels; the text layout of the generated header; the `--rc` output.
- Binder interfaces, SELinux, extended attribute and property calls; dexopt's compilation; the list of dumpstate's sections, commands, screenshots and zip writing; consent handling in `RunInternal`; size reporting; atrace, dumpsys, cmd, flatland, idlcli, evemu-record and bugreportz: input and output only.

# UniDedup's destor node, modelled and proved in Dafny

`destor/` is a deduplicating backup engine. A backup reads files, cuts them into chunks, fingerprints the
chunks, looks each one up, decides which duplicates to rewrite, puts new chunks into 4 MB containers and
writes a recipe; a restore reads the recipe back through a cache of containers; a deletion drops old backups
and reclaims containers nobody uses. This project models that engine and proves what it is for.

`dafny verify dfyconfig.toml` checks everything.

## The main results

* **Every run is safe** (`Safety.EveryRunIsSafe`). The dedup thread, the filter thread and the append thread
  are a state machine (`Machine`) whose steps are the critical sections of the program; whole backups
  alternate with deletions. Over every legal sequence of steps, in every configuration and with any rewrite
  marks, no `assert` of the program fails, but for one that is treated apart, and one invariant holds: the
  index buffer accounts for exactly the chunks in flight, a temporary id always has its unique copy ahead of
  it, every pointer written names a container that holds the chunk. `Node` is the threads' code, loop by loop,
  refining those steps.
* **The assert at filter_phase.c:186** says that with an exact index and rewriting off no chunk is written into a
  container that holds it. Arbitrary marks could break it (`Har.TripsExactly`); the marks of history-aware
  rewriting, the only ones the program then makes, never do (`Har.HarNeverRepeats`).
* **Backup then restore is the identity** (`Backups.BackupThenRestore`, `Backups.FilesComeBack`,
  `Pipeline.PreparedFilesComeBack`). Every job records exactly the segments fed to it, for any segmentation and
  any interleaving (`Backups.EveryJobRecordsItsInput`), and after any run a finished backup that was not deleted
  is restored to exactly its files, by the LRU, the forward-assembly and the optimal cache
  (`EndToEnd.DoRestore`).
* **The pool file holds the disk** (`Pool.PoolHoldsTheDisk`): over every run, for every container, the bytes of an
  image that reads back as that container; and there always is such a file (`Images.PoolCanFollow`).
* **Garbage collection is exact** (`Safety.ReclaimIsExact`): a container is on disk if and only if a live backup
  points into it, and the index never names a reclaimed one.
* **Exact deduplication** (`ExactDedup.NothingIsStoredTwice`, `ExactDedup.StoredIsFiltered`): with rewriting
  and HAR off no fingerprint is ever in two containers, and the stored set is the set filtered.
* **Belady** (`Belady.BeladyIsOptimal`, `OptCache.OptimalRestoreThread`): with a window over all access records the
  optimal cache reads no more containers than any cache of the same capacity that serves the same requests.
* **The rolling fingerprint is right** (`Rabin`): tables, `append8` and `SLIDE` compute GF(2) remainders of the
  last 48 bytes; the cut functions equal their from-scratch definitions, and chunking does not depend on how
  the file arrives in blocks (`ChunkPhase.ChunkFile`).
* **Back-pressure** (`BackPressure`): with R + S chunks in flight a drained rewriting thread has always passed
  the oldest segment on. The threshold the program sets is R + S - 1, and with it the threads can deadlock; the
  exact condition is `BackPressure.DeadlockExactly` (for fixed-size segments: S divides R - 1).
* **What is decided, not only that it is safe**: where a lookup finds a fingerprint (`StoreInvariant.FoundFirst`),
  which duplicates are rewritten and that none is twice in a segment (`Decisions`), when the dedup thread waits and
  how full the index buffer gets (`Flight`), what an LRU list holds (`Lru.KeepsMostRecent`) and how often it makes
  a restore read (`RestoreThreads.LruRestore`), where rabin cuts in plain remainders (`CutPoints.CutsByRemainder`).
* **Context-based rewriting** (`ContextRewriting.CbrRewrite`): which chunks of a stream are marked, in closed form
  over the stream, for any outcome of the utility comparisons.
* **Capping** (`Rewriting.CapRewrite`), **formats** (`ContainerFile`, `SegmentRecipes`, `Serial`) and **quoting**
  (`Sds`): bounds and round trips for all inputs.

## How the model reads

`Outcome.Crash` stands for a failed `assert` or an `exit(1)`. A fingerprint is a byte string; that digests do not
collide on the chunks seen is the hypothesis `Genuine(item, content)`, where `content` gives the chunk a digest
stands for, and `EndToEnd.InverseIsGenuine` derives it from collision freedom. `Legal` collects what callers owe
a step: genuine chunks that fit into a container, a well-formed file stream, a backup number that exists. Marks
of the rewriting phase are arbitrary inputs of a filter step; the restore-aware cache can only name containers that
the backup has used. `tripped` records a failure of the assert at filter_phase.c:186, where the program would stop.
The index settings are physical locality with uniform sampling at any ratio, any key size and one id per key.

Where code and documentation differ, the model follows the code: the wait threshold; the last flush of capping,
which also marks unique chunks; a duplicate with a temporary id, which capping marks; a segment of 65536 or more
chunks, whose size spills into the offset of its own id (`SegmentRecipes.LongSegmentMisplaced`); a content-defined
segment cut at a boundary chunk, which skips the size test (`Segmenting.ContentBound`).

## Model

| member | source | states |
|---|---|---|
| `Safety.EveryRunIsSafe` | destor/src/filter_phase.c:30-329 | Over every legal run of lookups, filters, append steps, backups and deletions, in every configuration and with any marks: no assert fails (lines 91, 112 and 199 and index.c:301 and 332 among them; line 186 is recorded apart, see Har.HarNeverRepeats) and the node invariant holds in the state reached |
| `Safety.RunFromIsSafe` | destor/src/filter_phase.c:30-329 | The same from any state that satisfies the invariant |
| `Safety.NextOk` | destor/src/index/index.c:140-355 | Every single step of either thread, of the append thread, of job begin and end, and of deletion succeeds and keeps the invariant |
| `Safety.LookupOk` | destor/src/dedup_phase.c:86-96 | A lookup never fails; it keeps the index buffer in step with the chunks in flight, or waits and changes nothing |
| `Safety.FilterStepOk` | destor/src/filter_phase.c:67-307 | One critical section of the filter thread on the oldest segment: whatever the marks it succeeds, and the invariant is kept for the segments behind it |
| `Safety.FilterParts` | destor/src/filter_phase.c:67-248 | What check, loop, buffer update and recipe return on the oldest segment, and the state they leave: every chunk settled in a container that holds it |
| `Safety.FinishOk` | destor/src/filter_phase.c:309-329 | The end of a backup keeps the invariant: the last container is closed, the recipe stands for the stream, every used container is in the manifest |
| `Safety.AppendOk` | destor/src/storage/containerstore.c:24-44 | The append thread may take either of its steps at any moment without breaking the invariant |
| `Safety.DeleteOk` | destor/src/do_delete.c:23-112 | Deleting up to a backup succeeds and keeps the invariant for all later backups |
| `Safety.LiveBackupsRestore` | destor/src/do_restore.c:67-112 | In every reachable state, following the recipe of a backup that was not deleted yields exactly the stream that was backed up, and the size of every file in it is that of its chunks |
| `Safety.ReclaimIsExact` | destor/src/cma.c:83-139 | Between backups a container is on disk if and only if a live backup points into it; its manifest time is the last such backup; every index entry names a container on disk |
| `StoreInvariant.FindDuplicateOk` | destor/src/index/index.c:150-204 | Lookup in the open container, the index buffer, the cache and the key-value store never fails, and what it finds is temporary or a container holding the fingerprint; temporary only if a copy is in flight; a miss means in neither the buffer nor the open container |
| `StoreInvariant.FoundFirst` | destor/src/index/index.c:150-204 | A fingerprint is a duplicate with the id of the first that has it: the open container (denied), the head of its queue in flight, the first cached container, the closed container its key names; it is unique exactly when none has it |
| `StoreInvariant.CacheAfter` | destor/src/index/index.c:171-204 | The fingerprint cache afterwards: unchanged without a search, a hit in front, a prefetched container in front with the last one leaving if the cache was full |
| `StoreInvariant.LookupPrefixOk` | destor/src/index/index.c:140-217 | Looking up a whole segment keeps the index invariant for the chunks in flight plus the segment, and changes no chunk's content |
| `StoreInvariant.MakeRoomOk` | destor/src/filter_phase.c:132-157 | After opening or rolling over the container there is room for the chunk, and nothing stored was lost, moved or added |
| `StoreInvariant.CloseOk` | destor/src/filter_phase.c:140-156 | Closing a container changes only its place: what is held is the same |
| `InFlight.PushFlight` | destor/src/index/index.c:206-214 | Pushing a looked-up chunk: every queue is as long as its fingerprint's copies in flight, ids are temporary or right, temporary only behind a unique |
| `InFlight.PopSegment` | destor/src/index/index.c:319-346 | Popping a settled segment off the queues never fails, and the copies behind it learn their ids: the flight invariant holds for the rest |
| `InFlight.FreshAhead` | destor/src/index/index.c:165-169 | A duplicate with a temporary id has its unique copy ahead of it in flight |
| `FilterInvariant.CheckChunkOk` | destor/src/index/index.c:281-314 | The queue asserted at line 301 is there; after the check an id is temporary or right, and temporary only behind the unique in the same segment |
| `FilterInvariant.FilterChunkOk` | destor/src/filter_phase.c:79-208 | The asserts at lines 91, 112 and 199 hold for any mark; the chunk leaves with the id of a container that holds it, at most this chunk was stored, and its container counts as used |
| `FilterInvariant.FilterPrefixOk` | destor/src/filter_phase.c:77-208 | The same over a whole segment, with the two per-segment tables |
| `Decisions.FilterDecides` | destor/src/filter_phase.c:110-199 | Exactly a unique chunk, or a duplicate neither denied nor rewritten in this segment that is sparse, or out of order with rewriting on and its container not cached, leaves with the id of the container open afterwards, which holds it; any other duplicate changes neither containers nor index and takes the id of the rewritten copy, of the unique copy, or keeps its own |
| `Decisions.WritesOnce` | destor/src/filter_phase.c:122-188 | A chunk to be written is the last one added to the open container and enters the table of unique or of rewritten chunks, unless the container it would go to has it: then nothing changes, and line 186 fails exactly with an exact index and rewriting off |
| `Decisions.RollsWhenFull` | destor/src/filter_phase.c:132-157 | The open container is handed over only by a chunk that does not fit: while it fits the same container stays open and no id is used up |
| `Decisions.SegmentDecides` | destor/src/filter_phase.c:77-208 | Over a segment: a fragmented duplicate that is not denied gets a container open or opened during the segment; a duplicate that is not fragmented keeps its id unless an earlier copy in the segment was marked |
| `Decisions.OneRewritePerSegment` | destor/src/filter_phase.c:115-119 | Once a duplicate has been rewritten, later duplicates of its fingerprint in the segment point to that copy and write nothing |
| `Decisions.MarkedMovesOn` | destor/src/filter_phase.c:67-248 | One filter step in any reachable state: the pointer of a marked duplicate that was not denied moves to a later container, that of an unmarked one stays unless a copy before it was marked |
| `Decisions.ClosingSamples` | destor/src/index/sampling_method.c:210-240 | Closing a container: the key of every ratio-th fingerprint in order now names it, every other key names what it did |
| `Decisions.RollOverSamples` | destor/src/filter_phase.c:138-157 | Rolling over samples and queues the full container and opens the next id; with room for the chunk nothing happens |
| `Decisions.FinishSamples` | destor/src/filter_phase.c:309-324 | The container open at the end of a backup is sampled in the same way |
| `Node.Node.LookupOne` | destor/src/index/index.c:143-215 | The loop body, over the shared variables in place, is the lookup step of the specification |
| `Node.Node.SearchIndex` | destor/src/index/index.c:171-204 | Cache lookup, then key-value lookup with prefetch, in place |
| `Node.Node.IndexLookupBase` | destor/src/index/index.c:140-217 | The loop over a segment is LookupPrefix |
| `Node.Node.IndexLookup` | destor/src/index/index.c:234-258 | One round of the dedup thread is exactly one Lookup step; false exactly when the buffer is full |
| `Node.IndexCheckBuffer` | destor/src/index/index.c:281-314 | The checking loop is CheckPrefix, crash for crash |
| `Node.Node.Reserve` | destor/src/filter_phase.c:132-157 | Opening and rolling over the storage buffer is MakeRoom |
| `Node.Node.FilterOne` | destor/src/filter_phase.c:79-208 | The loop body with its branches, its asserts and its tables is FilterChunk |
| `Node.Node.WriteOne` | destor/src/filter_phase.c:132-188 | Rolling over, adding the chunk and remembering it is WriteChunk; a chunk already there is reported where the source asserts |
| `Node.Node.FilterLoop` | destor/src/filter_phase.c:77-208 | The resolve, write and deny loop is FilterPrefix |
| `Node.Node.IndexUpdateBuffer` | destor/src/index/index.c:319-355 | The popping loop is UpdatePrefix; chunk_num falls by the normal chunks of the segment; the result says whether the buffer remains full |
| `Node.WriteRecipe` | destor/src/filter_phase.c:216-246 | The recipe loop is RecordPrefix, crash for crash |
| `Node.Node.FilterSegment` | destor/src/filter_phase.c:67-307 | One round of the filter thread is exactly one FilterOldest step on the shared state |
| `Containers.AppendKeepsClosed` | destor/src/storage/containerstore.c:24-44 | Neither writing the top nor popping it changes which containers are visible or what they hold |
| `Containers.RetrieveIsClosed` | destor/src/storage/containerstore.c:306-356 | Queue first, then file: the retrieved container is the one that was closed under that id |
| `Containers.ContainerAlwaysVisible` | destor/src/storage/containerstore.c:306-331 | Whatever the append thread does between the two, a closed container missed in the queue is on disk with its contents |
| `ExactDedup.MissIsNew` | destor/src/index/index.c:150-204 | With a full-key index a lookup miss means that no container holds the fingerprint |
| `ExactDedup.FilterIsExact` | destor/src/filter_phase.c:122-199 | Filtering a segment adds exactly its fingerprints to the stored set, each in one container |
| `ExactDedup.NextExact` | destor/src/destor.h:74-81 | Every step keeps exactness: single copies, all closed containers fully indexed, unique chunks in flight truly new |
| `ExactDedup.NothingIsStoredTwice` | destor/src/destor.h:74-81 | With rewriting and HAR off, over every run no fingerprint is in two containers and every closed container is fully indexed |
| `ExactDedup.StoredIsFiltered` | destor/src/filter_phase.c:122-199 | Over every run the stored fingerprints are among those filtered; without deletions they are exactly those |
| `Har.LookupPrefixHar` | destor/src/index/index.c:140-217 | Looking up a segment keeps the copies of each fingerprint in flight in step with the head of its queue: all temporary, all with one old id that this backup has not written, or none old but sparse |
| `Har.FilterChunkHar` | destor/src/filter_phase.c:110-188 | Under HAR's marks a chunk is written only if the open container does not hold it; it leaves with a new id, or with its old one if no copy was rewritten |
| `Har.TripsExactly` | destor/src/filter_phase.c:122-188 | For any marks, line 186 fails on a chunk exactly when the chunk is to be written and the open container, after making room, already holds it |
| `Har.FilterHar` | destor/src/filter_phase.c:67-210 | A whole segment under HAR's marks keeps that order for the segments behind it, and the assert at line 186 holds |
| `Har.UpdatedHead` | destor/src/index/index.c:334-345 | After popping a segment the head of a remaining queue is the id of the last copy popped |
| `Har.HarNeverRepeats` | destor/src/filter_phase.c:184-188 | Over every legal run whose only marks are those of har_check, whatever the inherited sparse containers, the assert at line 186 never fails |
| `Lru.ToFrontKeeps` | destor/src/utils/lru_cache.c:39-55 | Re-linking a hit in front permutes the list |
| `Lru.Cache.Lookup` | destor/src/utils/lru_cache.c:39-88 | Finds the first element that hits and moves it in front |
| `Lru.Cache.Add` | destor/src/utils/lru_cache.c:93-111 | Inserts in front; at capacity the last element leaves |
| `Lru.Cache.Kick` | destor/src/utils/lru_cache.c:114-128 | Removes the least recently used element satisfying the condition, or nothing |
| `Lru.LastHit` | destor/src/utils/lru_cache.c:114-128 | The walk from the least recently used end stops at the first element satisfying the condition |
| `Lru.RecentMeans` | destor/src/utils/lru_cache.c:39-55 | The reference list: each element used, once, in the order of last uses |
| `Lru.KeepsMostRecent` | destor/src/utils/lru_cache.c:39-111 | After any requests, each a lookup and an insert on a miss, the list is the most recently used distinct elements, as many as fit, the latest first |
| `StoreInvariant.CacheHit` | destor/src/index/fingerprint_cache.c:41-64 | A cache hit names a closed container that holds the fingerprint |
| `KvStore.KeepsLatest` | destor/src/index/kvstore_htable.c:48-53 | After any history of updates slot i holds the i-th latest id, unused slots the temporary id |
| `KvStore.DeleteWantsOldest` | destor/src/index/kvstore_htable.c:171-205 | The deletion's assert holds if and only if the id is absent or the oldest listed; then exactly that id is gone |
| `KvStore.HTable.Lookup` | destor/src/index/kvstore_htable.c:156-159 | Found exactly when the key is there; the id list as stored |
| `KvStore.HTable.Put` | destor/src/index/kvstore_htable.c:161-168 | memmove and store in place: the list shifted by one, the latest id first |
| `KvStore.ShiftDown` | destor/src/index/kvstore_htable.c:48-53 | memmove by one in place, the new id in front, the oldest gone |
| `KvStore.HTable.Remove` | destor/src/index/kvstore_htable.c:171-205 | The table after deletion, or the failed assert with the table unchanged |
| `Reclaim.UpdateManifest` | destor/src/cma.c:17-75 | Every container the backup used is marked with its job, the others keep their time |
| `Reclaim.TruncManifest` | destor/src/cma.c:83-139 | Splits the manifest: reclaimed are exactly the containers last used up to the job |
| `Reclaim.OneIdPerKey` | destor/src/index/kvstore_htable.c:161-205 | With one id per key an update overwrites, and a deletion never fails and removes at most that entry |
| `Reclaim.CleanContainer` | destor/src/do_delete.c:41-47 | Deletes exactly the entries that point to this container under a fingerprint it holds |
| `Reclaim.CleanIndex` | destor/src/do_delete.c:31-48 | Cleaning container by container leaves exactly the entries with a live id |
| `Reclaim.DoDelete` | destor/src/do_delete.c:23-112 | Deletion as a whole is exactly one Delete step of the machine |
| `Recipes.RecordPrefixOk` | destor/src/filter_phase.c:216-246 | Recording a prefix of a well-formed stream never fails; the recipe expands to exactly the references of the chunks, and chunk counts and sizes of its files are theirs |
| `Recipes.RecipeRoundTrip` | destor/src/do_restore.c:67-112 | Reading a finished recipe back gives file starts, chunk pointers and file ends in stream order; every file's size is the sum of its chunks |
| `RestoreSpec.RestoreMatching` | destor/src/do_restore.c:8-65 | If every pointer's container holds the chunk, following the references gives the stream |
| `RestoreThreads.LruFetch` | destor/src/do_restore.c:41-51 | A fetch returns the bytes of the pointed-to container even on a hit in another one; a read happens exactly on a miss, and the list afterwards has the container in front |
| `RestoreThreads.LruRestore` | destor/src/do_restore.c:8-65 | The LRU thread outputs what the one-line specification outputs, and its reads are exactly the chunks that none of the cacheSize containers used most recently has |
| `RestoreThreads.Assembly.Push` | destor/src/assembly_restore.c:100-116 | Pushed is appended, size grows by the chunk, full exactly when a chunk reaches the limit |
| `RestoreThreads.Assembly.Issue` | destor/src/assembly_restore.c:81-97 | Issues from the front in order; issued plus waiting is unchanged |
| `RestoreThreads.Assembly.Fill` | destor/src/assembly_restore.c:55-79 | One container read fills every waiting chunk of that container, none of which was ready before, and touches no other |
| `RestoreThreads.Assembly.AssembleArea` | destor/src/assembly_restore.c:30-98 | Issued plus waiting is unchanged, the output is the specification's for what was issued, at least one element leaves, at most one container is read |
| `RestoreThreads.FilledOk` | destor/src/assembly_restore.c:63-79 | Filling keeps ready chunks of a container ahead of its unready ones |
| `RestoreThreads.AssemblyRestore` | destor/src/assembly_restore.c:118-188 | Forward assembly outputs what the one-line specification outputs, for any area size |
| `Belady.ServeOne` | destor/src/optimal_restore.c:182-249 | One request: the lead over any other cache changes by exactly the difference in misses, for every horizon |
| `Belady.BeladyIsOptimal` | destor/src/optimal_restore.c:182-249 | Evicting the farthest next use misses no more often than any cache of the same capacity that serves the requests |
| `AccessRecords.WriteRecords` | destor/src/recipe/recipestore.c:372-389 | The records file is the run-collapsed container ids and an end marker |
| `AccessRecords.CollapseHead` | destor/src/recipe/recipestore.c:247-256 | No two neighbouring records are equal and every record is a container of the recipe |
| `AccessRecords.CollapsePrefix` | destor/src/recipe/recipestore.c:372-389 | The records of a prefix of the recipe are a prefix of the records |
| `OptimalRestore.TablePush` | destor/src/optimal_restore.c:68-91 | Filling the window keeps each container's queue equal to its positions in the window |
| `OptimalRestore.TablePop` | destor/src/optimal_restore.c:115-126 | The record served heads its queue with the smallest outstanding number, and popping it keeps the table exact |
| `OptimalRestore.SortKeeps` | destor/src/optimal_restore.c:38-49 | Sorting by first sequence number permutes and sorts |
| `OptimalRestore.Candidates` | destor/src/optimal_restore.c:193-207 | The eviction candidates are exactly the last record and the up to ten before it without a known use, up to the first that has one |
| `OptimalRestore.CandidateIsFarthest` | destor/src/optimal_restore.c:182-249 | No cached container is known to be used later than a candidate |
| `OptCache.ChooseVictim` | destor/src/optimal_restore.c:193-223 | The victim is a candidate, no candidate was used less recently, and no cached container is known to be used later |
| `OptimalRestore.KickOk` | destor/src/optimal_restore.c:209-231 | Kicking the victim from the cache and from the sorted list keeps the two matched |
| `OptimalRestore.AddOk` | destor/src/optimal_restore.c:234-249 | The record looked up for the new container is there, and inserting keeps the lists matched |
| `OptCache.OptimalCache.WindowFill` | destor/src/optimal_restore.c:68-91 | Reads as many records as fit and keeps table and window exact |
| `OptCache.OptimalCache.WindowSlide` | destor/src/optimal_restore.c:115-126 | Moves past exactly one record; its queue is there |
| `OptCache.OptimalCache.Hits` | destor/src/optimal_restore.c:133-146 | Slides only when the container changes; a hit exactly when cached, then in front |
| `OptCache.OptimalCache.Evict` | destor/src/optimal_restore.c:184-232 | The victim was cached and leaves alone; no cached container's next known use is later |
| `OptCache.OptimalCache.Add` | destor/src/optimal_restore.c:182-249 | Reads one container, evicting one at capacity, and keeps every list in step |
| `OptCache.OptimalCache.Serve` | destor/src/optimal_restore.c:251-285 | A miss reads exactly one container; afterwards the container is in front; with full foresight the step is a Belady step |
| `OptCache.NextRecord` | destor/src/optimal_restore.c:115-146 | The next change of container in the recipe is the next access record |
| `OptCache.OptimalRestoreThread` | destor/src/optimal_restore.c:251-285 | Outputs what the specification outputs for any window; with a window that covers all access records reads no more containers than any policy of the same capacity |
| `EndToEnd.StreamRoundTrip` | destor/src/chunk_phase.c:31-104 | The stream of files, each a start mark, its chunks and an end mark, is well formed and is received as exactly the files, names and bytes |
| `EndToEnd.InverseIsGenuine` | destor/src/destor.h:294-294 | Collision freedom on the chunks seen gives the hypothesis of the run theorems |
| `EndToEnd.JobIsRestorable` | destor/src/do_restore.c:308-404 | In every reachable state the recipe of a live backup is fit for all three restore threads |
| `EndToEnd.DoRestore` | destor/src/do_restore.c:308-404 | Whichever cache is configured, the output is the stream that was backed up |
| `Backups.LookupSource` | destor/src/dedup_phase.c:81-98 | A lookup that does not wait appends exactly its segment to the source of the running backup |
| `Backups.FilterSource` | destor/src/filter_phase.c:67-307 | Filtering takes the oldest segment out of flight and leaves the source as it was |
| `Backups.FinishSource` | destor/src/filter_phase.c:309-329 | A backup that has filtered everything between files becomes a job with exactly its source; earlier jobs stay |
| `Backups.EveryJobRecordsItsInput` | destor/src/dedup_phase.c:68-108 | Over every legal run and interleaving: the running backup's source is the segments its lookups took in, every job's recorded stream is the segments fed to it, and the jobs are the finished backups that no deletion reached |
| `Backups.BackupThenRestore` | destor/src/do_restore.c:308-404 | After any legal run, if the segments fed to a backup are end to end the stream of some files, and it has finished and was not deleted, restoring it gives exactly those files |
| `Backups.FilesComeBack` | destor/src/do_restore.c:308-404 | The same from collision freedom among the chunks seen, over any run whose lookups carry digests of their chunks |
| `Backups.EveryBackupCanFinish` | destor/src/dedup_phase.c:68-108 | From any state in the middle of a backup, for any segments that complete its stream, some legal steps finish it as a job with the whole stream |
| `Pipeline.ChunkAndHash` | destor/src/chunk_phase.c:20-110 | Over all files, however they arrive in blocks, the stream of the files |
| `Pipeline.Prepare` | destor/src/dedup_phase.c:68-108 | The segments handed to the index are end to end the stream of the files, cut by the method's rule, and every chunk carries its digest |
| `Pipeline.PreparedFilesComeBack` | destor/src/do_restore.c:308-404 | A backup fed with prepared segments is restored to the files that arrived, after any run, whatever the interleaving and the marks |
| `Sending.WriteRestoreData` | destor/src/do_restore.c:193-306 | Succeeds exactly when the stream has at most one file, as the assert demands, and sends one packet per chunk and an empty one at the end |
| `Sending.OneFileIsSent` | destor/src/do_restore.c:254-292 | A restored file is sent without a failed assert, and its packets carry exactly its bytes |
| `Gf2.RemOk` | destor/src/chunking/rabin_chunking.c:80-122 | The reference remainder is congruent to the dividend and shorter than the divisor |
| `Gf2.ResidueUnique` | destor/src/chunking/rabin_chunking.c:80-122 | Two short congruent polynomials are equal, so the remainder is unique |
| `Rabin.Fls32` | destor/src/chunking/rabin_chunking.c:59-70 | The position of the last set bit of 32 |
| `Rabin.Fls64` | destor/src/chunking/rabin_chunking.c:72-78 | The position of the last set bit of 64 |
| `Rabin.PolyMod` | destor/src/chunking/rabin_chunking.c:80-122 | The GF(2) remainder of the 128-bit dividend, for every divisor |
| `Rabin.PolyMult` | destor/src/chunking/rabin_chunking.c:124-156 | The two words are the 128-bit GF(2) product |
| `Rabin.PolyMMult` | destor/src/chunking/rabin_chunking.c:172-179 | The product modulo the divisor |
| `Rabin.CalcT` | destor/src/chunking/rabin_chunking.c:181-208 | Entry j of T reduces the top byte j, and the shift is deg P - 8 |
| `Rabin.Append8Ok` | destor/src/chunking/rabin_chunking.c:158-160 | append8 is (p x^8 + m) mod P for every residue p |
| `Rabin.WindowInit` | destor/src/chunking/rabin_chunking.c:215-229 | Entry i of U cancels a byte that leaves the 48-byte window |
| `Rabin.SlideOk` | destor/src/chunking/rabin_chunking.c:162-170 | Sliding takes the residue of a window to the residue of the next window |
| `Rabin.Slider.Slide` | destor/src/chunking/rabin_chunking.c:9-21 | After SLIDE on the ring buffer fp is the residue of exactly the last 48 bytes, zero padded |
| `CutPoints.Feed` | destor/src/chunking/rabin_chunking.c:268-273 | The rolling fingerprint at each position equals the one computed from scratch |
| `CutPoints.RabinCut` | destor/src/chunking/rabin_chunking.c:249-320 | Standard and normalized: the first position in [min,end) whose recomputed fingerprint matches the mask in force, else end |
| `CutPoints.CutsByRemainder` | destor/src/chunking/rabin_chunking.c:268-318 | For an average size of 2^k: standard rabin cuts where the fingerprint modulo it is 0x78; normalized rabin modulo twice that before the average size and modulo half of it from there on; the backup mark of TTTD modulo half |
| `CutPoints.NormalizedShifts` | destor/src/chunking/rabin_chunking.c:278-318 | From 256 on: before the average size every normalized cut is a standard one, behind it every standard cut is a normalized one, and every main match of TTTD is a backup match |
| `CutPoints.TttdCut` | destor/src/chunking/rabin_chunking.c:327-362 | The TTTD loop equals its scan specification |
| `CutPoints.TttdIsRight` | destor/src/chunking/rabin_chunking.c:327-362 | First main match, else last backup match, else end; positive and at most max and the data |
| `ChunkPhase.ChunksCover` | destor/src/chunk_phase.c:20-110 | The chunks concatenate to the file |
| `ChunkPhase.ChunkSizes` | destor/src/chunk_phase.c:20-110 | Every chunk is non-empty and at most max |
| `ChunkPhase.Reader.Refill` | destor/src/chunk_phase.c:54-65 | Re-buffering loses nothing, never exceeds the buffer, and stops with a maximal chunk or at the file's end |
| `ChunkPhase.Reader.TakeBlock` | destor/src/chunk_phase.c:56-64 | Moving down and copying a block in place loses no byte and stays inside the buffer |
| `ChunkPhase.Reader.NextChunk` | destor/src/chunk_phase.c:75-93 | Cutting the buffered bytes gives the first chunk of everything still to come |
| `ChunkPhase.ChunkFile` | destor/src/chunk_phase.c:20-110 | For any split into blocks of at most 1 MB the chunks are those of the recursive definition on the whole file |
| `ChunkPhase.RabinCutterOk` | destor/src/chunking/rabin_chunking.c:249-320 | Both rabin cutters never cut empty or too long, and look no further than max |
| `ChunkPhase.TttdCutterOk` | destor/src/chunking/rabin_chunking.c:327-362 | The same for TTTD |
| `ChunkPhase.FixedCutterOk` | destor/src/chunk_phase.c:12-14 | The same for fixed-size chunking |
| `ChunkPhase.FixedSizes` | destor/src/chunk_phase.c:12-14 | Every chunk but the last has exactly the average size |
| `Segmenting.Segmenter.SegmentFixed` | destor/src/index/segmenting_method.c:12-38 | Returned segment plus pending chunks is pending plus the new one; a returned segment has exactly the configured number of chunks |
| `Segmenting.Segmenter.SegmentFile` | destor/src/index/segmenting_method.c:43-67 | The same; a returned segment ends with its only file end |
| `Segmenting.Segmenter.SegmentContent` | destor/src/index/segmenting_method.c:72-112 | The same; a returned segment has at least min chunks and at most its bound; no boundary chunk lies in a segment behind min chunks, and a segment shorter than max was cut by the boundary chunk that starts the next |
| `Segmenting.Segmenter.Segment` | destor/src/index/segmenting_method.c:7-130 | Returned segment plus pending chunks is pending plus the new chunk; a returned segment has the method's size and keeps the content rule |
| `Segmenting.SegmentStream` | destor/src/dedup_phase.c:68-108 | The segments are the stream cut up: fixed ones all of the size; content-defined ones between min and their bound, none with a boundary chunk behind min chunks, each one shorter than max followed by one that starts with a boundary chunk; file-defined ones ending with their only file end; the last is what was left |
| `RewriteBuffer.Buffer.Push` | destor/src/rewrite_phase.c:34-74 | Appends; one record per container with exactly its buffered bytes; num and size exact; full exactly at the limit; what is remembered as worth keeping stays |
| `RewriteBuffer.Buffer.Pop` | destor/src/rewrite_phase.c:80-105 | Removes the head; the record asserted at line 90 is there, records stay exact, and a container is forgotten exactly when no chunk of it is left |
| `RewriteBuffer.Buffer.GetTop` | destor/src/cap_rewrite.c:10-35 | At most level containers, none with fewer buffered bytes than an unselected one, fewer than level only if all; the record list is sorted by id again |
| `RewriteBuffer.Lookup` | destor/src/rewrite_phase.c:45-48 | On the list sorted by id a record is found exactly when there is one |
| `Rewriting.TargetsAreTop` | destor/src/cap_rewrite.c:62-81 | After marking, the containers that unmarked duplicates refer to are exactly the selected ones |
| `Rewriting.CapFlush` | destor/src/cap_rewrite.c:60-81 | A flush empties the buffer and marks exactly the duplicates outside the top containers |
| `Rewriting.CapStep` | destor/src/cap_rewrite.c:47-81 | One turn either buffers the chunk or, at exactly the limit, flushes everything under the capping bound |
| `Rewriting.CapRewrite` | destor/src/cap_rewrite.c:44-107 | On a whole stream every flushed buffer meets the capping bound and but for the last holds exactly the limit; the buffers are the stream; the last is what the thread held |
| `Rewriting.HeldOk` | destor/src/rewrite_phase.c:34-105 | What a drained thread holds: a suffix cut right after a normal chunk, with n mod R normal chunks for capping and min(n, R - 1) for CBR |
| `ContextRewriting.Judge` | destor/src/cbr_rewrite.c:105-133 | Marks exactly a duplicate in a container not yet kept whose utility says fragmented; a container is kept from then on exactly if it was or its decision chunk is left unmarked |
| `ContextRewriting.CbrPass` | destor/src/cbr_rewrite.c:90-141 | A full buffer passes its leading marks unchanged and then its first normal chunk, marked exactly as judged |
| `ContextRewriting.CbrStep` | destor/src/cbr_rewrite.c:79-141 | One turn passes one normal chunk, marked as judged, when full, and nothing otherwise |
| `ContextRewriting.HeadMarks` | destor/src/cbr_rewrite.c:105-133 | The decision at the head of a full buffer is the mark that the stream alone prescribes |
| `ContextRewriting.CbrRewrite` | destor/src/cbr_rewrite.c:74-150 | For any decisions, on a whole stream: exactly those chunks are marked that lie in a container, were decided as fragmented when the limit-th normal chunk counting from them arrived, and were never among limit consecutive normal chunks behind an unmarked chunk of their container; nothing else changes |
| `ContextRewriting.ConstantDecisions` | destor/src/cbr_rewrite.c:105-133 | If no decision finds fragmentation nothing is marked; if every one does, exactly the chunks in containers with limit - 1 normal chunks behind them |
| `BackPressure.RunOk` | destor/src/dedup_phase.c:28-66 | Over every run the filtered segments have been passed on in full |
| `BackPressure.DrainedBound` | destor/src/dedup_phase.c:112-117 | A drained thread that keeps the oldest END has at most R + S - 1 chunks in flight, and that many only with a longest oldest segment and R - 1 chunks behind it |
| `BackPressure.FilterCanAdvance` | destor/src/index/index.c:234-242 | With R + S or more in flight and the input drained, the oldest segment including its END has been passed on |
| `BackPressure.OneMoreIsEnough` | destor/src/dedup_phase.c:112-117 | A threshold of R + S never deadlocks, whatever the segments |
| `BackPressure.DeadlockExactly` | destor/src/dedup_phase.c:112-117 | With the threshold of the program a deadlock is reachable if and only if some number of segments can hold exactly R - 1 chunks |
| `BackPressure.FixedDeadlockExactly` | destor/src/dedup_phase.c:114-115 | With fixed-size segments: if and only if S divides R - 1 |
| `Flight.EntersFlight` | destor/src/index/index.c:234-258 | In every reachable state a segment enters flight, whole and last, exactly when it has no chunk, there is no threshold or fewer chunks than that are in flight; otherwise nothing changes |
| `Flight.FlightIsBounded` | destor/src/dedup_phase.c:82-93 | Over every legal run with at most S chunks a segment the index buffer holds at most threshold - 1 + S chunks |
| `Serial.NativeRoundTrip` | destor/src/utils/serial.h:86-87 | Bytes copied out of and into an integer give it back, on either byte order |
| `Serial.NetworkRoundTrip` | destor/src/utils/serial.c:38-44 | Network byte order decodes to the signed integer encoded |
| `Serial.MostSignificantFirst` | destor/src/utils/serial.c:58-73 | Byte i of n is the digit of weight 256^(n-1-i) |
| `Serial.SerialInt32` | destor/src/utils/serial.c:38-44 | Writes network order on either host |
| `Serial.UnserialInt32` | destor/src/utils/serial.c:127-134 | Reads network order on either host |
| `Serial.SerialInt64` | destor/src/utils/serial.c:58-73 | The byte loop writes network order on either host |
| `Serial.UnserialInt64` | destor/src/utils/serial.c:147-166 | The byte loop reads network order on either host |
| `ContainerLayout.TilesSnoc` | destor/src/storage/containerstore.c:404-415 | A chunk added at data_size keeps the chunks end to end from 0 |
| `ContainerLayout.TilesOnce` | destor/src/storage/containerstore.c:404-415 | Every byte of [0,data_size) belongs to exactly one entry |
| `ContainerLayout.MetaRoundTrip` | destor/src/storage/containerstore.c:333-355 | Parsing a written metadata region gives back id, counts and map, in whatever order the table was iterated |
| `ContainerLayout.FieldsOfMeta` | destor/src/storage/containerstore.c:148-165 | Where each field lies: id, number of chunks and bytes in use at 0, 8 and 12 in network order, then 28 bytes per chunk with fingerprint, length and offset |
| `ContainerFile.OpenContainer.Overflow` | destor/src/storage/containerstore.c:380-389 | True exactly when the data or one more 28-byte entry would not fit |
| `ContainerFile.OpenContainer.AddChunk` | destor/src/storage/containerstore.c:396-420 | In place: the chunk is added under its fingerprint and nothing else changes; a chunk already there is not; layout and size limits are kept |
| `ContainerFile.OpenContainer.Serialise` | destor/src/storage/containerstore.c:148-165 | The metadata fits its region and is what the reader expects; the data area is untouched |
| `ContainerFile.WriteContainer` | destor/src/storage/containerstore.c:130-178 | An empty container is not written; otherwise the image goes to its slot and the container is unchanged |
| `ContainerFile.StoredAfterWrite` | destor/src/storage/containerstore.c:167-178 | A write lands where it is looked for and leaves every other container and the count alone |
| `ContainerFile.CountKeepsContainers` | destor/src/storage/containerstore.c:76-77 | Writing the count touches no container |
| `ContainerFile.ReadMeta` | destor/src/storage/containerstore.c:252-274 | The reading loop is ParseMeta |
| `ContainerFile.RetrieveMeta` | destor/src/storage/containerstore.c:319-355 | Reads the metadata region of the stored image |
| `ContainerFile.RetrieveContainer` | destor/src/storage/containerstore.c:217-282 | Reads the stored image and its metadata |
| `ContainerFile.WriteThenRetrieve` | destor/src/storage/containerstore.c:130-282 | Write then retrieve gives the same metadata and, for every fingerprint, the bytes added under it |
| `Pool.ReadsBack` | destor/src/storage/containerstore.c:217-282 | From its image a container is read back with its metadata and, under each fingerprint, its bytes |
| `Pool.WriteImage` | destor/src/storage/containerstore.c:130-178 | What is written for a filled container is an image of it |
| `Pool.NextPool` | destor/src/storage/containerstore.c:24-44 | Every step of the machine keeps the pool file an image of the disk |
| `Pool.PoolHoldsTheDisk` | destor/src/storage/containerstore.c:24-83 | Over every legal run the pool file holds, for every container on disk, an image that reads back as that container |
| `Pool.ReadChunk` | destor/src/storage/containerstore.c:363-378 | A chunk read from the file is the chunk the container holds, or the assert on a missing one |
| `Images.EveryContainerIsBuilt` | destor/src/storage/containerstore.c:380-420 | Over every legal run every container was filled chunk by chunk within its limits |
| `Images.FitsExactly` | destor/src/storage/containerstore.c:380-389 | A new chunk fits exactly when, with it, the chunks fit the data area and header and entries fit the metadata region |
| `Images.EveryContainerHasAnImage` | destor/src/storage/containerstore.c:130-178 | Data, entries and header of such a container fit its 4 MB image |
| `Images.PoolCanFollow` | destor/src/storage/containerstore.c:24-83 | As long as ids fit 8 bytes, a pool file can follow every legal run |
| `SegmentRecipes.IdRoundTripExactly` | destor/src/recipe/recipestore.c:311-325 | A segment id unpacks to what was packed if and only if number, offset and size fit 16, 32 and 16 bits |
| `SegmentRecipes.LongSegmentMisplaced` | destor/src/recipe/recipestore.c:311-313 | A segment of 65536 or more chunks unpacks to a wrong offset |
| `SegmentRecipes.RecordRoundTrip` | destor/src/recipe/recipestore.c:391-396 | A 32-byte record reads back as the pointer written: fingerprint, id at 20, size at 28 |
| `SegmentRecipes.Writer.AppendFlag` | destor/src/recipe/recipestore.c:329-367 | START opens a buffer and returns the packed id of the file's end; END writes exactly what was buffered |
| `SegmentRecipes.Writer.WriteSegment` | destor/src/filter_phase.c:212-249 | A segment is appended to the file and its id is where it starts |
| `SegmentRecipes.LastWinsMeaning` | destor/src/recipe/recipestore.c:573-584 | A segment's table maps each of its fingerprints to its last pointer and nothing else |
| `SegmentRecipes.ReadSegment` | destor/src/recipe/recipestore.c:597-637 | The reading loop is ParseSegment |
| `SegmentRecipes.PrefetchSegments` | destor/src/recipe/recipestore.c:521-595 | From the id of a written segment: that segment and its successors, with their ids and tables, at most n, stopping at the end of the file |
| `SegmentRecipes.FlagsAreSkipped` | destor/src/recipe/recipestore.c:448-455 | Skipping flags leaves the pointers of all segments in order |
| `SegmentRecipes.Reader.ReadNext` | destor/src/recipe/recipestore.c:430-463 | Returns the next min(n, remaining) pointers |
| `SegmentRecipes.ReadAll` | destor/src/recipe/recipestore.c:430-463 | Reading in batches of any size gives every pointer once, in order |
| `Sds.CatRepr` | destor/src/utils/sds.c:872-895 | The loop prints the quoted representation |
| `Sds.SplitArgs` | destor/src/utils/sds.c:940-1056 | The nested loops equal the splitting function, errors included; what that function gives is stated by the rows below |
| `Sds.TokenLoop` | destor/src/utils/sds.c:951-1028 | The token loop with its pointer and flags equals the token reader |
| `Sds.QuotedRound` | destor/src/utils/sds.c:957-991 | One round inside double quotes is one step of the token reader, escapes and errors included |
| `Sds.SingleRound` | destor/src/utils/sds.c:992-1006 | One round inside single quotes is one step of the token reader |
| `Sds.PlainRound` | destor/src/utils/sds.c:1007-1026 | One round outside quotes is one step of the token reader |
| `Sds.ReprRoundTrip` | destor/src/utils/sds.c:872-1056 | Splitting the space-joined representations of any list of byte strings gives the list |
| `Sds.SplitWords` | destor/src/utils/sds.c:1007-1026 | Splitting unquoted words joined by spaces gives the words, for every list of non-empty words |
| `Sds.SplitWord` | destor/src/utils/sds.c:1007-1026 | A word ends at the end of the line or at any of space, newline, return and tab |
| `Sds.LeadingBlanks` | destor/src/utils/sds.c:945-947 | Blanks before an argument are skipped, whichever and however many |
| `Sds.SingleQuotes` | destor/src/utils/sds.c:992-1006 | Between single quotes every byte string without zero bytes that does not end with a backslash is read back; an unterminated quote, or one followed by a non-blank, is an error |
| `Sds.DoubleQuotes` | destor/src/utils/sds.c:957-991 | An unquoted beginning followed by any double-quoted spelling, with hexadecimal digits of either case, control escapes and other escaped characters, is read as the beginning and what is spelled; a non-blank behind the closing quote is an error |
| `Sds.QuotedTail` | destor/src/utils/sds.c:992-1019 | The same with a part in single quotes |
| `Sds.DoubleQuoteErrors` | destor/src/utils/sds.c:981-988 | An unterminated double quote, or one followed by a non-blank, is an error, whatever was quoted |
| `Sds.EscapeForm` | destor/src/utils/sds.c:872-895 | Quote and backslash are printed behind a backslash, newline, return, tab, bell and backspace by their letters, other printable bytes as they are, the rest as two lower-case hexadecimal digits |
| `Sds.ReprIsPrintable` | destor/src/utils/sds.c:872-895 | Everything printed is printable, and printable bytes other than quote and backslash stand for themselves |
| `Sds.SplitLen` | destor/src/utils/sds.c:809-846 | Joining the tokens gives the input and no token contains the separator; an empty separator is an error |
| `Sds.JoinSds` | destor/src/utils/sds.c:1095-1104 | Joins with the separator between tokens |

## Left out

- Logical locality: segment prefetching is modelled as a format, but lookup by segments, similarity detection, champion selection and the deletion of segment features are not part of the machine.
- Wider id lists in garbage collection: deletion with more than one id per key is covered by `KvStore.DeleteWantsOldest` only, not by the run theorems.
- AE chunking: a new extremum skips its size test, so it has no size bound and is not a cutter here.
- History-aware rewriting: the monitor is modelled as the set of containers used; how close_har picks and trims the sparse containers is not, and `Har` holds for any inherited set of containers that exist when the backup begins.
- The data race in no_rewrite: har_check runs there after the chunk was handed on (destor/src/rewrite_phase.c:117-121); a mark is decided once here.
- Floating point: the CBR utility and its buckets, and the CFL ratio, are arbitrary decisions.
- Machine.Delete: a backup number that does not exist is a crash and not a legal step; the program has already truncated the manifest when it exits. Reclaimed containers leave the modelled disk, while the program leaves their bytes in the pool; the deleted flag of a version is not modelled.
- ContainerFile.GetChunk: data only; the fingerprint field of the returned chunk is copied from the wrong address (destor/src/storage/containerstore.c:375) and is never read.
- ContainerFile.ReadMeta: an entry count beyond the metadata region is a crash at once, where the program reads on and fails the length assert afterwards.
- SegmentRecipes.PrefetchSegments: an offset that is not a multiple of 32 is a crash, where the program would read misaligned records.
- Sending.WriteRestoreData: the packets, not the Redis keys and replies they travel in.
- Mutex types: index_lock is declared with two mutex types; one lock is modelled. Bounded queues, condition variables and their wake-ups are the enabling conditions of steps.
- Process state: static variables that survive a job (the segmenter's last segment, the readers' cursors) are fresh for every job here; restarting the process and reloading the index are not modelled.
- Integer width: wrap-around is modelled in Rabin and in segment ids; container sizes and counts stay below their widths, and the truncation of a container-id difference to int in g_record_cmp_by_id needs ids 2^31 apart.
- Library code: GLib tables, queues and sequences are maps and sequences, g_sequence_sort is a stable insertion sort, bytemsb is the bit length of a byte.
- Sampling by minimum, optimised minimum and at random: only uniform sampling is modelled.
- Simulation levels other than SIMULATION_NO, trace replay, Redis, sockets, statistics, configuration and logging.
- The client (grouping, routing), the storage drivers and the vendored sources.

# Program storage and co-evolution, modelled and proved

This project models the parts of GigaEvo whose correctness depends on interleavings, crashes, staleness
or several structures changing together, and proves what holds of them over all inputs, runs and
reachable states.

**Program store.** Programs carry a lifecycle state, three dictionaries, a lineage and a revision
counter. `MergeStrategies` is the additive merge of two revisions, `ProgramState` the merge of their
states. `RedisData` gives every Redis operation's effect on the blobs and the status sets as one
transaction, `RedisStorage` the operations in the original's command-by-command and chunk-by-chunk form,
proved to have that effect. `RedisMachine` is the WATCH / GET / INCR / MULTI / EXEC loop as a step machine
for any number of clients: EXEC succeeds only while the key has not been written since WATCH. `RedisRuns`,
`RedisIndex` and `RedisBatch` hold what follows for whole runs: every interleaving equals some serial
order of merges with the blob in the store at commit time, counters are never reused, the index agrees
with the blobs, and the raw batches refine moving one program at a time. `DiskStorage` is the disk store
with every intermediate disk content recorded, `DiskCrashes` its runs with crashes before or after any
file write, recovery included, and `DiskTransitions` what its unmerged transition loses. `PopulationSnapshot` is the
epoch cache and its incremental refresh with every read as one event, `SnapshotReads` the same cache with every
await of a read as a step, so that bumps may fall in between.

**Slot diffs.** `SlotCompaction` is the repair of gapped payloads, proved to preserve the value every step
computes for an arbitrary step function. `SlotTranscription` is the schema's acceptance and the
transcription into a numbered chain; `SlotRepair` parses payloads into diffs and relates what a repaired payload
transcribes to with the original emission.

**Endpoint pool.** `EndpointPool` is least-loaded selection with cooldowns: the selection script, the
object, and the command-level machine with the load bound.

**Drift cap.** `SyncHook` is one population's hook with its polling loop, `SyncProtocol` any number of
populations reading each other's counters one by one.

**Indices and selection.** `DGTracker` keeps five families of keys, each tied to a definition over the whole
history of writes; `SortedSets` and `Ranking` are the orders behind its range reads and behind `sorted`.
`OpponentProvider` is the per-cell selection. `PathLens` states the laws of path reads and writes on trees
and `PathUpdate` proves that the write on shared-nothing mutable objects has exactly that effect.
`LaunchPreview` relates flattened dotted paths to lookups.

Where the code falls short of its own description, a lemma gives an input and another the exact condition:

- `merge_states` is called a lattice, but rival states settle by order of arrival: an example is
  `ProgramState.MergeStatesOrderMatters`; any number of states settle independently of their order exactly when
  one is discarded or queued, running and done do not all meet (`ProgramState.SettlingIsOrderFreeIff`).
- `_merge_lineage` promises a deduplicated union: `MergeStrategies.RepeatedChildStays`, and
  `MergeStrategies.MergedChildrenDistinct` for when the result is duplicate-free.
- An `update` of an unknown id stores a program that no status set lists: `RedisIndex.UpdateLeavesUnindexed`,
  `DiskCrashes.UpdateLeavesUnindexed`. Of the guarded commits and of the disk store's operations exactly this one
  leaves a complete index incomplete (`RedisIndex.CommitKeepsIndex`, `DiskCrashes.IndexCompleteIff`); of the unguarded
  Redis calls that keep the index sound, `write_exclusive` of an unknown id does too
  (`RedisIndex.ExclusiveCompleteIff`). Exactly with a complete index the three ways of listing the store agree
  (`RedisIndex.EnumerationsAgree`).
- `write_exclusive`, `fast_state_transition` and `batch_transition_state` trust their callers:
  `RedisIndex.TrustingCallsBreakIndex`, and `RedisIndex.ExclusiveSoundIff` for the calls that keep the index sound.
- The disk store's `atomic_state_transition` writes the caller's copy, while the Redis store merges it:
  `DiskTransitions.OldCopyDropsMetric`; a copy read earlier loses nothing exactly when no data was updated since
  (`DiskTransitions.StaleTransitionLosesNothingIff`), and `DiskTransitions.StoresAgreeIff` says when both stores write
  the same program.
- A full `bump` followed by an incremental one with no read between them is undone:
  `PopulationSnapshot.FullBumpCanBeUndone`, `PopulationSnapshot.FullBumpUndoneIff`.
- A `bump` during a read is swallowed or worse: a full read serves old data (`SnapshotReads.OldDataIsServed`), an
  incremental one loses its finished programs (`SnapshotReads.FinishedProgramIsLost`), raises a KeyError
  (`SnapshotReads.RemovedProgramRaises`) or brings back removed programs (`SnapshotReads.RemovedProgramReturns`).
  Exactly the bumps between the reading of the data and the end of a full read go unheard
  (`SnapshotReads.FullReadLabelIff`, `SnapshotReads.FullReadServedIff`); exactly when an incremental read is right is
  `SnapshotReads.IncrementalReadExactIff` and, for a store at rest, by the kinds of bumps and where they fall,
  `SnapshotReads.BumpsDuringReadIff`.
- The repair of a gapped payload does not always make it valid: `SlotRepair.MovedFirstSlotIsRejected`,
  `SlotRepair.TooFewSlotsAreRejected`; exactly which payloads it saves is `SlotRepair.RepairValidatesIff`.
- A pair measured twice in one tracker batch leaves the global index with the last delta and the per-G index
  with the best one: `DGTracker.TwiceInOneBatch`; exactly the histories in which the two agree are given by
  `DGTracker.ScoresAgreeIff`.
- `get_best_pairs` with `k` zero or below may return more than `k` pairs, because its range then counts from the
  end: `SortedSets.NotAtMost`, `DGTracker.BestPairsAtMostIff`.
- The stratified `get_top_k` returns one program even for `k` below 1: `OpponentProvider.SelectsOneForZero`,
  `OpponentProvider.SelectsAtMostIff`.
- A failed `_set_nested` may leave empty mappings behind, and nothing else: `PathLens.FailedSetLeavesMapping`,
  `PathLens.FailedSetChangesNothingIff`, `PathLens.FailedSetAddsNoData`.
- A dotted key can be flattened to a path that the lookup does not follow: `LaunchPreview.DottedKeyIsLost` in a
  document of one entry. A leaf whose dotted path is its own is found exactly when no key on the way holds a dot
  (`LaunchPreview.DottedPathIsFoundIff`, `LaunchPreview.AgreementIff`); where another leaf shares the path, the lookup
  may find that one (`LaunchPreview.SharedPathIsFound`).

## Model

| member | source | states |
|---|---|---|
| ProgramState.TransitionTable | gigaevo/programs/program_state.py:30-48 | A state may stay, be discarded, or go round from queued to running to done to queued, and nothing else; only a discarded program is final, only queued and running ones are incomplete. |
| ProgramState.MergeStates | gigaevo/programs/program_state.py:71-89 | The merged state is one of the two sides and both sides may legally move to it; the final error is unreachable. |
| ProgramState.MergeStatesSymmetric | gigaevo/programs/program_state.py:71-89 | Which side arrives first does not matter, a side wins if and only if the other may move to it, and a discarded side always prevails. |
| ProgramState.MergeStatesOrderMatters | gigaevo/programs/program_state.py:71-89 | Merging is not associative: queued, running and done settle as done or as queued depending on the order. |
| ProgramState.MergeStatesAssociativeIff | gigaevo/programs/program_state.py:71-89 | Three states settle alike in either grouping if and only if two are equal or one is discarded. |
| ProgramState.SettlingIsOrderFreeIff | gigaevo/programs/program_state.py:71-89 | Any number of states settles to the same state in every order if and only if a discarded one is among them or queued, running and done do not all occur. |
| MergeStrategies.MergedDict | gigaevo/database/merge_strategies.py:9-32 | The merged dictionary has exactly the keys of both sides, a lone value is kept, and on a conflict the preferred side's value is. |
| MergeStrategies.MergeDictByProgTs | gigaevo/database/merge_strategies.py:9-32 | The loop yields the incoming value on a conflict exactly when the incoming counter is strictly larger. |
| MergeStrategies.MergedLineage | gigaevo/database/merge_strategies.py:35-60 | Parents, mutation and generation stay; new children follow the current ones in the incoming order; the members are those of both lists. |
| MergeStrategies.MergedChildrenDistinct | gigaevo/database/merge_strategies.py:35-60 | The children are duplicate-free if and only if the current list is and the incoming one does not repeat a new child. |
| MergeStrategies.RepeatedChildStays | gigaevo/database/merge_strategies.py:50-53 | A child the incoming side lists twice is listed twice afterwards. |
| MergeStrategies.MergeRefusedIff | gigaevo/database/merge_strategies.py:63-90 | A merge is refused if and only if the ids differ, or both sides have a name and the names differ; with nothing stored the copy is taken as it is. |
| MergeStrategies.MergedFields | gigaevo/database/merge_strategies.py:63-123 | Field by field: the state is the merge of the two states; each key of the three dictionaries holds the stored value if only the stored side has it, the incoming one if only the copy has it, and otherwise the incoming one if and only if its counter is strictly larger; the code follows the same rule. |
| MergeStrategies.MergeGrows | gigaevo/database/merge_strategies.py:63-123 | A merge keeps identity and lineage immutables, only grows children and key sets, and absorbs everything the incoming copy holds. |
| MergeStrategies.MergeKeepsValues | gigaevo/database/merge_strategies.py:92-121 | A copy that is not newer leaves the code and every existing value untouched. |
| MergeStrategies.MergeIsNoOpIffAbsorbed | gigaevo/database/merge_strategies.py:63-123 | A copy that is not newer changes no data if and only if everything in it is already present. |
| MergeStrategies.AbsorbedPersists | gigaevo/database/merge_strategies.py:63-123 | What has been absorbed stays absorbed in every revision grown from it. |
| RedisData.ChunksCover | gigaevo/database/redis_program_storage.py:91-95 | Chunking covers every item exactly once, in order, in slices of one to n items. |
| RedisStorage.RedisProgramStorage.AddProgram | gigaevo/database/redis_program_storage.py:130-166 | Writes the whole copy under the next counter, moves the id to the set of its state, out of the set of the blob it replaces, and touches no other blob or membership. |
| RedisStorage.RedisProgramStorage.RemoveProgram | gigaevo/database/redis_program_storage.py:227-251 | The blob is gone, and from a sound index the id is in no status set, with every other blob and membership unchanged; no counter is used. |
| RedisStorage.RedisProgramStorage.WriteProgramExclusive | gigaevo/database/redis_program_storage.py:209-225 | Writes the whole copy under the next counter and leaves all other blobs and the index alone. |
| RedisStorage.RedisProgramStorage.FastStateTransition | gigaevo/database/redis_program_storage.py:483-514 | Writes the whole copy under the next counter; the id leaves the set named first and enters the one named second, no other membership changes. |
| RedisStorage.RedisProgramStorage.SetEach | gigaevo/database/redis_program_storage.py:554-560 | One chunk's programs are written in order with consecutive counters, and the caller's objects take the new state. |
| RedisStorage.RedisProgramStorage.SendChunk | gigaevo/database/redis_program_storage.py:546-572 | INCRBY reserves exactly the counters used; one bulk SREM and SADD move the chunk. |
| RedisStorage.RedisProgramStorage.SendStateChunks | gigaevo/database/redis_program_storage.py:545-574 | The chunk loop composes the chunk effects and counts every program. |
| RedisStorage.RedisProgramStorage.BatchTransitionState | gigaevo/database/redis_program_storage.py:516-576 | Rejects an illegal move without effect; otherwise writes every program in the new state under consecutive counters, moves exactly their ids from the old set to the new one, updates the caller's objects, and returns their number. |
| RedisStorage.RedisProgramStorage.SelectMatching | gigaevo/database/redis_program_storage.py:607-617 | The patch list is exactly the stored programs in the old state, in order. |
| RedisStorage.RedisProgramStorage.PatchIdChunks | gigaevo/database/redis_program_storage.py:605-646 | Each chunk is read when it is reached; state, count and counter are those of the chunk-wise specification. |
| RedisStorage.RedisProgramStorage.BatchTransitionByIds | gigaevo/database/redis_program_storage.py:578-648 | Rejects an illegal move without effect; otherwise patches chunk by chunk the stored programs in the old state, for distinct ids exactly those, and returns their number. |
| RedisBatch.MergeOwnCopy | gigaevo/database/merge_strategies.py:63-123 | Merging a stored program with its own copy in a legal next state changes the state only. |
| RedisBatch.ChunkIsOneByOne | gigaevo/database/redis_program_storage.py:624-643 | One pipelined chunk equals merging transitions of its programs one at a time. |
| RedisBatch.RawBatchRefinesOneByOne | gigaevo/database/redis_program_storage.py:578-648 | For distinct ids and a legal move, raw patching leaves the same blobs (counters included), status sets and count as transitioning the matching programs one at a time. |
| RedisBatch.BatchStateRefinesOneByOne | gigaevo/database/program_storage.py:309-329 | The pipelined batch equals the default loop of merging transitions when the caller passes the stored programs. |
| RedisBatch.BatchStateWrites | gigaevo/database/redis_program_storage.py:516-576 | After an accepted batch each listed id holds its last listed copy in the new state under the counter of that place, and every other blob is as before. |
| RedisBatch.BatchByIdsWrites | gigaevo/database/redis_program_storage.py:578-648 | The raw batch over distinct ids writes the matching stored programs in the order of the ids, one counter each. |
| RedisMachine.ExecMergesCurrent | gigaevo/database/redis_program_storage.py:175-481 | No lost update: a successful EXEC writes the field-by-field merge of the caller's copy with the blob in the store at that instant, and its counter exceeds all earlier ones on the key. |
| RedisMachine.ExclusiveBounded | gigaevo/database/redis_program_storage.py:130-648 | An unguarded operation touches exactly the keys it writes or deletes and stamps only counters it reserved. |
| RedisMachine.CommitFrame | gigaevo/database/redis_program_storage.py:175-481 | A commit writes one key, stamps it with the client's counter and leaves all other blobs alone. |
| RedisMachine.RetryKeepsClients | gigaevo/database/redis_program_storage.py:180-205 | A failed EXEC changes neither the store nor any other client, and a conflict sends the client back to the start of its loop. |
| RedisMachine.StepKeepsInv | gigaevo/database/redis_program_storage.py:175-481 | Every step of every client and every unguarded operation keeps the machine's invariant. |
| RedisMachine.RunKeepsInv | gigaevo/database/redis_program_storage.py:175-481 | So does every run, from any number of clients. |
| RedisRuns.CommitWrites | gigaevo/database/redis_program_storage.py:175-481 | An unknown id receives the copy itself, a known one the merged data; `update` keeps the stored state and every status set, a transition takes the merged state and leaves the id in the set of that state and in none that was named or stored before. |
| RedisRuns.Serializable | gigaevo/database/redis_program_storage.py:175-481 | Every interleaving leaves exactly the blobs and status sets of running the committed operations one after another in commit order. |
| RedisRuns.CountersNeverReused | gigaevo/database/redis_program_storage.py:183-631 | No counter belongs to two commits anywhere; counters of commits on one key strictly increase; reserved ranges are disjoint. |
| RedisRuns.RetriesBoundedByWrites | gigaevo/database/redis_program_storage.py:180-205 | A client retries at most as often as its key was really written. |
| RedisRuns.UndisturbedAttemptCommits | gigaevo/database/redis_program_storage.py:180-205 | An attempt that is left alone commits unless the merge itself refuses. |
| RedisRuns.CommitGrows | gigaevo/database/redis_program_storage.py:175-481 | A commit on a known id only grows it, and keeps all values when the copy is not newer. |
| RedisRuns.GuardedRunsGrow | gigaevo/database/redis_program_storage.py:175-481 | Under any interleaving of guarded operations no program is lost, immutables never change, children and key sets only grow. |
| RedisRuns.GuardedRunsAreAdditive | gigaevo/database/redis_program_storage.py:175-481 | If submitted copies come from storage, existing values and the code never change over a whole run. |
| RedisRuns.CommittedIsAbsorbed | gigaevo/database/redis_program_storage.py:175-481 | After a commit the store holds everything the committed copy holds under the client's counter; a key the stored blob lacked holds the copy's value. |
| RedisRuns.ResubmissionIsNoOp | gigaevo/database/redis_program_storage.py:175-481 | Re-submitting a committed copy at any later point of any guarded run changes no data field. |
| RedisIndex.NoIdInTwoSets | gigaevo/database/redis_program_storage.py:274-282 | With a sound index no id is in two status sets. |
| RedisIndex.MovesSoundIff | gigaevo/database/redis_program_storage.py:562-572 | A bulk move keeps the index sound if and only if no moved id sits in a third set. |
| RedisIndex.BatchStateDoes | gigaevo/database/redis_program_storage.py:516-576 | An accepted batch writes the programs in order and moves exactly their ids between the two sets. |
| RedisIndex.BatchByIdsDoes | gigaevo/database/redis_program_storage.py:578-648 | Exactly the stored programs in the old state among the ids change: only their state and counter, each under its own reserved counter, and exactly they move between the two sets. |
| RedisIndex.IdChunksKeepIndex | gigaevo/database/redis_program_storage.py:605-646 | Raw batches keep a sound index sound and a complete one complete, whatever ids are passed. |
| RedisIndex.FastSoundIff | gigaevo/database/redis_program_storage.py:483-514 | A fast transition keeps the index sound if and only if the target set names the written state and the id is in no set besides the two named. |
| RedisIndex.ExclusiveSoundIff | gigaevo/database/redis_program_storage.py:130-648 | For every unguarded operation, the exact condition on its caller under which the index stays sound. |
| RedisIndex.ExclusiveCompleteIff | gigaevo/database/redis_program_storage.py:130-648 | And the exact condition under which it stays complete. |
| RedisIndex.CommitKeepsIndex | gigaevo/database/redis_program_storage.py:191-468 | A guarded commit keeps the index sound for any `old_state`: after a transition the id is in exactly the set of its merged state, after an update the index is unchanged; it stays complete if and only if the commit is no `update` of an unknown id. |
| RedisIndex.UpdateLeavesUnindexed | gigaevo/database/redis_program_storage.py:175-205 | An `update` of an unknown id on the empty store leaves a blob in no status set. |
| RedisIndex.TrustingCallsBreakIndex | gigaevo/database/redis_program_storage.py:209-576 | Calls of the three trusting operations that leave a queued program indexed under a state its blob does not have. |
| RedisIndex.ReplayKeepsIndex | gigaevo/database/redis_program_storage.py:130-648 | The index stays sound, and complete if ids enter indexed, along every serial history. |
| RedisIndex.ReachableIndex | gigaevo/database/redis_program_storage.py:130-648 | The same in every state any concurrent run reaches. |
| RedisIndex.EnumerationsAgree | gigaevo/database/redis_program_storage.py:274-323 | With a sound index `size` counts the SUNION ids; both agree with the SCAN listing if and only if the index is complete. |
| PopulationSnapshot.PopulationSnapshot.constructor | gigaevo/database/program_storage.py:50-56 | A new cache is empty and stale. |
| PopulationSnapshot.PopulationSnapshot.Bump | gigaevo/database/program_storage.py:58-74 | Advances the epoch; clears the id cache, or rebuilds it from the last list when incremental. |
| PopulationSnapshot.PopulationSnapshot.PrepareIdCache | gigaevo/database/program_storage.py:136-139 | Fills an empty id cache from the last list and leaves a filled one alone. |
| PopulationSnapshot.PopulationSnapshot.GetAll | gigaevo/database/program_storage.py:76-100 | Serves the cached list only in its epoch and under its filter, otherwise refreshes incrementally or refetches under the filter asked for. |
| PopulationSnapshot.PopulationSnapshot.IncrementalUpdate | gigaevo/database/program_storage.py:102-134 | The id cache becomes: listed ids only, new and incomplete ones freshly read, finished ones kept. |
| PopulationSnapshot.PopulationSnapshot.MgetInto | gigaevo/database/program_storage.py:125-129 | Exactly the requested ids that exist are replaced by fresh copies. |
| PopulationSnapshot.ProjectedFields | gigaevo/database/program_storage.py:76-100 | A skipped field is read as empty, every other field as stored; only four fields can be skipped. |
| PopulationSnapshot.AnswerOfRead | gigaevo/database/program_storage.py:76-134 | The three ways a read is answered and the exact list of each, program by program. |
| PopulationSnapshot.ListsKeepTheirFilter | gigaevo/database/program_storage.py:58-139 | Over every run each program of the cached list, and of the id cache, is what a read asked with that list's own filter saw. |
| PopulationSnapshot.ReadsInOneEpoch | gigaevo/database/program_storage.py:82-100 | After any run, a second read in an epoch gets the same list under the same filter, and under another filter the whole store with its own fields. |
| PopulationSnapshot.RunKeepsInv | gigaevo/database/program_storage.py:58-139 | After any history the id cache is empty or the last returned list, and no label is ahead of the epoch. |
| PopulationSnapshot.RefreshIsExactIff | gigaevo/database/program_storage.py:58-139 | In a new epoch a read equals the full fetch if and only if it refetches everything or no listed finished program changed. |
| PopulationSnapshot.FullBumpThenRead | gigaevo/database/program_storage.py:58-100 | After a full bump the next read is exact without any premise. |
| PopulationSnapshot.FullBumpCanBeUndone | gigaevo/database/program_storage.py:136-139 | A full bump followed by an incremental one serves a changed finished program from the old list. |
| PopulationSnapshot.FullBumpUndoneIff | gigaevo/database/program_storage.py:58-139 | After a full bump the next read refetches, unless an incremental bump comes between and the same filter was read last with a non-empty list. |
| SnapshotReads.UndisturbedReadIsFetched | gigaevo/database/program_storage.py:76-134 | Without a bump between its awaits a read is the single event of the sequential model. |
| SnapshotReads.RunKeepsInv | gigaevo/database/program_storage.py:58-139 | Over all runs the id cache is what the bumps since the read began make of it, and until a read fails it is empty or the last list. |
| SnapshotReads.IncrementalReadExactIff | gigaevo/database/program_storage.py:102-134 | Exactly when an incremental read raises a KeyError, and exactly when its result, labelled with the current epoch, equals the full fetch of the store its programs came from. |
| SnapshotReads.SteadyReadExactIff | gigaevo/database/program_storage.py:102-134 | For a store at rest: exact if and only if every finished program spared the refetch is still in the id cache, unchanged, and nothing the store does not hold came into it. |
| SnapshotReads.BumpsDuringReadIff | gigaevo/database/program_storage.py:58-139 | For a store at rest, the same decided by which bump came last before the read planned its refresh and which before its end. |
| SnapshotReads.NothingToRefreshExactIff | gigaevo/database/program_storage.py:114-134 | The condition for a read that has nothing to fetch. |
| SnapshotReads.FullReadLabelIff | gigaevo/database/program_storage.py:89-100 | A full read returns the store as it was read; its label is the epoch of that moment if and only if no bump fell between reading the data and the end, while bumps before that do no harm. |
| SnapshotReads.FullReadServedIff | gigaevo/database/program_storage.py:82-100 | The next read repeats that result if and only if no bump follows the end, however many fell inside; after a full bump it is exact. |
| SnapshotReads.BumpDuringReadIsSwallowed | gigaevo/database/program_storage.py:92-99 | A full bump just before the end of a full read is not obeyed, just after it is. |
| SnapshotReads.OldDataIsServed | gigaevo/database/program_storage.py:92-99 | A run in which the next read answers with data older than the bump. |
| SnapshotReads.FinishedProgramIsLost | gigaevo/database/program_storage.py:113-134 | A run in which a full bump inside an incremental read makes it return without its finished program. |
| SnapshotReads.RemovedProgramRaises | gigaevo/database/program_storage.py:113-134 | The same run with a program removed from the store: KeyError. |
| SnapshotReads.RemovedProgramReturns | gigaevo/database/program_storage.py:113-139 | A run in which a removed program is listed again. |
| DiskStorage.DiskProgramStorage.constructor | gigaevo/database/disk_program_storage.py:96-118 | Loading yields the files' programs, the index rebuilt from their states and the largest revision. |
| DiskStorage.DiskProgramStorage.PersistProgram | gigaevo/database/disk_program_storage.py:120-141 | A program file is replaced in two steps, a temporary and an atomic rename. |
| DiskStorage.DiskProgramStorage.PersistStatusSets | gigaevo/database/disk_program_storage.py:125-141 | The same for the status file. |
| DiskStorage.DiskProgramStorage.Store | gigaevo/database/disk_program_storage.py:143-150 | Stamps the next revision, keeps the copy in memory and writes it through. |
| DiskStorage.DiskProgramStorage.AddProgram | gigaevo/database/disk_program_storage.py:158-165 | Memory after the call, and every disk content passed on the way. |
| DiskStorage.DiskProgramStorage.UpdateProgram | gigaevo/database/disk_program_storage.py:167-178 | Merges with the stored copy keeping its state, stores unknown ids as they are, changes nothing when the merge refuses. |
| DiskStorage.DiskProgramStorage.RemoveProgram | gigaevo/database/disk_program_storage.py:205-212 | Memory after the call, and every disk content passed on the way. |
| DiskStorage.DiskProgramStorage.AtomicStateTransition | gigaevo/database/disk_program_storage.py:274-283 | Stores the caller's copy unmerged under its own state only. |
| DiskStorage.DiskProgramStorage.RecoverOne | gigaevo/database/disk_program_storage.py:340-348 | One id is requeued under the next revision and written through, and memory, index and disk stay a partial recovery of the start. |
| DiskStorage.DiskProgramStorage.RecoverEach | gigaevo/database/disk_program_storage.py:336-348 | The loop requeues every indexed RUNNING program once, one revision each, in some order, and counts the known ones. |
| DiskStorage.DiskProgramStorage.RecoverStrandedPrograms | gigaevo/database/disk_program_storage.py:333-353 | The complete recovery with its revisions, its count, and every disk content on the way, each a partial recovery. |
| DiskCrashes.CrashIsAtomic | gigaevo/database/disk_program_storage.py:96-178 | Wherever a crash falls, reloading gives the program map from just before or just after the operation, with an exactly rebuilt index. |
| DiskCrashes.IndexCompleteIff | gigaevo/database/disk_program_storage.py:96-353 | An operation leaves a complete index complete if and only if it is no update of an unknown id, recovery leaves it complete, and every restart, after a crash of an operation or of recovery, makes it complete. |
| DiskCrashes.UpdateLeavesUnindexed | gigaevo/database/disk_program_storage.py:167-174 | A new program handed to `update` on an empty directory is stored and not indexed. |
| DiskCrashes.ReloadIsTheOnlyLoad | gigaevo/database/disk_program_storage.py:96-118 | What a restart holds, the counter included, is determined by the disk. |
| DiskCrashes.ApplyKeepsInv | gigaevo/database/disk_program_storage.py:158-283 | Every completed operation keeps memory equal to disk, the index sound, revisions distinct and covered by the counter. |
| DiskCrashes.RecoveryKeepsInv | gigaevo/database/disk_program_storage.py:333-353 | So does a complete recovery, in any order of ids. |
| DiskCrashes.RecoveryCrashIsPartial | gigaevo/database/disk_program_storage.py:333-353 | A crash anywhere in recovery leaves on disk the recovery of the first so many ids. |
| DiskCrashes.StepKeepsInv | gigaevo/database/disk_program_storage.py:96-353 | Every operation, recovery, crash and restart keeps it, although the rebuilt counter may be smaller than the lost one. |
| DiskCrashes.RunKeepsInv | gigaevo/database/disk_program_storage.py:96-353 | And so does every run of operations and recoveries with any number of crashes. |
| DiskCrashes.RecoveryIsRestartable | gigaevo/database/disk_program_storage.py:333-353 | Any chain of partial recoveries followed by a complete one is a complete recovery of the first disk. |
| DiskCrashes.RestartedRecoveryRecovers | gigaevo/database/disk_program_storage.py:333-353 | Over runs: however often, wherever and in whatever orders recovery crashes, the first attempt that completes leaves what one undisturbed recovery of the start would. |
| DiskCrashes.RecoveryOutcome | gigaevo/database/disk_program_storage.py:333-353 | Then nothing is RUNNING, what was RUNNING is QUEUED with its data, all else is untouched, and two recoveries differ in counters only. |
| DiskCrashes.LoadAndRecover | gigaevo/database/disk_program_storage.py:333-353 | After a fresh load recovery returns the number of RUNNING programs on disk, ends as the run model's recovery does, and passes only through contents an interrupted recovery may leave. |
| DiskTransitions.StaleTransitionLosesNothingIff | gigaevo/database/disk_program_storage.py:167-283 | Between a caller's read and its transition others may update the program: nothing is lost if and only if they changed no data. |
| DiskTransitions.OldCopyDropsMetric | gigaevo/database/disk_program_storage.py:167-283 | A metric added by an update and dropped by a transition with an older copy, which the Redis transition keeps. |
| DiskTransitions.StoresAgreeIff | gigaevo/database/disk_program_storage.py:274-283 | Both stores write the same program if and only if the copy includes the stored revision and its state may follow the stored one. |
| SlotNames.DecimalDigits | gigaevo/chains/dag_changes.py:209-211 | Indices are rendered in decimal notation, last digit last. |
| SlotNames.SlotNameRoundTrip | gigaevo/chains/dag_changes.py:209-211 | A slot key has index i if and only if it is exactly the rendered name of i. |
| SlotCompaction.RankMonotone | gigaevo/chains/dag_changes.py:218-218 | The renumbering is strictly monotone in both directions. |
| SlotCompaction.AllCanonical | gigaevo/chains/dag_changes.py:206-212 | The key check accepts exactly payloads whose slot keys are canonical. |
| SlotCompaction.RenameRefs | gigaevo/chains/dag_changes.py:225-233 | Dependencies are renamed if and only if each names a filled slot canonically. |
| SlotCompaction.RebuildSlots | gigaevo/chains/dag_changes.py:219-234 | Filled slots slide left in order; the repair is refused if and only if some body or dependency is malformed. |
| SlotCompaction.CompactableIff | gigaevo/chains/dag_changes.py:201-234 | In the payload's own terms: repaired if and only if every slot key is written as rendered, some slot is filled after an unfilled one, and every filled slot is a mapping whose dependency list, if any, names filled slots. |
| SlotCompaction.CompactPayload | gigaevo/chains/dag_changes.py:191-239 | Returns a payload if and only if there is a gap and everything is well formed, and then the compacted one. |
| SlotCompaction.CompactionSlots | gigaevo/chains/dag_changes.py:214-239 | Slot m holds the m-th filled slot, no later slot is left, and every non-slot entry is untouched. |
| SlotCompaction.CompactionFills | gigaevo/chains/dag_changes.py:214-239 | The filled slots of the result are exactly 1..n. |
| SlotCompaction.CompactionIsFinal | gigaevo/chains/dag_changes.py:215-217 | Compacting a compacted payload reports no gap. |
| SlotCompaction.CompactionEdges | gigaevo/chains/dag_changes.py:223-233 | Contents are untouched and edges map one to one, in place, under the renumbering. |
| SlotCompaction.CompactionKeepsDirection | gigaevo/chains/dag_changes.py:191-239 | Edges all point backward afterwards if and only if they did before. |
| SlotCompaction.CompactionPreservesEval | gigaevo/chains/dag_changes.py:191-239 | Every step computes the value it computed before, for any step function. |
| SlotTranscription.SlotsContiguous | gigaevo/chains/dag_changes.py:102-113 | The validator accepts exactly diffs whose filled slots come first. |
| SlotTranscription.Transcribe | gigaevo/chains/dag_changes.py:347-380 | An accepted diff yields min_steps to max_steps steps, one per filled slot in order, on the scaffold and with the task description of the parent it names, with the last as output. |
| SlotTranscription.LookupIs | gigaevo/chains/dag_changes.py:353-353 | With distinct namespaces the base is the parent of the given namespace. |
| SlotTranscription.KeptContent | gigaevo/chains/dag_changes.py:354-368 | A kept step has the fields of the rendered step at that place of that parent, with the edited ones replaced. |
| SlotTranscription.NewContent | gigaevo/chains/dag_changes.py:369-371 | A new step has the five content fields, as given or empty. |
| SlotTranscription.BaseIdIs | gigaevo/chains/dag_changes.py:354-358 | Ids are the namespace in lower case followed by the place counted from 1. |
| SlotTranscription.AcceptedRefsAreFilled | gigaevo/chains/dag_changes.py:98-148 | Every reference of an accepted diff names a filled slot before its own. |
| SlotTranscription.EarlierSlotsAreOffered | gigaevo/chains/dag_changes.py:116-148 | A step of either kind may name each earlier slot. |
| SlotTranscription.AcceptedStepsAreNamed | gigaevo/chains/dag_changes.py:67-148 | From parents whose steps all have a title and an aim, an accepted diff is transcribed into steps that have both. |
| SlotTranscription.TranscribedStepWellFormed | gigaevo/chains/dag_changes.py:116-148 | A step's dependencies are sorted, duplicate-free, smaller than its number, and exactly the slots referred to. |
| SlotTranscription.KeepAllAccepted | gigaevo/chains/dag_changes.py:98-148 | The diff that keeps a parent whole is accepted. |
| SlotTranscription.KeepAllReproduces | gigaevo/chains/dag_changes.py:347-372 | Its transcription has the parent's contents and edges, numbers turned into positions, when rendered ids are unique. |
| SlotRepair.ParsedSlotIs | gigaevo/chains/dag_changes.py:116-148 | A parsed slot holds exactly the texts and references of its body under their names, null edits apart, and the body has no other keys. |
| SlotRepair.DumpParses | gigaevo/chains/dag_changes.py:116-148 | Dumping a slot and parsing it gives it back, at every position that admits its references. |
| SlotRepair.RepairedSlotIff | gigaevo/chains/dag_changes.py:165-187 | Parsing a repaired slot gives the parsed original with references renamed by rank, unless it moved to the first position with a dependency list. |
| SlotRepair.RepairedDiffTranscribes | gigaevo/chains/dag_changes.py:193-197 | A repaired payload that validates is a contiguous diff whose m-th step has the content of the m-th filled slot and its dependencies renumbered by rank. |
| SlotRepair.RepairedSlotAcceptedIff | gigaevo/chains/dag_changes.py:116-148 | One slot: acceptable where it was emitted, it is accepted after the repair if and only if its dependency list still fits its position. |
| SlotRepair.RepairValidatesIff | gigaevo/chains/dag_changes.py:165-197 | The payload: with every slot acceptable where it was emitted, the repaired payload validates if and only if it names a base parent, fills min_steps to max_steps slots, and every dependency list fits the position its slot moves to. |
| SlotRepair.DistinctRefsFit | gigaevo/chains/dag_changes.py:116-197 | Lists without repetitions always fit. |
| SlotRepair.MovedFirstSlotIsRejected | gigaevo/chains/dag_changes.py:116-197 | An otherwise valid payload whose first filled slot carries an empty dependency list is repaired into one that is rejected. |
| SlotRepair.TooFewSlotsAreRejected | gigaevo/chains/dag_changes.py:165-197 | A payload whose every slot passes after the repair is rejected for filling fewer than min_steps slots. |
| EndpointPool.LeastLoadedIff | gigaevo/infra/endpoint_pool.py:48-77 | What least loaded means on the listed endpoints, their counts and cooldowns. |
| EndpointPool.EndpointPool.Create | gigaevo/infra/endpoint_pool.py:107-139 | An empty endpoint list is refused; a pool starts with no counts and no cooldowns. |
| EndpointPool.EndpointPool.Scan | gigaevo/infra/endpoint_pool.py:48-63 | The candidates are exactly the considered endpoints with the smallest count. |
| EndpointPool.EndpointPool.Acquire | gigaevo/infra/endpoint_pool.py:44-83 | If some listed endpoint is not cooling down, returns a listed one that is not and whose count is at most that of every other such one, else one of smallest count of all; increments only its count. |
| EndpointPool.EndpointPool.Release | gigaevo/infra/endpoint_pool.py:201-209 | One count down, one request recorded, nothing else. |
| EndpointPool.EndpointPool.MarkUnhealthy | gigaevo/infra/endpoint_pool.py:211-218 | One count down, a cooldown set, one error recorded, nothing else. |
| EndpointPool.EndpointPool.Use | gigaevo/infra/endpoint_pool.py:244-256 | Acquires such an endpoint once and gives it back once, by release or by marking unhealthy. |
| EndpointPool.CompletionIsItsCommands | gigaevo/infra/endpoint_pool.py:201-218 | Run without interruption, the separate commands of a completion amount to the method. |
| EndpointPool.StepConserves | gigaevo/infra/endpoint_pool.py:201-256 | With commands interleaved, in-flight counts always equal outstanding acquisitions, every acquisition is outstanding, settling, served or failed, and every request begins on a least loaded endpoint that is not cooling, if there is one. |
| EndpointPool.RoomAtTheLeastLoaded | gigaevo/infra/endpoint_pool.py:44-83 | With fewer than m outstanding and h endpoints considered, the chosen endpoint is strictly below the bound. |
| EndpointPool.StepKeepsLoads | gigaevo/infra/endpoint_pool.py:44-256 | No step takes any endpoint over the bound or below zero. |
| EndpointPool.LoadBound | gigaevo/infra/endpoint_pool.py:44-256 | From any conserving state within the bound, no run leaves it. |
| EndpointPool.LoadBoundFromEmpty | gigaevo/infra/endpoint_pool.py:44-256 | No endpoint ever carries more than floor((m-1)/h)+1 requests, whatever the ties, completions, failures and cooldowns. |
| EndpointPool.BoundIsOptimal | gigaevo/infra/endpoint_pool.py:44-83 | No allocator does better: with all m requests on h endpoints some endpoint carries that many. |
| SyncHook.ProgressBasedSyncHook.Create | gigaevo/adversarial/sync.py:73-131 | Which configurations are refused and why; the cap wins over its deprecated alias, the call ratio is at least one, counting starts at zero. |
| SyncHook.DispatchCounts | gigaevo/adversarial/sync.py:208-227 | Every K-th call is not skipped and no other, and the first of these takes the baseline. |
| SyncHook.ProgressBasedSyncHook.Call | gigaevo/adversarial/sync.py:199-281 | Exactly every K-th call synchronises, the first of these takes the baseline only, the others pass or time out, with a positive interval within floor(timeout/poll)+2 polls. |
| SyncHook.ProgressBasedSyncHook.WaitForOpponents | gigaevo/adversarial/sync.py:229-281 | Passes exactly at the first poll whose drift is within the cap, or gives up at the first late one after the timeout. |
| SyncHook.DriftWithinCapIff | gigaevo/adversarial/sync.py:190-239 | The drift is within the cap if and only if no opponent is further behind than the cap. |
| SyncProtocol.StepKeepsInv | gigaevo/adversarial/sync.py:199-281 | Every interleaved step keeps the bookkeeping of leads and readings. |
| SyncProtocol.RunKeepsInv | gigaevo/adversarial/sync.py:199-281 | So does every run. |
| SyncProtocol.EveryKthCallPolls | gigaevo/adversarial/sync.py:208-227 | In every run a population polls at its 2K-th, 3K-th and every later K-th call, and at no other. |
| SyncProtocol.BoundedLead | gigaevo/adversarial/sync.py:208-251 | From a sync within the cap until a timeout, a lead over any source never exceeds drift_cap + K*B, however stale the readings. |
| SyncProtocol.ArmedUntilTimeout | gigaevo/adversarial/sync.py:239-266 | Only a timed-out sync ends that period; every other sync ends, exactly when the readings are within the cap, with the lead really within it. |
| SyncProtocol.NoWaitCycle | gigaevo/adversarial/sync.py:232-281 | Progress strictly falls along chains of waiting populations, so none closes. |
| SyncProtocol.LeastAdvancedIsFree | gigaevo/adversarial/sync.py:232-281 | In every group a least advanced population waits for nobody in it. |
| SyncProtocol.FavouredPasses | gigaevo/adversarial/sync.py:232-251 | A poll begun without a lead beyond the cap can only end in passing, whatever others do meanwhile. |
| SyncProtocol.UnblockedStep | gigaevo/adversarial/sync.py:232-281 | Stale readings can hold a population without such a lead for one poll at most. |
| SyncProtocol.NeverBlocked | gigaevo/adversarial/sync.py:232-281 | So it is back at work after at most two polls in every run. |
| SyncProtocol.LeastAdvancedResumes | gigaevo/adversarial/sync.py:232-281 | In particular the least advanced population of any reachable state. |
| DGTracker.Prepare | gigaevo/adversarial/dg_tracker.py:192-215 | The loop's dictionaries are, family by family, what the batch adds; it fails exactly when a record lacks its delta. |
| DGTracker.EntriesAre | gigaevo/adversarial/dg_tracker.py:192-206 | What a batch adds to the history: each pair with its own D, G, delta and record, in order. |
| DGTracker.RaiseAll | gigaevo/adversarial/dg_tracker.py:217-222 | Writing the global members keeps the larger score of each. |
| DGTracker.AddAll | gigaevo/adversarial/dg_tracker.py:225-232 | Each key's set gains exactly the collected members. |
| DGTracker.SetAll | gigaevo/adversarial/dg_tracker.py:233-241 | Each collected record replaces the stored one, others stay. |
| DGTracker.DGImprovementTracker.constructor | gigaevo/adversarial/dg_tracker.py:63-75 | An empty tracker represents the empty history. |
| DGTracker.DGImprovementTracker.RecordBatch | gigaevo/adversarial/dg_tracker.py:160-253 | All five families again represent the history with exactly this batch added, or nothing changes when a record lacks its delta; returns the number of positive pairs. |
| DGTracker.DGImprovementTracker.RecordImprovement | gigaevo/adversarial/dg_tracker.py:117-137 | Both score families record a positive delta; a non-positive one is ignored. |
| DGTracker.DGImprovementTracker.CountGBeatenByD | gigaevo/adversarial/dg_tracker.py:255-260 | The number of distinct Gs the D ever improved in a batch. |
| DGTracker.DGImprovementTracker.CountDResistedByG | gigaevo/adversarial/dg_tracker.py:262-267 | The number of distinct Ds the G ever resisted. |
| DGTracker.DGImprovementTracker.FacedByD | gigaevo/adversarial/dg_tracker.py:269-276 | Exactly the Gs the D beat or was resisted by. |
| DGTracker.DGImprovementTracker.GetBestDForG | gigaevo/adversarial/dg_tracker.py:302-312 | An argmax over the whole history, the later id among equals; none exactly when nothing positive was recorded. |
| DGTracker.DGImprovementTracker.GetBestPairs | gigaevo/adversarial/dg_tracker.py:320-335 | The parsed top of the global index; a zero `k` yields every pair. |
| DGTracker.UpdatedRepresents | gigaevo/adversarial/dg_tracker.py:192-243 | Indices that change by a batch's contribution keep representing the history. |
| DGTracker.BestIsMaximum | gigaevo/adversarial/dg_tracker.py:207-211 | The per-G score is the largest positive delta ever recorded for the pair, and absent exactly when there is none. |
| DGTracker.LastRecordIs | gigaevo/adversarial/dg_tracker.py:206-241 | The record kept for a pair is the last one measured. |
| DGTracker.LastIs | gigaevo/adversarial/dg_tracker.py:207-222 | What a batch offers the global index for a pair is its last positive delta in the batch. |
| DGTracker.PositivesCount | gigaevo/adversarial/dg_tracker.py:192-253 | The number returned is that of the places with a positive delta. |
| DGTracker.FacedIffWonOrResisted | gigaevo/adversarial/dg_tracker.py:206-215 | A pair has a record if and only if it was won or resisted. |
| DGTracker.WonIffScored | gigaevo/adversarial/dg_tracker.py:207-213 | A G is among D's wins only if the pair has a score, and in batch-only histories exactly then. |
| DGTracker.MemberRoundTrip | gigaevo/adversarial/dg_tracker.py:330-333 | Splitting a global member at its first bar returns the pair, for D ids without a bar. |
| DGTracker.AgreementKeptIff | gigaevo/adversarial/dg_tracker.py:194-222 | One batch: agreeing before it, global and per-G score agree after it if and only if no delta of the pair in it is above both the kept one and the pair's last in the batch. |
| DGTracker.ScoresAgreeIff | gigaevo/adversarial/dg_tracker.py:192-222 | All histories: the two scores of a pair agree if and only if it has no positive delta or some batch ends with its best one. |
| DGTracker.ScoresAgree | gigaevo/adversarial/dg_tracker.py:192-222 | With each pair at most once a batch they agree over every history. |
| DGTracker.BestPairsAreBest | gigaevo/adversarial/dg_tracker.py:320-335 | Then the best pairs are distinct genuine pairs with their best deltas, and none left out is better. |
| DGTracker.BestPairsAtMostIff | gigaevo/adversarial/dg_tracker.py:320-335 | Over every history, at most `k` pairs are returned if and only if `k` is positive or the index is too small for a non-positive `k` to reach into. |
| DGTracker.TwiceInOneBatch | gigaevo/adversarial/dg_tracker.py:207-212 | A pair twice in one batch: the global index keeps the last delta, the per-G index the best. |
| SortedSets.RevRange | gigaevo/adversarial/dg_tracker.py:307-308 | A reverse range lists the highest members from the top, the later name first among equals, with negative ends counted from the end. |
| SortedSets.AtMostIff | gigaevo/adversarial/dg_tracker.py:307-327 | How many members a range ending at k - 1 holds, for every k; at most k if and only if k is positive or the range is empty. |
| SortedSets.NotAtMost | gigaevo/adversarial/dg_tracker.py:307-327 | With k zero it holds everything, with k minus one all but one. |
| SortedSets.TopUnique | gigaevo/adversarial/dg_tracker.py:307-308 | There is only one such list. |
| Ranking.BeforeIff | gigaevo/adversarial/opponent_provider.py:516-523 | Ids compare alphabetically, by the first place where they differ. |
| Ranking.SortRanked | gigaevo/adversarial/opponent_provider.py:516-523 | Sorting by the two-part key yields the ranking. |
| Ranking.SortForgetsOrder | gigaevo/adversarial/opponent_provider.py:249-256 | When equal keys mean equal programs the ranking does not depend on the order before sorting. |
| OpponentProvider.FetchedMembers | gigaevo/adversarial/opponent_provider.py:445-471 | The cache holds exactly the readable archived programs, one version per id, each with the cell that lists it last. |
| OpponentProvider.CellStratifiedProvider.constructor | gigaevo/adversarial/opponent_provider.py:369-402 | A new provider has an empty cache. |
| OpponentProvider.CellStratifiedProvider.RefreshCache | gigaevo/adversarial/opponent_provider.py:410-478 | Cache and cell map after reading the archive. |
| OpponentProvider.CellStratifiedProvider.GetTopK | gigaevo/adversarial/opponent_provider.py:487-567 | Refreshes when empty or expired and returns the ranking of the strongest cell champions. |
| OpponentProvider.CellStratifiedProvider.Pick | gigaevo/adversarial/opponent_provider.py:516-541 | The greedy pass returns the first min(max(k,1), cells) champions of distinct cells in (fitness, id) order. |
| OpponentProvider.TopKByFitness | gigaevo/adversarial/opponent_provider.py:516-541 | On the programs themselves: fittest first, equally fit ones by id, one per cell; none is less fit than another cached one of its cell, nor than any of a cell left out. |
| OpponentProvider.TopKUnique | gigaevo/adversarial/opponent_provider.py:516-541 | That description has one answer, and only the set of cached programs matters. |
| OpponentProvider.SelectsAtMostIff | gigaevo/adversarial/opponent_provider.py:525-541 | At most max(k, 1) programs are selected, fewer only when every cell is represented; at most `k` if and only if `k` is positive or nothing is cached. |
| OpponentProvider.SelectsOneForZero | gigaevo/adversarial/opponent_provider.py:525-541 | Asking for none of one cached program selects it. |
| OpponentProvider.ApartIsPlain | gigaevo/adversarial/opponent_provider.py:356-362 | With one program per cell the cells play no part in the selection. |
| OpponentProvider.SelectionForgetsArchiveOrder | gigaevo/adversarial/opponent_provider.py:410-541 | The selection does not depend on the order of the archive listing, even when a program holds several cells. |
| OpponentProvider.PlainForgetsOrder | gigaevo/adversarial/opponent_provider.py:242-256 | Nor does the plain provider's. |
| OpponentProvider.StratifiedIsPlain | gigaevo/adversarial/opponent_provider.py:356-362 | For k >= 1 and one cell per program both providers select alike. |
| PathLens.ReadStep | gigaevo/cli/manifest_cmd.py:74-103 | A plain part leads into a field, a bracketed one to an element of a list, negative indices from the end; anything else leads nowhere. |
| PathLens.SetSucceedsIff | gigaevo/cli/manifest_cmd.py:106-144 | A set succeeds if and only if the place before the last part exists and can be written, or the path leaves the document through a missing field with only plain parts to go. |
| PathLens.GetAfterSet | gigaevo/cli/manifest_cmd.py:74-144 | After a successful set the path reads the value that was set. |
| PathLens.SetPresent | gigaevo/cli/manifest_cmd.py:74-144 | Setting the value already present succeeds and changes nothing. |
| PathLens.SetOverrides | gigaevo/cli/manifest_cmd.py:106-144 | A second set at the same path overrides the first, and success depends on the path only. |
| PathLens.SetElsewhere | gigaevo/cli/manifest_cmd.py:74-144 | Every path that parts from the written one, negative indices included, reads as before, even after a failed set. |
| PathLens.FailedSetAddsNoData | gigaevo/cli/manifest_cmd.py:106-144 | A failed set adds empty mappings at most. |
| PathLens.FailedSetChangesNothingIff | gigaevo/cli/manifest_cmd.py:106-144 | It changes nothing if and only if no mapping was missing on the way. |
| PathLens.FailedSetLeavesMapping | gigaevo/cli/manifest_cmd.py:106-144 | The empty document is left with an empty mapping when the list below it does not exist. |
| PathLens.ExtensionKeepsData | gigaevo/cli/manifest_cmd.py:106-144 | So every piece of data stays where it was. |
| PathUpdate.Node.TraverseRaw | gigaevo/cli/manifest_cmd.py:74-103 | The cursor walk returns the object at the path, or fails exactly where the path does not resolve. |
| PathUpdate.Node.SetInList | gigaevo/cli/manifest_cmd.py:119-133 | A bracketed part changes one element of an existing list in place. |
| PathUpdate.Node.SetInField | gigaevo/cli/manifest_cmd.py:135-144 | A plain part goes on below an existing mapping or a new empty one. |
| PathUpdate.Node.SetNested | gigaevo/cli/manifest_cmd.py:106-144 | Mutating the objects on the way has exactly the specified effect on the whole document, and keeps it free of sharing. |
| LaunchPreview.Flatten | gigaevo/experiment/launch_preview.py:268-276 | The recursive accumulation is the entry-by-entry union of dotted paths. |
| LaunchPreview.LookupDotted | gigaevo/experiment/launch_preview.py:279-285 | The cursor loop walks the pieces of the path. |
| LaunchPreview.SplitJoin | gigaevo/experiment/launch_preview.py:268-285 | Dot-free pieces come back from their dotted path. |
| LaunchPreview.NestedPath | gigaevo/experiment/launch_preview.py:268-285 | Outer key, dot, inner key is the one path of a document with one nested leaf, and its lookup finds the leaf. |
| LaunchPreview.FlatAgrees | gigaevo/experiment/launch_preview.py:268-285 | Below any prefix flattening maps exactly the dotted paths of the leaves to their data. |
| LaunchPreview.FlattenAgreesWithLookup | gigaevo/experiment/launch_preview.py:268-285 | A path maps to v in the flattened form if and only if its lookup reaches the value v, for dot-free keys at any depth. |
| LaunchPreview.OnePathPerLeaf | gigaevo/experiment/launch_preview.py:268-276 | Distinct leaves get distinct dotted paths. |
| LaunchPreview.DottedKeyIsLost | gigaevo/experiment/launch_preview.py:268-285 | In a document of one entry, a dotted key is flattened to a path whose lookup finds nothing. |
| LaunchPreview.LeafOfPath | gigaevo/experiment/launch_preview.py:268-276 | With dots allowed, every flattened path is the dotted path of a leaf with that datum. |
| LaunchPreview.PathOfLeaf | gigaevo/experiment/launch_preview.py:268-276 | And every leaf's dotted path is flattened. |
| LaunchPreview.LaterEntryWins | gigaevo/experiment/launch_preview.py:268-276 | Where two entries share a dotted path the later one's datum is kept, and every other path stays. |
| LaunchPreview.DottedPathIsFoundIff | gigaevo/experiment/launch_preview.py:268-285 | A leaf whose dotted path no other leaf shares is looked up by it if and only if no key on the way holds a dot. |
| LaunchPreview.AgreementIff | gigaevo/experiment/launch_preview.py:268-285 | When no two leaves share a path, flattening and lookup agree everywhere if and only if no key on the way to a leaf holds a dot. |
| LaunchPreview.SharedPathIsFound | gigaevo/experiment/launch_preview.py:268-285 | Another entry can make the lookup of a dotted key succeed, with that entry's datum. |

## Left out

- Redis networking, connection retries, streams, pipelining round trips, metrics and logging: no state the
  properties depend on.
- JSON and Pydantic encoding, corrupt blobs and corrupt files: encoding is the identity on programs.
- Operations the original runs without WATCH are single steps of the machine, as their callers' exclusive
  ownership promises; guarded operations interleave with them at every step.
- `transition_status`, `remove_ids_from_status_set` and `batch_move_status_sets` move ids without touching
  blobs; they are not part of the index results.
- SCAN may report a key twice or miss one written meanwhile; listings are taken at one instant.
- Instance locks, the writer flag `read_only`, stage outputs and the run-state file of the stores.
- DiskStorage.DiskProgramStorage.RecoverStrandedPrograms: takes the ids in any order rather than sorted, which is more general.
- DiskStorage.DiskProgramStorage.constructor: file names and the skipping of corrupt files are not modelled.
- `clear` of the disk store: deleting a directory is not one step.
- PopulationSnapshot.PopulationSnapshot.GetAll: one read is one event here and lists are maps from ids; the awaits
  of a read are the steps of SnapshotReads.
- PopulationSnapshot.Values: lists a map in some order; the original's insertion order is not modelled.
- SlotNames.SlotNameRoundTrip: reads canonical decimals only, since other spellings `int()` accepts are
  rejected by the comparison with the rendered name.
- ReasoningChain and LLMStepDescription validation after transcription beyond a non-empty title and aim, and evidence
  fields of a diff, belong to a library that is not part of this model; lower-casing of namespaces covers ASCII
  letters.
- EndpointPool: cooldown ends are free steps in place of expiry times; a request abandoned by an exception
  outside `Exception` keeps its count and is not modelled; latency sums are left out.
- SyncHook: failed reads (reported as zero) are left out.
- SyncHook.ProgressBasedSyncHook.Call: with an interval of zero or less a wait may never end; the contract then
  covers the waits that some poll ends.
- SyncHook.ProgressBasedSyncHook.WaitForOpponents: the same waits without an end are left out.
- SyncProtocol: assumes one call of the hook after every epoch, as the hook's own documentation does, and that a
  population's counter stands still inside the hook. In this repository the only call site is
  `gigaevo/evolution/engine/steady_state.py:105-106`, once before the engine's loops start, so that a hook with
  ratio one takes its baseline there and is not called again.
- DGTracker: key expiry is left out, `record_metrics` alone and `get_deltas_against` are not modelled, and one
  batch reaches the store as a whole although its pipeline is not a transaction.
- Scores, fitness values and deltas are reals: NaN, infinities and rounding are not modelled.
- OpponentProvider: softmax sampling, failed sources and the elite-rotation event are left out; blobs are read
  at one instant.
- PathUpdate.Node.SetNested: the cursor loop is written as calls on the object the cursor would move to, and
  dotted strings are taken as already split into parts. Documents sharing one object in two places are left out:
  a write at one of them shows at the other.
- PathUpdate.Node.SetInList: the same documents are left out.
- PathUpdate.Node.SetInField: the same documents are left out.
- PathUpdate.Node.TraverseRaw: the same documents are left out.
- SlotRepair: the evidence fields of a diff are set aside.
- LaunchPreview: keys are strings, and values other than mappings are opaque data.
- Further listings and queries (`get_all_by_status`, `count_by_status`, `get_top_d_for_g`) would only add
  easy members.

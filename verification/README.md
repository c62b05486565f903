# Verified model of the sync core

A Dafny model of the parts of this Obsidian / CouchDB sync plugin whose
correctness is hard to see by reading one function at a time. Each part is a
pure specification (datatypes, step functions, lemmas over all inputs and all
runs) and, where the source works by changing things, classes and loops whose
contracts tie them to that specification.

- **Config merge** (`JsonPointer`, `Json`, `ConfigMerge`, `ConfigMergeJson`,
  `ConfigPatch`): three-way and base-less JSON merge, set merge, diff, partial
  patch, pinning, and RFC 6901 pointers. JavaScript strings are sequences of
  UTF-16 code units (`Utf16`, with `Sequences`); objects carry their key order, and equality
  forgets it.
- **Replication** (`VectorClocks`, `SyncRelation`, `ReplicationProtocol`):
  clocks, the pull verdict, and a protocol of any number of devices that edit,
  pull, resolve, rename and accept deletions.
- **Local store** (`DocStore`, `DexieStore`): transactions with one sequence
  number each, vector-clock compare-and-set, the changes cursor, the change
  signature, and the builder's retry loop.
- **Chunks** (`IdOrder`, `Chunker`, `FileStore`, `ChunkConsistency`,
  `ChunkDiagnosis`, `RemoteCouch`, `ChunkRepair`): split and join, garbage collection, the
  convergence gate, the paged sort-merge of two inventories, and the repair that follows it.
- **History** (`SurrogateDiff`, `SurrogateNormalize`, `SurrogatePasses`,
  `HistoryTree`, `HistoryManager`): the surrogate-pair rewrite of a diff list
  and the branching tree of patches.
- **Supervisors** (`SessionLifecycle`, `Reconnects`, `SessionStages`, `SyncEngine`,
  `CompositionSteps`, `CompositionGate`): state machines whose steps are the stretches between two
  awaits, with every interleaving of those steps allowed.
- **Disk-write ids** (`DiskWriteIds`, `ConfigBinding`): many config stores, one
  disk, one settings record, and crashes between any two writes.

`dafny verify dfyconfig.toml` checks the whole project.

## What the source does not keep

Each of these is a lemma with a concrete input or run, beside the exact
condition under which the property does hold.

- Two devices can reach one clock with two contents: taking an alive remote
  version can lower a device's own clock entry, so that it uses a count again
  (`ReplicationProtocol.TakeAliveCanTie`); a rename merges in the clock of the
  path it comes from, counts of other devices included (`RenamesCanTie`); and
  accepting a remote hard deletion stores a tombstone under the clock of the
  alive doc (`DeletionTies`). While no deletion is accepted and every increment goes
  beyond all earlier counts of its device there is no tie (`NoClockTies`), and the
  first step that does not gives birth to one exactly as `TieBornExactly` says. A tie also passes the gate of the chunk
  diagnosis (`ChunkDiagnosis.TieFoolsGate`, `EitherSideRefers`).
- `allFileDocs` ends its key range at U+FFF0, so a file whose path starts with
  a higher unit is not listed and the chunk sweep deletes its content
  (`FileStore.UnlistedFileLosesItsChunks`, `CollectExact`).
- A repair whose `failed` list is empty may still have left chunks one-sided:
  per-id refusals show only in the counts
  (`ChunkRepair.FailedEmptyIsNotEnough`, `RepairReachesFixedPoint`).
- A history capture whose record cannot be saved still moves the snapshot, and
  the old head is then reconstructed as the newer text
  (`HistoryTree.LostSaveRun`, `LostSaveBreaksHistory`).
- A stop of the sync engine is not final while a reconnect is suspended. A
  restart that waits in its teardown opens a session on the stopped engine
  (`Reconnects.RestartSurvivesStop`), if and only if it is still syncing, not
  blocked, not degraded and the latch is free (`RestartOpensAfterStop`); a probe
  that fails arms a retry (`ProbeSurvivesStop`). `StopIsFinalExactly` says when a
  stop is final.
- A restart that comes to its open while an overtaken run is still in its
  agreement check is dropped by that run's latch (`Reconnects.RestartDuringGateStalls`,
  `RestartStartsExactly`, `RestartMeetsLostLatch`). Nothing returns by itself then,
  exactly if no retry is armed and no reconnect queued (`RestartLostExactly`); a new
  request, such as the health watchdog's, revives the engine (`WatchdogRevives`).
- The composition gate's documented time limit is not kept: a timer that fires
  during an unforced drain is spent without effect
  (`CompositionSteps.SpentTimerLeavesWriteWaiting`), and stopping the gate clears
  the timers of queues it keeps (`StopLeavesWriteUntimed`); nothing else loses
  the limit (`LimitLostExactly`, `WaitingIsLimited`). A composition that ends
  while the gate is stopped leaves its queue undrained (`UnheardEndForgetsWrite`,
  `HeldExactly`). The code is followed, not the comment.

## Model

| member | source | states |
|---|---|---|
| JsonPointer.UnescapeEscape | src/sync/config-merge.ts:87-93 | Unescaping an escaped key gives the key back, for every text, `~01` and the empty key included (section 4 of RFC 6901). |
| JsonPointer.EscapeUnescape | src/sync/config-merge.ts:87-93 | Escaping an unescaped token gives the token back, for every token the RFC's grammar allows. |
| JsonPointer.TokensOfChild | src/sync/config-merge.ts:95-104 | Parsing undoes one printing step: the child's tokens are the parent's tokens and the key, for every parent text and every key. |
| JsonPointer.TokensOfPrint | src/sync/config-merge.ts:95-104 | Parsing a printed token list gives exactly that list. |
| JsonPointer.PrintInjective | src/sync/config-merge.ts:95-104 | Distinct token lists print to distinct pointers. |
| JsonPointer.PrintTokens | src/sync/config-merge.ts:95-104 | Printing the parsed tokens of a valid pointer (section 3 of RFC 6901) gives the pointer back. |
| JsonPointer.PrintIsValid | src/sync/config-merge.ts:87-98 | Everything printed is a valid pointer. |
| JsonPointer.CoversIsPrefix | src/sync/config-merge.ts:309-313 | A pointer covers another exactly when its token list is a prefix of the other's; a sibling whose name merely starts alike is not covered. |
| Json.EqualIsContent | src/sync/config-merge.ts:62-84 | `jsonEqual` holds exactly when the two values have the same content, key order forgotten at every level. |
| Json.SlotEqualEquivalence | src/sync/config-merge.ts:62-84 | It is reflexive, symmetric and transitive, absent values included. |
| Json.SlotEqualAt | src/sync/config-merge.ts:62-84 | Equal values are equal at every pointer. |
| Json.AgreeEverywhere | src/sync/config-merge.ts:62-84 | Values that agree at every pointer are equal: the converse. |
| ConfigMerge.ConflictsExact | src/sync/config-merge.ts:159-175 | The three-way merge reports a pointer exactly when base, local and remote differ pairwise there, the two sides are not both objects, and both are objects at every ancestor. |
| ConfigMerge.ConflictsDistinct | src/sync/config-merge.ts:159-175 | No pointer is reported twice. |
| ConfigMerge.Merge3At | src/sync/config-merge.ts:159-175 | At every pointer: where remote equals base the result is local's, where the sides agree it is theirs, where local equals base it is remote's unless a conflict covers the pointer, and under a conflict it is local's. |
| ConfigMerge.Merge3Wf | src/sync/config-merge.ts:159-175 | The merged object has each of its keys once. |
| ConfigMerge.OrderLikeContent | src/sync/config-merge.ts:394-403 | The ordering pass changes no content at any depth. |
| ConfigMerge.OrderLikeAt | src/sync/config-merge.ts:394-403 | The ordered value is equal to the unordered one at every pointer. |
| ConfigMerge.OrderLikeOrders | src/sync/config-merge.ts:394-403 | At every depth the reference's keys come first in its order and the others after them in theirs. |
| ConfigMergeJson.OrderSet | src/sync/config-merge.ts:139-144 | The loop computes local's members in local's order, then the rest of remote's. |
| ConfigMergeJson.MergeSet | src/sync/config-merge.ts:146-157 | The Set-updating loops compute the merged member list. |
| ConfigMergeJson.MergedSetExact | src/sync/config-merge.ts:139-157 | An element of the base is in the merged set exactly when both sides kept it, any other element exactly when a side has it, and each element once. |
| ConfigMergeJson.MergedSetAt | src/sync/config-merge.ts:138-157 | What mergeJson returns for sets: a member of the base is in it exactly when both sides hold it, any other element when a side does, the union without a base; a set again, in local's order and then remote's, without conflicts. |
| ConfigMergeJson.LocalFirstIsMerge3 | src/sync/config-merge.ts:177-199 | The base-less local-first merge is the three-way merge over an absent base. |
| ConfigMergeJson.RemoteFirstIsSwapped | src/sync/config-merge.ts:177-199 | Remote-first gives the content of local-first with the sides exchanged. |
| ConfigMergeJson.RemoteFirstReportsNothing | src/sync/config-merge.ts:177-199 | Remote-first reports no conflict. |
| ConfigMergeJson.MergeJson | src/sync/config-merge.ts:206-223 | The entry point picks set or tree merge and the final order as specified. |
| ConfigMergeJson.MergeJsonAt | src/sync/config-merge.ts:159-223 | After the final order pass, every pointer of a based merge still has the value of the three-way rule. |
| ConfigMergeJson.MergeJsonNoBaseAt | src/sync/config-merge.ts:177-223 | Every pointer of a base-less merge follows the three-way rule over an absent base, with the rule's winner as local. |
| ConfigMergeJson.MergedKeepsLocalOrder | src/sync/config-merge.ts:394-403 | Every object of a merged file has local's keys first, in local's order, and the others after them in the order of the merge. |
| ConfigMergeJson.MergeJsonConflicts | src/sync/config-merge.ts:159-223 | The conflicts returned are exactly the conflicting positions, each once. |
| ConfigMergeJson.CoveredIsReported | src/sync/config-merge.ts:159-175 | A position lies under a conflict exactly when a reported pointer covers it. |
| ConfigMergeJson.MergeConflictsSymmetric | src/sync/config-merge.ts:206-223 | Exchanging local and remote reports the same pointers. |
| ConfigMergeJson.MergeSymmetric | src/sync/config-merge.ts:206-223 | Without conflicts the exchanged merge gives an equal value; for sets, the same members. |
| ConfigPatch.DiffJson | src/sync/config-merge.ts:236-261 | The entry point computes the tree diff or the set diff. |
| ConfigPatch.DiffSound | src/sync/config-merge.ts:248-261 | Every change stands at a point where the files differ below common objects, carries local's value there, and says whether base had one. |
| ConfigPatch.DiffComplete | src/sync/config-merge.ts:248-261 | Every such point has its change. |
| ConfigPatch.DiffPointsApart | src/sync/config-merge.ts:248-261 | No change is at or below another, so any selection is consistent. |
| ConfigPatch.ApplyJsonChanges | src/sync/config-merge.ts:268-298 | The loop applies the changes in order. |
| ConfigPatch.AtUpdate | src/sync/config-merge.ts:278-295 | One change gives its value at and below its pointer, objects above it, and moves nothing else. |
| ConfigPatch.UpdateKeys | src/sync/config-merge.ts:282-295 | An object on the way keeps its keys in order; a new key goes last and a removed one goes. |
| ConfigPatch.PatchAt | src/sync/config-merge.ts:236-298 | Any sub-selection of what diffJson returns, in any order and with repeats, gives local's value at and below every selected pointer and base's value at every pointer unrelated to a selected one, unless the set option is on and both files are sets. |
| ConfigPatch.DiffExactly | src/sync/config-merge.ts:236-262 | diffJson returns then exactly the changes at the diff points, each with local's value or its absence and the mark of a key the base lacks. |
| ConfigPatch.WholeDiff | src/sync/config-merge.ts:236-298 | Applying all that diffJson returns, in any order, gives local's content. |
| ConfigPatch.PatchSetAt | src/sync/config-merge.ts:236-298 | Any sub-selection of a set diff: the selected elements as local has them, the others as base has them, and the result is a set. |
| ConfigPatch.WholeSetDiff | src/sync/config-merge.ts:236-298 | Applying the whole set diff gives local's members. |
| ConfigPatch.PinPointers | src/sync/config-merge.ts:348-384 | The loop pins every pointer in order, as members in set mode. |
| ConfigPatch.PinnedPositions | src/sync/config-merge.ts:348-384 | Every position at or below a pin has the source's value whatever is pinned around it; positions unrelated to every pin keep theirs. |
| ConfigPatch.PinnedMembers | src/sync/config-merge.ts:348-384 | In set mode an element is as in the source exactly when it is pinned, else as before. |
| VectorClocks.Leq | src/sync/vector-clock.ts:21-35 | The entry loop's order is the componentwise order with missing entries as 0. |
| VectorClocks.CompareVC | src/sync/vector-clock.ts:21-35 | The two-flag loop computes the relation of the componentwise order. |
| VectorClocks.MergeVC | src/sync/vector-clock.ts:37-44 | The loop computes the join. |
| VectorClocks.Join | src/sync/vector-clock.ts:37-44 | Every entry of the join is the larger of the two. |
| VectorClocks.Increment | src/sync/vector-clock.ts:46-53 | Only the own entry grows, by one. |
| SyncRelation.DiskReplacedOnlyWhenExplained | src/sync/classify-sync-relation.ts:206-299 | At a vault call site the relation is a remote edit exactly when contents differ, the doc is strictly newer, and the disk still holds the alive content its baseline recorded. |
| SyncRelation.RelationExactly | src/sync/classify-sync-relation.ts:206-299 | The exact condition of each of the five relations, by content, causal order, attribution, baseline and recreate authority. |
| SyncRelation.VerdictExactly | src/conflict/conflict-resolver.ts:68-148 | The exact condition of each of the four pull verdicts, a missing local doc included. |
| SyncRelation.VerdictsMirror | src/conflict/conflict-resolver.ts:68-148 | The verdicts of (A,B) and (B,A) mirror each other, and both keep local exactly when content and clock agree. |
| SyncRelation.TakenIsNewer | src/conflict/conflict-resolver.ts:68-148 | A pull takes the remote exactly when content differs and its clock is strictly newer. |
| ReplicationProtocol.EqualClocksEqualContent | src/sync/classify-sync-relation.ts:249-267 | In a state with the invariant, any two versions ever stored with equal clocks have equal content. |
| ReplicationProtocol.StepInv | src/conflict/conflict-orchestrator.ts:238-249 | Every increment that takes a count of its device's beyond all that a stored version has keeps the invariant; pulls and taking an alive doc always do. |
| ReplicationProtocol.RunInv | src/conflict/conflict-orchestrator.ts:727-790 | So does every run. |
| ReplicationProtocol.NoClockTies | src/sync/classify-sync-relation.ts:249-267 | On any number of devices, in every run in which each increment takes a count beyond all of its device's that a stored version has, and no deletion of an alive doc is accepted, any two versions ever stored with equal clocks have equal content, so no pull meets a clock tie. |
| ReplicationProtocol.TieBornExactly | src/sync/classify-sync-relation.ts:249-267 | After any such run the next step, of whatever kind, gives birth to a tie if and only if it accepts a deletion of an alive doc or performs an increment whose clock some version of other content has already; it then breaks the rule. |
| ReplicationProtocol.TieReusesCount | src/conflict/conflict-orchestrator.ts:238-249 | A version that ties with a new increment already has exactly its count: the device uses it a second time. |
| ReplicationProtocol.EditFreshExactly | src/sync/vector-clock.ts:46-53 | An edit uses a fresh count if and only if the device has seen, at this path, all of its own counts. |
| ReplicationProtocol.RenameIsFresh | src/sync/vault-sync.ts:1579-1608 | So does either end of a rename, if the device has, whatever clock it brings in from the other path. |
| ReplicationProtocol.KeptEntriesAreFresh | src/conflict/conflict-orchestrator.ts:727-790 | A rule a device can keep by itself is enough: no lowered own entry on taking an alive doc, no entry of another device brought in beyond that device's own, no accepted deletion of an alive doc. |
| ReplicationProtocol.OrdinaryRunsQualify | src/conflict/conflict-orchestrator.ts:727-790 | Every run of edits, pulls, keep-local and taken deletions uses no count twice. |
| ReplicationProtocol.TakeAliveCanTie | src/conflict/conflict-orchestrator.ts:746-757 | A concrete run in which two devices take each other's alive versions, edit, use a count twice and end with one clock for two contents. |
| ReplicationProtocol.RenamesCanTie | src/sync/vault-sync.ts:1579-1608 | A concrete run in which two devices rename two other paths onto one, the second using a count twice, and end with one clock for two contents. |
| ReplicationProtocol.DeletionTies | src/db/sync/pull-writer.ts:159-165 | Accepting a remote hard deletion of an alive doc makes the doc and its tombstone tie at once, and a pull of either over the other is a conflict. |
| ReplicationProtocol.PullsConverge | src/conflict/conflict-resolver.ts:68-148 | Without a conflict, two devices that pull each other once agree on content and clock. |
| ReplicationProtocol.ClocksNeverGoBack | src/conflict/conflict-orchestrator.ts:727-790 | No step but taking an alive doc lowers what a device has seen. |
| ReplicationProtocol.KeepLocalKeeps | src/conflict/conflict-orchestrator.ts:238-249 | Keeping the local version keeps its content under a clock strictly above both sides: a holder of the remote version then takes it, and the keeper does not take the remote one back. |
| ReplicationProtocol.TakenDeletionDeletes | src/conflict/conflict-orchestrator.ts:758-790 | A taken deletion leaves the doc deleted under a clock strictly above both sides, so that a holder of the local version takes it. |
| ReplicationProtocol.TakenAliveIsStored | src/conflict/conflict-orchestrator.ts:746-757 | A taken alive version is stored as it is. |
| ReplicationProtocol.StaleChoiceWritesNothing | src/conflict/conflict-orchestrator.ts:727-790 | A choice made over another version than the stored one writes nothing. |
| ReplicationProtocol.OnlyOfferedIsTaken | src/conflict/conflict-orchestrator.ts:727-790 | A version that was never stored, a tombstone taken as alive or an alive version taken as a deletion changes nothing. |
| ReplicationProtocol.EditStores | src/sync/vector-clock.ts:46-53 | After an edit the doc has the new content under a strictly higher clock, so a device with the old one takes it. |
| ReplicationProtocol.RenameStores | src/sync/vault-sync.ts:1579-1608 | After either end of a rename the doc has its content under a clock strictly above both paths' clocks. |
| ReplicationProtocol.OthersKeep | src/conflict/conflict-orchestrator.ts:727-790 | No step changes another device's doc. |
| DexieStore.DexieStore.Transact | src/db/dexie-store.ts:239-278 | One transaction changes both tables and the sequence number together, or nothing when a compare-and-set fails. |
| DexieStore.DexieStore.PutDocRows | src/db/dexie-store.ts:365-400 | The docs loop stops at a conflict exactly when some compare-and-set fails against the rows before it, and else upserts all docs. |
| DexieStore.DexieStore.RunWriteTx | src/db/dexie-store.ts:239-278 | Aborted attempts are retried and leave nothing behind; the write happens at most once. |
| DexieStore.DexieStore.RunWriteBuilder | src/db/dexie-store.ts:306-336 | The retry loop over fresh snapshots behaves as the builder run of the model: only a lost race is tried again, any other error of the builder or of the transaction ends the call. |
| DexieStore.DexieStore.WriteMetaRows | src/db/dexie-store.ts:411-430 | The loop over meta writes leaves the last write of each key. |
| DocStore.TxOnlyNewer | src/db/dexie-store.ts:344-443 | A transaction leaves a row as it is, deletes it, or gives it a sequence number above the old counter; every row's number stays at or below the counter. |
| DocStore.TxWritesMeta | src/db/dexie-store.ts:405-438 | After a committed transaction a key whose last write is a put has that value, one whose last write is a delete is absent, and the others are as they were. |
| DocStore.TxWritesDocs | src/db/dexie-store.ts:365-402 | It takes the next number, deletes what it says, and gives a written doc its clock and body and a version one above the stored one. |
| DocStore.TxWritesChunks | src/db/dexie-store.ts:347-362 | Rows it does not name stay; a chunk is stored once, under the first version. |
| DocStore.TxRefusedExactly | src/db/dexie-store.ts:365-400 | It is refused, and then changes nothing, if and only if some doc expects another clock than the stored one. |
| DocStore.OutcomeExactly | src/db/dexie-store.ts:239-280 | The first attempt that is not aborted decides, the transaction running or its error thrown; four aborted attempts end in an abort. |
| DocStore.SignatureDetectsChange | src/db/dexie-store.ts:72-103 | Between any two states of any run of transactions, equal (maxDocSeq, docCount) signatures mean identical docs tables. |
| DocStore.SignatureUnique | src/db/dexie-store.ts:568-577 | The signature is a function of the docs table. |
| DocStore.MetaOnlyKeepsSignature | src/db/dexie-store.ts:72-103 | A meta-only transaction moves the sequence number and not the signature. |
| DocStore.PollCatchesUp | src/db/dexie-store.ts:453-491 | One call of `changes` brings a consumer that skipped nothing up to every row of the table. |
| DocStore.CursorNeverSkips | src/db/dexie-store.ts:453-491 | With any writes interleaved between calls, the consumer agrees with the table on every row at or below its cursor. |
| DocStore.CommittedOverExpected | src/db/dexie-store.ts:365-400 | A committed transaction replaced docs whose stored clock equalled the one it gave. |
| DocStore.TxAdvances | src/db/dexie-store.ts:365-400 | A writer that gives the clock it read and writes a strictly greater one advances the stored clock or leaves it. |
| DocStore.ClocksFormAChain | src/db/dexie-store.ts:365-400 | Under any interleaving of such writers a doc's committed clocks form a strictly increasing chain. |
| DocStore.BuilderWritesOnce | src/db/dexie-store.ts:306-336 | Under any interleaving and any faults every attempt before the last lost its race, and the only write of the call is the committed attempt's, over the state it then met; giving up, a refused build and any other error write nothing. |
| IdOrder.NulIsSuccessor | src/sync/chunk-consistency.ts:394-410 | In code-unit order an id followed by NUL is the id's immediate successor. |
| IdOrder.PrefixRange | src/db/local-db.ts:262-277 | Which names the key range of a prefix holds: those whose first unit after the prefix is below U+FFF0, and U+FFF0 alone. |
| Chunker.SplitBinary | src/db/chunker.ts:97-113 | The loop cuts the bytes into the specified pieces. |
| Chunker.PiecesExact | src/db/chunker.ts:97-113 | The pieces concatenate to the bytes, all but the last are full, the last is not longer, and there is always one. |
| Chunker.ChunkIdInjective | src/db/chunker.ts:166-190 | With a collision-free hash, equal chunk ids mean equal content. |
| Chunker.AlgorithmsApart | src/db/chunker.ts:166-190 | Ids name their algorithm, and no id of one is an id of the other. |
| Chunker.SplitIntoChunks | src/db/chunker.ts:166-190 | The loop writes one content-addressed chunk per piece, in order. |
| Chunker.JoinChunks | src/db/chunker.ts:197-217 | The two-pass buffer fill gives the concatenation, or names the first chunk without content. |
| Chunker.JoinUndoesSplit | src/db/chunker.ts:97-217 | Joining the chunks of a split gives the bytes back, for every chunk size of at least 1. |
| FileStore.ReadChunks | src/db/local-db.ts:251-260 | The loop returns the rows that exist, in request order. |
| FileStore.ReadFile | src/db/local-db.ts:251-260 | Reading the listed chunks and joining them. |
| FileStore.CollectReferencedChunks | src/db/chunk-refs.ts:44-62 | The nested loops map an id to the owner labels of its live occurrences, in order, and hold no other id. |
| FileStore.LabelsMember | src/db/chunk-refs.ts:44-62 | An id has labels exactly when a live doc lists it. |
| FileStore.LabelsOfOne | src/db/chunk-refs.ts:44-62 | A live doc gives its label once for each time it lists the chunk, a deleted one never. |
| FileStore.LabelsInOrder | src/db/chunk-refs.ts:44-62 | The labels come in the order of the docs. |
| FileStore.GcOrphanChunks | src/db/chunk-gc.ts:50-91 | The sweep deletes exactly the chunks no listed live file references, in one transaction, and none when there is no orphan. |
| FileStore.CollectExact | src/db/chunk-gc.ts:50-91 | After a sweep with no write in between, a live file reassembles to its bytes if and only if it is empty or every chunk of it is referenced by a listed file. |
| FileStore.FilesAlwaysReassemble | src/db/chunk-gc.ts:50-91 | In every state reached by file commits, overwrites, tombstones, meta writes and sweeps, each live file reassembles to exactly the bytes it was split from. |
| FileStore.CommitStoresBytes | src/sync/vault-sync.ts:353-420 | An accepted commit leaves its path alive under its clock and reading it gives the bytes back; a refused one changes nothing. |
| FileStore.CommitRefusedExactly | src/sync/vault-sync.ts:353-420 | It is refused if and only if it expects another clock than the stored one. |
| FileStore.MarkDeletedDeletes | src/sync/vault-sync.ts:1080-1100 | An accepted tombstone leaves the path deleted under its clock with the chunk list it had. |
| FileStore.UnlistedFileLosesItsChunks | src/db/local-db.ts:262-277 | A file named U+FFFD is outside the key range the sweep lists, so the sweep deletes its chunk. |
| ChunkConsistency.PagedLocalIds | src/sync/chunk-consistency.ts:394-410 | For every page size of at least 1 the paging loop yields each id in range once, ascending. |
| ChunkConsistency.PagedRemoteIds | src/sync/chunk-consistency.ts:412-437 | The same for the over-fetching remote loop, without the tombstoned ids. |
| ChunkConsistency.AnalyzeChunks | src/sync/chunk-consistency.ts:163-227 | The two-iterator merge computes exactly the two differences, the two orphan lists, the missing references and the counts. |
| ChunkConsistency.ClassifyId | src/sync/chunk-consistency.ts:163-227 | One id is counted, compared and checked for a reference as specified. |
| ChunkConsistency.AnalyzeStores | src/sync/chunk-consistency.ts:163-227 | Paging both stores and merging gives the same report on a given list of references for every page size. |
| ChunkDiagnosis.SortBySorts | src/sync/chunk-consistency.ts:347-350 | Sorting keeps the elements and puts distinct ids in ascending code-unit order. |
| ChunkDiagnosis.DiffFileDocs | src/sync/chunk-consistency.ts:315-353 | The two loops and sorts give exactly the ids on one side only and the pairs with unequal clocks, each with its relation, in ascending order. |
| ChunkDiagnosis.GateExactly | src/sync/chunk-consistency.ts:140-155 | The diagnosis is refused exactly when an id is missing on a side or two clocks of one id differ, tombstones included. |
| ChunkDiagnosis.EitherSideRefers | src/sync/chunk-consistency.ts:157-160 | Past the gate both sides reference the same chunks, given that equal clocks name equal content. |
| ChunkDiagnosis.ReplicationNamesContent | src/sync/chunk-consistency.ts:157-160 | Equal clocks name equal content for any docs of replication runs in which no device uses a count twice. |
| ChunkDiagnosis.TieFoolsGate | src/sync/chunk-consistency.ts:140-160 | Any two docs that tie, an accepted deletion's among them, pass the gate while a chunk only one of them lists is referenced on one side only. |
| ChunkDiagnosis.CollectReferences | src/sync/chunk-consistency.ts:157-160 | The references are each chunk id that a live doc lists, once. |
| ChunkDiagnosis.AnalyzeChunkConsistency | src/sync/chunk-consistency.ts:112-262 | A report exists exactly when both sides hold the same versions; it is about the chunks of both stores against the local references, with the missing ones sorted, for every page size; otherwise the divergence is exact. |
| RemoteCouch.SplitForPush | src/db/remote-couch.ts:28-50 | The two index lists partition the positions into chunks and others, each position once and ascending. |
| RemoteCouch.PushSplit | src/db/remote-couch.ts:52-83 | Every result slot belongs to the doc at its position. |
| RemoteCouch.Replicas.PushDocs | src/db/remote-couch.ts:85-137 | The local ids the server accepts are copied and counted, and nothing else changes. |
| RemoteCouch.Replicas.PullDocs | src/db/remote-couch.ts:139-178 | The remote ids with usable bodies are copied and counted, and nothing else changes. |
| RemoteCouch.Replicas.DeleteRemoteDocs | src/db/remote-couch.ts:185-214 | The ids found and accepted are dropped and counted. |
| RemoteCouch.Replicas.DeleteLocalDocs | src/sync/chunk-repair.ts:162-186 | The chunks asked for are gone, every other one is still stored with its content, and none is added. |
| RemoteCouch.DoneAll | src/db/remote-couch.ts:85-137 | A phase's count reaches its list's length exactly when every id was present and accepted. |
| ChunkRepair.RepairChunkDrift | src/sync/chunk-repair.ts:126-271 | The four phases, their guards and their failure lists give the specified stores and result. |
| ChunkRepair.RepairIsSafe | src/sync/chunk-repair.ts:126-250 | For every plan, however stale its report, and whatever fails: no stored chunk referenced at a guard's re-read is deleted, every chunk kept or copied has its content, and none appears out of nowhere. |
| ChunkRepair.FailedExactly | src/sync/chunk-repair.ts:252-270 | The failure list names exactly the ids of the phases that threw, each with its phase; ids that a guard dropped are not among them. |
| ChunkRepair.ThrowingLocalPhases | src/sync/chunk-repair.ts:252-270 | A local phase that throws changes nothing locally. |
| ChunkRepair.ThrowingRemotePhases | src/sync/chunk-repair.ts:252-270 | A remote phase that throws changes only ids whose write had reached the server. |
| ChunkRepair.LandedIsDone | src/sync/chunk-repair.ts:252-270 | And those it does change, unless the server refused them or a guard dropped them. |
| ChunkRepair.TwoSidedUntouched | src/sync/chunk-repair.ts:102-115 | With a report of the stores as they are, a chunk on both sides stays on both, whatever fails. |
| ChunkRepair.RepairReachesFixedPoint | src/sync/chunk-repair.ts:102-250 | With unchanged references both stores hold the same ids after the repair exactly when every id's phase did its work; complete counts imply it, and are implied by it unless a remote phase threw after some of its writes had landed. |
| ChunkRepair.ReanalysisAfterRepair | src/sync/chunk-repair.ts:102-250 | A complete repair's re-analysis finds no one-sided chunk and the same missing references, and its orphans on either side are exactly the former two-sided orphans. |
| ChunkRepair.FailedEmptyIsNotEnough | src/sync/chunk-repair.ts:126-250 | A refused push leaves `failed` empty while the stores still differ. |
| SurrogateDiff.HighSnapSide | src/history/diff-engine.ts:60-84 | Moving a high surrogate out of an equality leaves both texts, for every diff list. |
| SurrogateDiff.LowSnapSide | src/history/diff-engine.ts:87-114 | Moving a low surrogate out of an equality leaves both texts, for every diff list. |
| SurrogateNormalize.HighSnapInv | src/history/diff-engine.ts:60-84 | Pass 1 keeps the list alternating, and an equality it empties is followed by a deletion and an insertion that both start high. |
| SurrogateNormalize.LowSnapInv | src/history/diff-engine.ts:87-114 | Pass 2 keeps what pass 1 achieved, and an equality it empties is preceded by a deletion and an insertion that both end low. |
| SurrogateNormalize.BothDoneSafe | src/history/diff-engine.ts:56-114 | After both passes no segment starts with a low or ends with a high surrogate, even around an emptied equality. |
| SurrogateNormalize.SafeIsWellFormed | src/history/diff-engine.ts:56-125 | Such a segment of two well-formed texts is well-formed by itself (section 3.9 of The Unicode Standard, D91). |
| SurrogatePasses.PrependInGroup | src/history/diff-engine.ts:69-80 | The forward loop touches the first deletion and the first insertion of the group and reports which it saw. |
| SurrogatePasses.AppendInGroup | src/history/diff-engine.ts:94-105 | The backward loop touches the last deletion and the last insertion of the group and reports which it saw. |
| SurrogatePasses.MoveHighOut | src/history/diff-engine.ts:61-84 | The splices of pass 1 make exactly one snap. |
| SurrogatePasses.MoveLowOut | src/history/diff-engine.ts:88-113 | The splices of pass 2 make exactly one snap and keep the index on the equality. |
| SurrogatePasses.SnapHighEnds | src/history/diff-engine.ts:59-84 | Pass 1 ends, keeps both texts, and leaves no equality that ends high. |
| SurrogatePasses.SnapLowStarts | src/history/diff-engine.ts:86-114 | Pass 2 ends, keeps both texts, and leaves no equality that starts low. |
| SurrogatePasses.MergeSegments | src/history/diff-engine.ts:116-124 | Dropping empties and joining neighbours keeps both texts and leaves neither an empty segment nor equal neighbours; a tidy list is unchanged. |
| SurrogatePasses.NormalizeSurrogateBoundaries | src/history/diff-engine.ts:56-125 | For every diff list both texts are unchanged and the result is tidy; for a canonical list of two well-formed texts every segment is well-formed; a tidy list without split pairs comes back as it is. |
| HistoryTree.ReconstructIsCaptured | src/history/history-manager.ts:51-102 | With inverting patches, a reconstruction is refused or exactly the text captured under that id. |
| HistoryTree.ReconstructExists | src/history/history-manager.ts:51-102 | It is given exactly when there is a snapshot and the id is its head, or both chains reach the same oldest record. |
| HistoryTree.StepInv | src/history/history-capture.ts:242-258 | Captures, restores that branch the tree, deletions of any records, clearing and renaming keep every patch between its parent's and its own text. |
| HistoryTree.HistoryTellsTheTruth | src/history/history-manager.ts:51-102 | So in every run without a harmful lost save, no reconstruction ever gives a wrong text. |
| HistoryTree.LostSaveBreaksHistory | src/history/history-capture.ts:247-258 | A capture keeps the history truthful if and only if it saves its record, sees no new text, or the file has no head; otherwise the snapshot moves on under the old head. |
| HistoryTree.LostSaveRun | src/history/history-capture.ts:247-258 | A run of two captures, the second unsaved: the record of the older text comes back as the newer one. |
| HistoryTree.WholeReconstructs | src/history/history-manager.ts:51-102 | In an intact tree every record can be reconstructed. |
| HistoryTree.CapturedStaysReachable | src/history/history-manager.ts:51-120 | As long as nothing is deleted or renamed, every captured text of every file stays reconstructible. |
| HistoryTree.CaptureAddsHead | src/history/history-capture.ts:242-258 | A saved capture of new text hangs a record off the head, becomes the head and comes back as captured; one that sees no new text does nothing; no other file is touched. |
| HistoryTree.RestoreMovesHead | src/history/history-manager.ts:104-120 | A restore makes the record the head with its text as the newest, so that the next capture branches off it, and touches no record; a refused one does nothing. |
| HistoryTree.DeletionsExactly | src/history/storage.ts:130-145 | Deletions take exactly the records they name, and clearing a file its snapshot; other files keep theirs. |
| HistoryTree.RenameMoves | src/history/storage.ts:146-158 | A rename moves all records and the snapshot to the new path, leaves nothing under the old one and touches no third file. |
| HistoryTree.RenameKeepsHistory | src/history/storage.ts:146-158 | A file renamed onto a path without records keeps its history: every record gives the same text there. |
| HistoryManager.History.BuildPathToRoot | src/history/history-manager.ts:33-49 | The visited-set loop ends on every map, cyclic ones included, and gives the chain from the oldest reachable ancestor. |
| HistoryManager.History.ForkIndex | src/history/history-manager.ts:69-79 | The loop finds the last index up to which both paths agree, or -1. |
| HistoryManager.History.UndoFrom | src/history/history-manager.ts:88-94 | The reverse loop undoes the head's patches down to the fork. |
| HistoryManager.History.RedoFrom | src/history/history-manager.ts:96-102 | The forward loop applies the target's patches from the fork on. |
| HistoryManager.History.ReconstructAtRecord | src/history/history-manager.ts:51-102 | All branches and loops compute the specified reconstruction. |
| HistoryManager.History.CaptureChange | src/history/history-capture.ts:242-258 | The tables after a capture, its early returns and its lost save. |
| HistoryManager.History.RestoreToRecord | src/history/history-manager.ts:104-120 | A restore returns the reconstruction and moves snapshot and head, or changes nothing. |
| HistoryManager.History.DeleteRecords | src/history/storage.ts:131-133 | Retention removes exactly the chosen records. |
| HistoryManager.History.ClearFileHistory | src/history/storage.ts:135-139 | The file's records and snapshot are removed and no others. |
| HistoryManager.History.ClearAllHistory | src/history/storage.ts:141-144 | Both tables are emptied; ids are not reused. |
| HistoryManager.History.RenamePath | src/history/storage.ts:146-158 | Records and snapshot move to the new path, replacing a snapshot there. |
| SessionLifecycle.RunInv | src/db/sync-engine.ts:721-965 | Every interleaving keeps: one run at most at the gate and no session then; a run past registration with a live session finds it registered; so does every session that went live. |
| SessionLifecycle.RunsNeverClobber | src/db/sync-engine.ts:762-965 | Two runs past registration never both hold an undisposed session, and the one that does finds it registered. |
| SessionLifecycle.OnlyRegisteredGoesLive | src/db/sync-engine.ts:935-965 | Only the registered session starts its loops, and every session that went live before is disposed by then. |
| SessionLifecycle.FailureClearsOwnSession | src/db/sync-engine.ts:853-920 | A failing run clears the registration of its own session only. |
| SessionLifecycle.WaitsAtGate | src/db/sync-engine.ts:567-590 | Nothing but its own step moves a run from the gate, and the generation moves past the one it saw exactly when a teardown happens: an explicit one, an auth or terminal error, the first degradation, or a restart that begins. |
| SessionLifecycle.OvertakenRunChangesNothing | src/db/sync-engine.ts:796-816 | A run overtaken by any teardown during the agreement check registers no session, arms no retry timer and changes nothing but the latch. |
| SessionLifecycle.RegistersUnlessOvertaken | src/db/sync-engine.ts:796-850 | A run that passes the agreement check registers its session if and only if nothing overtook it. |
| SessionLifecycle.RunSound | src/db/sync-engine.ts:497-965 | So does every interleaving with reconnects: the latch is held by a run that waits at the gate, the reconnect that awaits an openSession run awaits one under way, and only a reconnect in flight has a queue. |
| SessionStages.LiveExactly | src/db/sync-engine.ts:796-965 | In every run the sessions whose loops were started are exactly those that got through the agreement check (where there is one), health, checkpoints, the drift stamp (where there is one), catch-up, warm-up and backfill, each once and in this order. |
| SessionStages.FailedNeverLive | src/db/sync-engine.ts:861-920 | A session whose health check, checkpoints or catch-up failed never goes live, whatever happens afterwards. |
| SessionStages.CatchupClearsRetry | src/db/sync-engine.ts:921-931 | A passed catch-up clears the retry timer and leaves its session registered. |
| SessionStages.FailureLeaves | src/db/sync-engine.ts:861-920 | A failing await ends its session and leaves, by the kind of error: an auth block without a retry, no retry, a degraded latch without a retry, or a retry unless the database is degraded. |
| SessionStages.GateFailureLeaves | src/db/sync-engine.ts:799-816 | So does a failing agreement check that nothing overtook; one that something overtook leaves latches and timer alone. |
| SessionStages.ProbeLeaves | src/db/sync-engine.ts:1160-1242 | So does a probe that does not reach the server, and it ends the reconnect; an inconclusive one arms a retry, one made while an error shows changes nothing more, a reachable server begins the restart. |
| SessionStages.TimerFiresOnce | src/db/sync-engine.ts:671-684 | The retry timer fires once, and an unarmed one not at all. |
| SessionStages.AuthHaltsUntilStart | src/db/sync-engine.ts:572-579 | After an auth error, reported, raised or met by a probe, no session registers or goes live until the next start, whatever reconnects, retries and suspended opens do. |
| SessionStages.RaisedLatchKeepsOut | src/db/sync-engine.ts:292-305 | An auth latch raised while an error shows sets only the latch; until the next start no further run opens and no reconnect begins. |
| SessionStages.DegradedIsQuiet | src/db/sync-engine.ts:652-666 | In every run a degraded database means that no session is registered and nothing under way can register one. |
| Reconnects.NothingReturnsExactly | src/db/sync-engine.ts:469-965 | From any reachable state, no session, retry timer or live loop comes out of what is under way, in whatever order it goes on, if and only if no session is registered, every run at the gate is overtaken, no retry is armed and no suspended reconnect can go on. |
| Reconnects.StopIsFinalExactly | src/db/sync-engine.ts:469-484 | In every run a stop is final, until the next start, reconnect request or error to be retried, if and only if no probe is suspended and, unless auth is blocked, no reconnect is queued or scheduled and none that may open is between its teardown and its open. |
| Reconnects.RestartOpensAfterStop | src/db/sync-engine.ts:751-780 | A restart that a stop overtakes in its teardown opens on the stopped engine if and only if the vault is still syncing, auth is not blocked, the database is not degraded and no run waits at the gate by then. |
| Reconnects.RestartSurvivesStop | src/db/sync-engine.ts:469-484 | A concrete run: start, restart, stop, and the restart registers a session on the stopped engine. |
| Reconnects.ProbeSurvivesStop | src/db/sync-engine.ts:1160-1198 | A concrete run: a probe that ends inconclusive after the stop arms a retry. |
| Reconnects.GateLeavesDriven | src/db/sync-engine.ts:796-850 | Exactly when a run's return from the agreement check leaves a session, a waiting run, a retry timer or a reconnect behind. |
| Reconnects.RestartStartsExactly | src/db/sync-engine.ts:751-780 | In every run, when a restart comes to its open, whatever happened while the old session settled, it starts its own run if and only if the engine may sync, no session came up meanwhile and no run waits at the gate; otherwise the reconnect ends. |
| Reconnects.StartOpensExactly | src/db/sync-engine.ts:447-459 | In every run a start opens a run if and only if the vault is syncing, no session is registered and no run waits at the gate, and it clears both latches unless a session is registered. |
| Reconnects.RestartMeetsLostLatch | src/db/sync-engine.ts:751-764 | A restart that begins during another run's agreement check meets the latch of an overtaken run whenever that check is still out at its open, whatever else happens in between. |
| Reconnects.RestartLostExactly | src/db/sync-engine.ts:751-816 | In every run, nothing returns by itself after the open of a restart that may sync if and only if it meets such a latch while no retry is armed and no reconnect queued or scheduled. |
| Reconnects.LostRestartStandsStill | src/db/sync-engine.ts:751-816 | Then, whatever is under way and however it goes on, no session registers or goes live, and once the overtaken run has returned nothing moves the engine on. |
| Reconnects.WatchdogRevives | src/db/sync-engine.ts:1022-1047 | From any state that stands still, the watchdog's request, a reachable server and the restart start a run again. |
| Reconnects.RestartDuringGateStalls | src/db/sync-engine.ts:751-816 | Such a run exists: a start and a restart during its check end with no session, run, timer or reconnect. |
| SyncEngine.SyncEngine.Teardown | src/db/sync-engine.ts:721-734 | Generation, registration and disposal change together before the first await. |
| SyncEngine.SyncEngine.EnterError | src/db/sync-engine.ts:567-605 | Auth and terminal errors tear down without a retry; a degraded engine arms none; the rest arm one. |
| SyncEngine.SyncEngine.HandleDegraded | src/db/sync-engine.ts:652-666 | The first degradation latches, stops the timer and tears down; later ones change nothing. |
| SyncEngine.SyncEngine.RequestReconnect | src/db/sync-engine.ts:497-556 | One reconnect at a time: a request in flight is dropped or queued, a skipped or auth-blocked one does nothing, the others probe or tear down for a restart; the lifecycle invariant is kept. |
| SyncEngine.SyncEngine.AfterProbe | src/db/sync-engine.ts:547-555 | What follows the probe: a restart, an error, a silent retry, or nothing; all but the first end the reconnect. |
| SyncEngine.SyncEngine.Reopen | src/db/sync-engine.ts:751-755 | The open after a restart's teardown, under the guards of that moment; refused, the reconnect ends and a queued one is scheduled. |
| SyncEngine.SyncEngine.Start | src/db/sync-engine.ts:447-459 | A start without a session clears the auth block and the degradation and opens. |
| SyncEngine.SyncEngine.OpenSession | src/db/sync-engine.ts:762-798 | The guards, the latch and the generation a run takes along. |
| SyncEngine.SyncEngine.ResumeGate | src/db/sync-engine.ts:799-850 | What follows the agreement check in each outcome. |
| SyncEngine.SyncEngine.Resume | src/db/sync-engine.ts:853-965 | Every stretch after an await keeps the lifecycle invariant, and live loops start only for the registered session, when every earlier live one is disposed. |
| SyncEngine.SyncEngine.NextIsValid | src/db/sync-engine.ts:497-965 | Any step from a valid engine ends in a valid engine: the invariant of all interleavings, latch and reconnect included. |
| SyncEngine.SyncEngine.Continue | src/db/sync-engine.ts:853-965 | What follows every await, disposed checks first. |
| SyncEngine.SyncEngine.Stop | src/db/sync-engine.ts:469-484 | Timer off and torn down; a reconnect in flight or queued is not touched. |
| CompositionSteps.WritesRunInOrder | src/sync/composition-gate.ts:84-104 | In every interleaving a path's uncancelled writes are, in deferral order, those finished, then at most one running, then those waiting. |
| CompositionSteps.RunOrCancelledOnce | src/sync/composition-gate.ts:115-123 | Every deferred write is in exactly one of begun, cancelled and waiting, and there once. |
| CompositionSteps.FlushInv | src/sync/composition-gate.ts:115-123 | A flush cancels only writes that neither ran nor were cancelled. |
| CompositionSteps.BeginsExactly | src/sync/composition-gate.ts:132-170 | A step begins at most one write, while the path composes only in a forced drain, which only the forced flush and the timer start and only the end of a write ends. |
| CompositionSteps.ComposingExactly | src/sync/composition-gate.ts:62-72 | A path composes from a beginning to an end, and the gate listens from a start to a stop. |
| CompositionSteps.FlushEmptiesAll | src/sync/composition-gate.ts:115-123 | A flush empties every queue, cancels what was in it and stops the timers, and leaves running writes alone. |
| CompositionSteps.OtherPathsKeep | src/sync/composition-gate.ts:84-104 | An event of one path changes no other path. |
| CompositionSteps.HeldExactly | src/sync/composition-gate.ts:147-170 | An event leaves an undrained queue without a composition if and only if it is a composition that ends while the gate is stopped. |
| CompositionSteps.NoWriteForgotten | src/sync/composition-gate.ts:60-65 | While compositions end only when the gate is started, a non-empty queue that nobody drains means the path is composing. |
| CompositionSteps.ForcedDrainRunsAll | src/sync/composition-gate.ts:147-170 | Whatever else happens short of a flush, writes deferred, compositions beginning and ending, timers, starts and stops included, a forced drain has finished everything queued, in order, after one turn per write. |
| CompositionSteps.ForcedDrainLeaves | src/sync/composition-gate.ts:147-170 | And unless a write is deferred meanwhile it leaves with nothing queued and the timer cleared. |
| CompositionSteps.LimitLostExactly | src/sync/composition-gate.ts:67-72 | An event takes the timer from waiting writes that no forced drain is running if and only if the timer fires during an unforced drain or the gate is stopped. |
| CompositionSteps.WaitingIsLimited | src/sync/composition-gate.ts:132-145 | In every run without such an event, writes that no forced drain is running have the timer armed. |
| CompositionSteps.LimitedWritesRun | src/sync/composition-gate.ts:132-170 | And once that timer fires with no drain under way, all waiting writes have run, in order, composition or not, as soon as that many writes had their turn, whatever else happens short of a flush. |
| CompositionSteps.SpentTimerLeavesWriteWaiting | src/sync/composition-gate.ts:132-170 | A concrete run: the timer fires during a drain and a write then waits for a composition with no timer. |
| CompositionSteps.StopLeavesWriteUntimed | src/sync/composition-gate.ts:67-72 | A concrete run: a stop leaves a write waiting for a composition with no drain and no timer, though none ever fired. |
| CompositionSteps.UnheardEndForgetsWrite | src/sync/composition-gate.ts:67-72 | A concrete run: a composition that ends after a stop leaves its write with no drain, no timer and nobody composing. |
| CompositionGate.CompositionGate.Defer | src/sync/composition-gate.ts:84-104 | Enqueue, arm the timer, try to drain; other paths are untouched. |
| CompositionGate.CompositionGate.RunQueue | src/sync/composition-gate.ts:147-170 | The drain lock and the start of a drain. |
| CompositionGate.CompositionGate.Turn | src/sync/composition-gate.ts:151-168 | One turn of the loop: shift and run, stop for a composition, or leave and clear the timer. |
| CompositionGate.CompositionGate.EntryDone | src/sync/composition-gate.ts:151-168 | What follows an awaited write. |
| CompositionGate.CompositionGate.FlushAll | src/sync/composition-gate.ts:115-123 | Every path's queue is cancelled and its timer cleared; running writes go on. |
| CompositionGate.CompositionGate.TimerFires | src/sync/composition-gate.ts:132-140 | The timer is spent, then a forced drain is tried. |
| CompositionGate.CompositionGate.Stop | src/sync/composition-gate.ts:67-72 | The subscription and all timers go; queues stay. |
| DiskWriteIds.RunInv | src/sync/config-binding.ts:363-401 | Every run, with a crash between any two writes, keeps: a store stamped with the id in memory or in the settings file has no stale base, and while the disk is written no other store carries its id. |
| DiskWriteIds.AlignedHasNoStaleBase | src/sync/config-binding.ts:363-382 | After any run, aligning a store leaves no base that predates a disk write by another store's Pull. |
| DiskWriteIds.OperationSeesNoStaleBase | src/sync/config-sync.ts:1356-1363 | The same at every moment of the operation that follows. |
| DiskWriteIds.OthersAreDropped | src/sync/config-binding.ts:384-401 | Once a Pull has recorded its write, every other store loses all bases at its next alignment. |
| DiskWriteIds.WriteMakesOthersStale | src/sync/config-binding.ts:384-401 | That is needed: once a Pull has written the disk, every base another store still has is stale. |
| DiskWriteIds.OperationExactly | src/sync/config-binding.ts:384-401 | An operation begins with its store aligned, a settled base has the present moment, a dropped one is gone, and the others stay. |
| DiskWriteIds.CrashKeepsFiles | src/sync/config-binding.ts:384-401 | A crash keeps the stores and the settings file and loses the record in memory. |
| DiskWriteIds.OtherStoresKeep | src/sync/config-binding.ts:384-401 | No event touches a store but that of the operation, a preparation or a reset. |
| DiskWriteIds.RecordedIsSettled | src/sync/config-binding.ts:391-401 | A recorded write leaves store, memory and settings file with one id. |
| DiskWriteIds.SettledKeepsBases | src/sync/config-binding.ts:363-382 | Nothing is dropped without need: until a new id is drawn or the store is reset, crashes, saves and other stores' operations leave a settled store's bases exactly as they are, and its next alignment keeps them. |
| ConfigBinding.ConfigBinding.AlignBasesWithDisk | src/sync/config-binding.ts:363-382 | Equal ids keep the bases; otherwise all are dropped, counted, and the store is stamped; this is the protocol's prepare step. |
| ConfigBinding.ConfigBinding.RecordDiskWrite | src/sync/config-binding.ts:391-401 | Settings are saved before the store is stamped, and a failure of either leaves the state of the protocol's steps up to it. |
| ConfigBinding.ConfigBinding.ResetStore | src/sync/config-binding.ts:406-413 | Stamp and bases are gone, as in the protocol's reset. |

## Left out

- HTTP, Dexie and IndexedDB, Web Crypto, gzip, xxhash and diff-match-patch: assumed to give atomic transactions with rollback, a collision-free chunk hash, and patches that undo each other forward and in reverse.
- ConfigPatch.ApplyJsonChanges: the copied tree is changed in place in the source and rebuilt as a value here; aliasing between an applied value and the change that carries it is not modelled (the source clones it).
- ConfigPatch.PinPointers: the same, on values.
- JavaScript object quirks (integer-like key order, `__proto__`, inherited names seen by `in`): plain own keys are assumed.
- JSON text: parsing, format detection and serialization of files.
- DexieStore.DexieStore.Transact: the `_update_seq` row is a field of its own, so meta writes that name that key are excluded; revision strings, closing, re-opening and schema stamps are not modelled.
- DocStore.CursorNeverSkips: rows deleted from the table are not announced by `changes`, in the source as here; the consumer is compared on rows the table has.
- ReplicationProtocol.NoClockTies: recreate authority is not a step; a placeholder tombstone with an empty clock takes part only as the remote side of a resolution.
- ReplicationProtocol.StepInv: the config keep-local branch is a keep-local step over the doc the device holds; a doc captured before the branch and changed meanwhile is not modelled.
- The conflict queue (debounce, batching, in-flight paths, waiters), its dialogs, and the reconciler, vault writer and push pipeline around it.
- FileStore.FilesAlwaysReassemble: garbage collection is one step; a write between its reads and its delete is not modelled. Paths outside the listed key range are excluded by the stated condition.
- FileStore.GcOrphanChunks: the config store's sweep has the same shape over another prefix and is not repeated.
- LocalDB.getFileDocs, which pairs rows with paths by index.
- ChunkDiagnosis.AnalyzeChunkConsistency: the snapshot markers at both ends of a scan, aborts, progress and the owner labels of missing references are not modelled.
- ChunkRepair.RepairChunkDrift: a guard's re-read that throws ends the whole repair and is not modelled; nor are progress and timing.
- SurrogatePasses.NormalizeSurrogateBoundaries: the two cleanups before it and the patch serialization after it belong to diff-match-patch.
- HistoryTree.HistoryTellsTheTruth: conflict records, whose patch leads from winner to loser, the debounce and rate-limit timers, line counts, hashes and timestamps are not modelled; each method is one step.
- ReplicationProtocol.RenameIsFresh: a rename's two guards against unintegrated remote state only skip steps and are left out.
- ReplicationProtocol.TieBornExactly: the exact birth of a tie is stated for the first step that breaks the rule; what a run does after a count was used twice without a tie is not characterized.
- SessionLifecycle.RunInv: event listeners do not call back into the engine within a step; the state string, the transient timer, backoff delays and log lines are left out, so what the reconnect policy decides, and whether a request outranks the one in flight, are given with each request.
- Reconnects.StopIsFinalExactly: an error to be retried that the loops of a disposed session, or the transient timer they set, still report after a stop is such an error event, and is excluded; whether they report it is not modelled. A reconnect ends in the same step as the stretch it awaits, without the microtasks in between.
- CompositionSteps.NoWriteForgotten: a composition ends and is announced in one step.
- DiskWriteIds.RunInv: one operation runs at a time, as the config operation lock has it; random ids are fresh; the one-time base migration and the local-first markers are left out.
- Settings tabs, modals, notices, logs, platform adapters, commands, codec decorators and envelopes.

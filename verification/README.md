# tapps-brain: verified model

tapps-brain keeps an in-memory cache of memory entries and of relation rows in step with a Postgres store, and builds
several procedures on the two: a relation graph, merging and undoing merges, deferred writes, reads that race with
deletes, a knowledge graph, and text ranking. This project models the places where two views, or two orders of doing
something, must agree, and proves that they do, or exactly when they do.

Verify the project with `dafny verify dfyconfig.toml`.

| file | models |
|---|---|
| `Wrappers.dfy`, `Graphs.dfy` | options and map lookup; walks and shortest distances, the reference for both graph searches |
| `RelationRows.dfy` | the durable relation table: upsert, load and delete by source key |
| `Memory.dfy`, `Faults.dfy` | memory entries and the durable backend, with a script of the calls that raise |
| `Tombstones.dfy` | removal epochs and tombstones with their pruning |
| `MemoryStore.dfy` | the store: entry cache with its cap, relation cache, write-through updates, delete with its rollbacks |
| `RelationGraph.dfy` | `find_related` and the orphan count over the rebuilt cache |
| `AuditPaging.dfy` | the audit log in query order and the forward-paging search for the newest merge record |
| `StripRelations.dfy` | detaching a key from shared relation rows; merging the sources' relations |
| `Promotion.dfy` | the promotion state a merged row inherits |
| `MergeCourse.dfy` | where a merge stops, what it leaves there and what its rollback makes of it, for every script of raising calls |
| `Consolidation.dfy`, `UndoMerge.dfy` | the merge with its rollback, the undo with its rollback, and the one after the other |
| `Hydration.dfy` | loads outside the lock against deletes and saves, as a state machine over atomic steps |
| `Capture.dfy`, `Flush.dfy` | captured writes, their replay, the flush that can fail anywhere, and `save`, `delete` and `gc` on top |
| `KgEdges.dfy`, `KgNeighbourhood.dfy` | the edge life cycle and supersession chains; the recursive neighbourhood query |
| `Bm25.dfy`, `Stemmer.dfy` | index building, scores and their bounds; suffix stripping |
| `Integrity.dfy` | hash verification, upgrade and re-signing |
| `Bridge.dfy`, `Retry.dfy` | circuit breaker and bounded queue; the retry loop and session renewal |

## What is modelled how

- Objects the program updates in place are classes; what their methods do is stated against functions of the old state,
  and the properties are proved about those functions. SQL statements, whose meaning is a new table, are functions.
- A durable call that raises changes nothing. Which calls raise is a script (`faults`) over the call numbers, so every
  contract holds for every pattern of failures; `Healthy` says that no later call raises.
- The clock, lower-casing, hashing, the logarithm, the server's replies and the jitter are parameters. The logarithm is
  any strictly increasing function with log(1) = 0; digests of the new hash scheme are assumed non-empty.
- Source keys of a relation row are a set: every writer keeps the stored list free of duplicates. Relation rows come in
  scan order, which is taken to be stable between a load and a rebuild.
- Timestamps are integers and confidences are reals.

## Findings

- Saving relations refreshes the cache bucket of the saved key only, so it keeps the cache in step exactly when every saved
  relation adds a row of that key only, changes nothing, or changes a row no other key names
  (`MemoryStore.SaveKeepsAgreementIff`, with a counterexample in `SaveCanLeaveSiblingStale`).
- The paging search finds the newest merge record exactly when no timestamp fills a page that is not the last
  (`AuditPaging.FindsNewestIff`, with a log in `LongTieHidesNewest`).
- Undoing a merge restores a source exactly when it was live before the merge, which includes that its contradiction
  reason was empty (`UndoMerge.UndoInvertsMergeIff`).
- A raise inside the save of the merged row, after the row itself was written, leaves the row in place without rollback,
  because the flag that enables the rollback is set only after the save returned (`Consolidation.Merge`, the clause on
  `NotSaved`). The merged key is computed from the source keys, so a retry merges onto that row, and if the retry is rolled
  back the row, and every trace of the key in the relation rows, goes although it was there before: the rollback restores the
  entry and the rows of the merged key exactly when there were none (`Consolidation.CleanlyRolledBack`).
- The rollback of a merge skips a source whose update raises. That source stays closed, superseded by a key that the same
  rollback then deletes; a live source is live again exactly when it was not closed yet or one of its updates does not raise
  (`MergeCourse.RolledBackSource`).
- Two relation rows that differ in case only are merged into one, and stripping the merged key does not undo the link this
  adds between their sources (`StripRelations.CaseVariantsStayLinked`). A merge adds the merged key and nothing else, and so
  stripping restores every source set, exactly when each relation read for a source has all its sources in the row of the
  first triple of its case class (`StripRelations.MergeOnlyAddsIff`, and with it the clauses of `Consolidation.Merge` and
  `UndoMerge.MergeThenUndo`).
- The undo ignores a stripping that raises, and documents that it leaves at most a dangling merged key. When a write-back
  of the stripping raises, the rows not yet written back are gone, with the links of the sources
  (`StripRelations.PartialStripLosesIff`).
- A reader that loads a row after a delete popped it and installs it before the delete notes the removal leaves a cached
  entry without a durable row (`Hydration.PopToNoteWindow`); after the note, `Hydration.NotedKeyStaysOutIff` says exactly
  when the key stays out.
- Replaying captured writes differs from running them in order only in the columns the upsert does not take over, and
  exactly when a durable row is deleted and saved again and its old creation time, embedding or model shows through
  (`Capture.ReplayIsDirectIff`).
- When a flush fails after some writes of a garbage collection ran, the caches are put back although the durable entries
  have changed; deleted entries are in the archive. The durable entries are as before exactly when the failing call comes
  before all demotions and deletes, or those that ran changed nothing (`Flush.AsyncStore.Gc`, with a run in
  `GcCanLeaveCachedOnly`).
- When the flush of an async delete fails, of the relation cache only the key's own bucket is put back. The cache is as
  before exactly when no other bucket held a row of the key, and the bucket of the key, if there was one, was not empty and
  its entry was cached (`Flush.AsyncStore.Delete`).
- Superseding an active edge by its own triple makes it point to itself, and this is the only way to a cycle
  (`KgEdges.AcyclicIff`). A negative confidence sinks further when reinforced; over any run an
  edge keeps its negative start as a lower bound exactly when no reinforcement took effect before its first misleading event
  (`KgEdges.NegativeStartKeptIff`).
- The single-hop query returns an edge between two focal entities twice, the recursive one once
  (`KgNeighbourhood.OneHopOccurrences`).
- Words of six or more letters in "-nes" are the only ones of at least three letters whose plural in -s has another stem
  (`Stemmer.PluralHasSameStemIff`).
- The half-open breaker is documented to let one request through; it lets any number through until one of them settles
  (`Bridge.HalfOpenAdmitsAll`). Stopping the bridge is documented to drain the write queue; what is queued or in flight is
  dropped (`Bridge.StopDrainsIff`).
- The hash upgrade treats versions below 1 as version 1 while verification checks them against the new scheme, so for
  those it can change a verdict (`Integrity.UpgradeKeepsVerdictIff`).

## Model

| member | source | states |
|---|---|---|
| RelationRows.FindUpsert | src/tapps_brain/_postgres_private_sql.py:767-781 | an upsert changes the row of its triple only: source keys united, higher confidence, first creation time kept |
| RelationRows.UpsertUnique | src/tapps_brain/_postgres_private_sql.py:767-781 | the triple stays the primary key |
| RelationRows.FiltersKeepOrder | src/tapps_brain/async_postgres_private.py:494-511 | loading gives the rows at exactly the positions that name the key, deleting leaves those at exactly the others, both in scan order and with every occurrence |
| RelationRows.NamingAfterDelete | src/tapps_brain/async_postgres_private.py:494-511 | deleting one key's rows only filters what another key loads, in order |
| Memory.Backend.SaveRelations | src/tapps_brain/async_postgres_private.py:468-492 | the loop saves every relation anchored on the key; a raise saves none |
| Memory.Backend.DeleteRelations | src/tapps_brain/async_postgres_private.py:498-518 | every row that names the key goes, or the call raises and none does |
| Memory.Backend.AppendAudit | src/tapps_brain/async_postgres_private.py:539-564 | the record appears at its place in query order, or is silently left out; the order by time and id is kept |
| Tombstones.YoungTombstonesSurvive | src/tapps_brain/store.py:1227-1239 | pruning past 4096 keeps every tombstone with fewer than 2048 later removals |
| Tombstones.NotedKeepsYoung | src/tapps_brain/store.py:1227-1239 | noting a removal never drops or ages a young tombstone |
| Tombstones.NotedIsBounded | src/tapps_brain/store.py:1227-1239 | there are never more than 4096 tombstones |
| MemoryStore.Store.EnsureEntryCached | src/tapps_brain/_store_query.py:185-213 | returns what cache over durable rows holds, caches it, and changes nothing readers see |
| MemoryStore.Store.UpdateFields | src/tapps_brain/store.py:3290-3327 | cache and durable row change together, or neither; missing exactly when no reader would find the key |
| MemoryStore.Store.PurgeRelations | src/tapps_brain/_store_query.py:246-255 | the key's bucket is gone and every sibling bucket keeps exactly the rows that do not name the key |
| MemoryStore.Store.Delete | src/tapps_brain/_store_query.py:215-268 | for every pattern of raising calls, the whole state after a delete, its rollbacks and the audit log included |
| MemoryStore.Store.SaveRelations | src/tapps_brain/_store_relations.py:31-47 | rows are saved, and only the saved key's bucket is reloaded |
| MemoryStore.Store.GetRelations | src/tapps_brain/_store_relations.py:62-79 | a read fills a missing bucket and keeps an agreeing cache in agreement |
| MemoryStore.Store.RebuildRelations | src/tapps_brain/_store_relations.py:93-112 | after a rebuild every key's bucket is the row sequence `load_relations` gives |
| MemoryStore.PurgeKeepsAgreement | src/tapps_brain/_store_query.py:234-256 | the purge of a delete keeps the cache in agreement with the rows left |
| MemoryStore.DeletesKeepAgreement | src/tapps_brain/_store_query.py:234-256 | from an agreeing cache any sequence of deletes keeps the agreement |
| MemoryStore.SaveKeepsAgreementIff | src/tapps_brain/_store_relations.py:31-47 | a save keeps the agreement exactly when each saved relation adds a row of its key only, changes nothing, or changes a row that no other key names |
| MemoryStore.SaveCanLeaveSiblingStale | src/tapps_brain/_store_relations.py:31-47 | a concrete save after which a sibling's bucket is stale |
| MemoryStore.Store.MergeDurable | src/tapps_brain/store.py:1146-1225 | every durable row is cached and no cached one overwritten |
| MemoryStore.Store.TrimToCap | src/tapps_brain/store.py:1126-1144 | the cache is cut down to its cap; what leaves it was brought in by the pass, or is least confident among equals |
| MemoryStore.PassKeepsCache | src/tapps_brain/store.py:1082-1124 | a cache within its cap comes out of a pass with every entry it had, and readers see what they saw |
| RelationGraph.BuildIndex | src/tapps_brain/_store_relations.py:219-224 | the inverted index gives for every entity exactly the keys whose durable rows mention it |
| RelationGraph.Bfs | src/tapps_brain/_store_relations.py:226-247 | the search returns exactly the keys at distance 1 to `max_hops`, each once with that distance, sorted; the early exit changes nothing |
| RelationGraph.FindRelated | src/tapps_brain/_store_relations.py:189-247 | the same over the durable rows; one hop away are exactly the other keys with a subject or object in common but for case; an error exactly for a key no reader would find |
| RelationGraph.SharesEntityIff | src/tapps_brain/_store_relations.py:219-234 | two keys are neighbours exactly when rows of theirs name a subject or object that is the same in lower case |
| RelationGraph.RelatedStep | src/tapps_brain/_store_relations.py:226-247 | the next hop is found exactly where a key of the hop before has a name in common with a key not found earlier |
| RelationGraph.HitsInOrder | src/tapps_brain/_store_relations.py:226-247 | the hits come by distance, and those of one distance in lexicographic order of their keys |
| RelationGraph.RelatedIsSymmetric | src/tapps_brain/_store_relations.py:189-247 | (b, d) is found from a exactly when (a, d) is found from b |
| RelationGraph.CountOrphans | src/tapps_brain/_store_relations.py:133-155 | after loading all durable entries, the count over the buckets equals the sum over durable rows, each row once; the cache is then trimmed to its cap |
| AuditPaging.SinceIsSuffix | src/tapps_brain/_postgres_private_sql.py:834-872 | the inclusive cursor cuts off exactly the rows before it, a prefix of the ordered log |
| AuditPaging.MatchingInserted | src/tapps_brain/_postgres_private_sql.py:834-872 | a new record shows up, in query order, for its own key and event only |
| AuditPaging.FindLast | src/tapps_brain/auto_consolidation.py:195-231 | terminates, and returns the newest row or, at the first timestamp that fills a whole page, the end of that page |
| AuditPaging.FindsNewestIff | src/tapps_brain/auto_consolidation.py:195-231 | the newest row is found exactly when no timestamp fills a page that is not the last |
| AuditPaging.LongTieHidesNewest | src/tapps_brain/auto_consolidation.py:195-231 | a log of three rows whose newest the search does not find |
| AuditPaging.FewTiesSuffice | src/tapps_brain/auto_consolidation.py:195-231 | fewer rows per timestamp than the page limit are enough, for every log and limit |
| StripRelations.StripRow | src/tapps_brain/auto_consolidation.py:258-288 | a row's sources S become S minus the key, rows with S = {key} go, others stay untouched |
| StripRelations.StripKey | src/tapps_brain/auto_consolidation.py:258-288 | the rows after it, by the number of its first call that raises; past the delete, every row keeps its other sources exactly when no call raises |
| StripRelations.PartialStripLosesIff | src/tapps_brain/auto_consolidation.py:284-305 | every row keeps its other sources exactly when all survivors were written back |
| StripRelations.StripRestores | src/tapps_brain/auto_consolidation.py:258-288 | stripping after a merge loses no source but the merged key, and restores every other source exactly when the merge had added none |
| StripRelations.SaveLinksIff | src/tapps_brain/_postgres_private_sql.py:767-781 | saving relations under a key leaves the other sources of every row as they were exactly when each relation's sources are in its row already |
| StripRelations.MergedClass | src/tapps_brain/consolidation.py:572-647 | each case class is merged into one relation, with the triple of its first row and the sources of all |
| StripRelations.MergedRelations | src/tapps_brain/consolidation.py:572-647 | every row is in a merged relation, no two merged relations are alike but for case, and each has the triple of the first row of its class, all their sources and the merged key, and their largest confidence |
| StripRelations.MergeOnlyAddsIff | src/tapps_brain/consolidation.py:572-647 | merging relations adds no source but the merged key exactly when every row's sources are in the row of the first triple of its case class |
| StripRelations.WithoutVariantsOnlyLinks | src/tapps_brain/consolidation.py:572-647 | which holds for rows in step with a table without case variants |
| StripRelations.MergedRowsLinkedIff | src/tapps_brain/auto_consolidation.py:781-837 | from extraction to linking no row loses a source, and none gains one but the merged key exactly under that condition on what the cache and the table held before |
| StripRelations.CaseVariantsStayLinked | src/tapps_brain/consolidation.py:572-647 | with case variants a link between sources survives the stripping |
| StripRelations.LinkRelations | src/tapps_brain/auto_consolidation.py:833-837 | the relations read for the sources, bucket or durable rows, are merged and saved in one call, or none if there are none |
| StripRelations.SourcesAreLinked | src/tapps_brain/auto_consolidation.py:833-837 | every row read for the sources is linked: a row alike but for case has the merged key, all of its sources and at least its confidence |
| StripRelations.FoundAreSaved | src/tapps_brain/store.py:3035-3123 | relations found in the text are in the table afterwards, under the key and at least as sure |
| Promotion.ResolveIff | src/tapps_brain/auto_consolidation.py:118-159 | approved beats demoted beats candidate; loss is reported exactly when two sources of the verdict differ in promoter or signal, or in the reason of the demotion |
| Promotion.OrderDecidesOnlyTies | src/tapps_brain/auto_consolidation.py:118-159 | verdict and loss do not depend on the order of the sources, the inherited fields only for ties |
| Promotion.AppliedInheritsVerdict | src/tapps_brain/auto_consolidation.py:812-823 | the columns of a row saved as a candidate: those of the source approved last, with no demotion reason, or the reason of the one demoted and updated last; the first listed of several |
| MergeCourse.ReopenRestoresIffLive | src/tapps_brain/store.py:221-267 | reopening a closed entry restores it, but for the update time, exactly when it was live |
| MergeCourse.MarksUpToFirst | src/tapps_brain/auto_consolidation.py:839-875 | source i is updated by call start + 2i, and the marking stops at the first that is not fresh or whose update raises |
| MergeCourse.CompletesIff | src/tapps_brain/auto_consolidation.py:812-875 | past the saved row a merge gets through exactly when every source is fresh and neither the promotion update, nor the saving of the relations, nor the update of a source raises |
| MergeCourse.CleanRollback | src/tapps_brain/auto_consolidation.py:888-930 | wherever the merge stopped, a rollback none of whose calls raises leaves the maps of before without the merged key and with the sources reopened |
| MergeCourse.RolledBackSource | src/tapps_brain/auto_consolidation.py:888-916 | whichever calls of the rollback raise, a source is reopened if one of its updates does not raise, else closed if the merge had closed it, else as before |
| MergeCourse.RolledBackMerged | src/tapps_brain/auto_consolidation.py:917-925 | the merged key leaves the cache exactly when the stripping and both deletes go through, the durable map exactly when the first delete stands |
| Consolidation.SaveNew | src/tapps_brain/store.py:2967-2990 | the merged row is written through or put back as it was, by which calls raise; a raise after it leaves it in place |
| Consolidation.MarkSources | src/tapps_brain/auto_consolidation.py:839-875 | the loop closes the sources up to that stop, makes those calls and reads the source that stopped it |
| Consolidation.Rollback | src/tapps_brain/auto_consolidation.py:888-930 | for every script: which sources are reopened, whether the key is stripped and deleted, and the tombstone |
| Consolidation.CleanlyRolledBack | src/tapps_brain/auto_consolidation.py:888-930 | after such a rollback the other source sets of the rows are as before exactly when nothing was linked or the sources' rows only link, the entry and the rows of the merged key exactly when there were none |
| Consolidation.FreshIffAsSnapshotted | src/tapps_brain/auto_consolidation.py:839-862 | the lost-update guard lets all sources pass exactly when each is there with the value of the snapshot that stands under its key |
| Consolidation.LengthsAddUp | src/tapps_brain/auto_consolidation.py:83-96 | the content a merge is measured against is the sum of the snapshots' lengths |
| Consolidation.Merge | src/tapps_brain/auto_consolidation.py:737-930 | for every script: which of refusal, failed save, success and rollback it is; refused exactly below 60% of the sources' content; it gets through only if, and with calls that do not raise exactly if, every source still has the value it was snapshotted with; the maps, rows and merge record it leaves; and, when no call raises, the audit rows of the lost promotion state, the closings and the sources |
| Consolidation.MergedReads | src/tapps_brain/auto_consolidation.py:839-875 | after a merge readers see the merged row, each source closed and pointing to it, with its mark of the merge, and every other key as before |
| Consolidation.MergedRow | src/tapps_brain/auto_consolidation.py:118-159 | the promotion columns of the merged row by those of the snapshots: who approved, when and by which signal, or why it was demoted |
| UndoMerge.AcceptedIff | src/tapps_brain/auto_consolidation.py:332-425 | an undo is accepted exactly when the newest record lists at least two sources and they and the merged entry are as the merge left them |
| UndoMerge.RefusalIff | src/tapps_brain/auto_consolidation.py:332-425 | each refusal is given exactly under its condition, and names the first source in the record it applies to |
| UndoMerge.Examine | src/tapps_brain/auto_consolidation.py:354-425 | the checks give the first refusal in the code's order and change nothing readers see |
| UndoMerge.UnreversedKey | src/tapps_brain/auto_consolidation.py:442-466 | the durable entry of a key after an undo that raised: its backup, its reopened form, or what it was, by how far the two loops came |
| UndoMerge.Reverse | src/tapps_brain/auto_consolidation.py:442-466 | goes through exactly when no call raises and the merged row is there; otherwise the cache is as before and the durable sources are put back up to the first call that raises |
| UndoMerge.Undo | src/tapps_brain/auto_consolidation.py:308-499 | the record it goes by, its refusal, exactly when it raises, and the whole state after success, refusal and a raise: maps, rows, every bucket, tombstones and audit log |
| UndoMerge.UndoInvertsMergeIff | src/tapps_brain/auto_consolidation.py:354-490 | merge then undo is the identity, up to update times and an entry the merged one replaced, exactly when every source was live |
| UndoMerge.NewestRecord | src/tapps_brain/auto_consolidation.py:195-240 | after a merge the search returns the record just written |
| UndoMerge.MergeThenUndo | src/tapps_brain/auto_consolidation.py:308-499 | merge, undo and a second undo, which is refused: what both maps are then, exactly when they and all source sets are restored |
| Hydration.QuietRun | src/tapps_brain/_store_query.py:192-256 | over any interleaving without a new save a quiet key stays out of cache and store, while its tombstone is young |
| Hydration.NoteMakesQuietIff | src/tapps_brain/_store_query.py:236-256 | the note rejects every load begun before it; the key is quiet exactly when it is in neither map and no other thread will write it |
| Hydration.StaysOutIffQuiet | src/tapps_brain/_store_query.py:192-256 | being quiet is exactly what keeps a removed key out in all continuations |
| Hydration.NotedKeyStaysOutIff | src/tapps_brain/_store_query.py:185-256 | from any start and interleaving of loads, deletes and saves: the condition at the note step under which the key stays out |
| Hydration.PopToNoteWindow | src/tapps_brain/_store_query.py:206-256 | from every state with the key cached and durable, a run in which all calls succeed leaves it cached and not durable |
| Hydration.InstallKeepsCached | src/tapps_brain/_store_query.py:206-208 | a load never overwrites what is cached |
| Hydration.InstalledIffNotRemoved | src/tapps_brain/_store_query.py:196-213 | whatever other threads do meanwhile, a row that was read, is not cached and fits is installed exactly when no removal of its key was noted since the load began |
| Hydration.CachedEntryStays | src/tapps_brain/store.py:1146-1225 | over any interleaving a cached entry changes only by a put of its key, its pop, or a delete or save of it that is taken back |
| Hydration.DurableRowStays | src/tapps_brain/_store_query.py:215-240 | over any interleaving a durable row changes only by a delete, restore or save of its key, or the reaping after one, whose call succeeds |
| Hydration.LoadCannotHideSave | src/tapps_brain/_store_query.py:185-213 | after a save readers see it, although a load begun earlier installs what it read |
| Hydration.EntriesComeFromPuts | src/tapps_brain/_store_query.py:185-256 | no interleaving makes up an entry or moves one to another key |
| Hydration.ReadAlone | src/tapps_brain/store.py:1146-1225 | an uninterrupted load caches exactly the wanted durable rows that are missing and fit |
| Hydration.SaveAlone | src/tapps_brain/store.py:2967-3009 | an uninterrupted save writes through or changes nothing |
| Hydration.SaveReapsOrphan | src/tapps_brain/store.py:2990-3009 | a save whose key is popped before it persists deletes its own durable row |
| Hydration.DeleteAlone | src/tapps_brain/_store_query.py:215-256 | an uninterrupted delete, for every pattern of failing calls: cache, durable rows and tombstones |
| Hydration.FailedDeleteKeepsNewerSave | src/tapps_brain/_store_query.py:219-233 | a delete that fails puts back what it popped, a save since it looked included |
| Hydration.ApplyKeepsInv | src/tapps_brain/store.py:2967-3009 | no step lets a load begin in the future or two removals share an epoch |
| Capture.QueuesDisjoint | src/tapps_brain/aio.py:83-115 | after any writes no key is queued both for a save and for a delete |
| Capture.ReplayIsDirectOnPlainColumns | src/tapps_brain/aio.py:83-115 | saves before deletes gives the map of running the writes in order, for every column taken from the new row |
| Capture.ReplayIsDirectIff | src/tapps_brain/_postgres_private_sql.py:125-183 | all columns of a key agree exactly unless a durable row was deleted and saved again and shows through |
| Capture.LoadOneReadsDirect | src/tapps_brain/aio.py:142-157 | a read through the capture sees the map of direct execution |
| Flush.CaptureBackend.Save | src/tapps_brain/aio.py:83-90 | a save is queued and cancels a pending delete of its key |
| Flush.CaptureBackend.Delete | src/tapps_brain/aio.py:101-107 | a delete drops queued saves and relations of its key and queues the row's and the relations' deletion |
| Flush.CaptureBackend.SaveRelations | src/tapps_brain/aio.py:128-135 | relations are queued and cancel a pending relation delete; an empty list does nothing |
| Flush.CaptureBackend.LoadOne | src/tapps_brain/aio.py:142-157 | the backward scan returns the newest queued save, nothing for a queued delete, else the durable row |
| Flush.FlushArchives | src/tapps_brain/aio.py:579-608 | stops at the first archive that reports 0 bytes |
| Flush.FlushCapture | src/tapps_brain/aio.py:610-676 | by the number of the first call that fails, how far the flush came and the state it leaves; a complete one is the replay, then the relations and audit rows whose own calls do not fail |
| Flush.NothingIsLost | src/tapps_brain/aio.py:635-644 | when every queued delete has a queued archive, each durable key stays durable or is archived, and nothing is deleted before all archives succeeded |
| Flush.AsyncStore.Save | src/tapps_brain/aio.py:496-540 | fails exactly when its one primary call does, and has then written nothing and put entry and relations of the key back; rows and audit log after success |
| Flush.AsyncStore.Delete | src/tapps_brain/aio.py:545-577 | the state after success, absence and a failed flush, and exactly when the relation cache is then as before |
| Flush.AsyncStore.QueueArchives | src/tapps_brain/store.py:5159-5185 | exactly the cached candidates with a positive estimate are archived, each with its cached entry |
| Flush.AsyncStore.DemoteEach | src/tapps_brain/store.py:5112-5136 | exactly the cached candidates with a target tier are demoted, in the cache and in the queue |
| Flush.AsyncStore.Gc | src/tapps_brain/aio.py:847-873 | failure restores both caches; after success each cached candidate with a target has the new tier and update time, freshly signed and else unchanged, in cache and store, each without one whose archive reports bytes is gone from both, and every other key is as before; no durable key is lost either way; by its first failing call, what is durable and exactly when that is as before |
| Flush.GcCanLeaveCachedOnly | src/tapps_brain/aio.py:847-873 | a run that ends with a cached entry that is no longer durable |
| KgEdges.EdgeStore.UpsertEdge | src/tapps_brain/async_postgres_kg.py:148-230 | returns the active edge of the triple, its confidence raised by 5% up to 1 at most once a minute, or a new one, whose confidence is at most 0.4 without evidence |
| KgEdges.EdgeStore.SupersedeEdge | src/tapps_brain/async_postgres_kg.py:502-536 | upserts the new triple, then points an active old edge to it; any other old edge keeps state and pointer |
| KgEdges.EdgeStore.ReinforceEdge | src/tapps_brain/async_postgres_kg.py:455-486 | updates exactly when the edge exists and is outside the debounce window |
| KgEdges.EdgeStore.MarkEdgeStale | src/tapps_brain/async_postgres_kg.py:488-500 | updates exactly active edges |
| KgEdges.EdgeStore.ContradictEdge | src/tapps_brain/async_postgres_kg.py:538-552 | any existing edge becomes contradicted and stale |
| KgEdges.EdgeStore.ApplyMisleading | src/tapps_brain/_postgres_kg_sql.py:530-545 | counters, floored confidence, and the review flag past three times the positives |
| KgEdges.ReachableTables | src/tapps_brain/_postgres_kg_sql.py:514-611 | in every reachable table at most one active edge per triple, contradicted edges stale, superseded ones pointed |
| KgEdges.NeverActiveAgain | src/tapps_brain/_postgres_kg_sql.py:514-611 | over any run no edge is lost and none that left the active state returns to it |
| KgEdges.EdgeRecordsItsHistory | src/tapps_brain/_postgres_kg_sql.py:514-611 | over any run an edge counts exactly the feedback events that named it, is contradicted exactly when a call said so, and its state and pointer follow from the call that retired it |
| KgEdges.ConfidenceStaysBounded | src/tapps_brain/_postgres_kg_sql.py:530-556 | a non-negative initial confidence stays between the floor and the larger of 1 and its start |
| KgEdges.ReinforceKeepsBoundIff | src/tapps_brain/_postgres_kg_sql.py:547-556 | a reinforcement keeps the lower bound exactly from zero on |
| KgEdges.NegativeStart | src/tapps_brain/_postgres_kg_sql.py:530-556 | over any run, the confidence of an edge that starts below zero: its start times 1.05 per reinforcement before the first misleading event, not negative afterwards |
| KgEdges.NegativeStartKeptIff | src/tapps_brain/_postgres_kg_sql.py:530-556 | such an edge keeps its start as a lower bound exactly when no reinforcement took effect before its first misleading event |
| KgEdges.FlaggedIff | src/tapps_brain/_postgres_kg_sql.py:530-545 | an edge is flagged exactly when some past misleading event left its negatives above three times its positives |
| KgEdges.AcyclicIff | src/tapps_brain/async_postgres_kg.py:502-529 | supersession pointers form no cycle exactly when no supersede call named the active old edge's own triple |
| KgEdges.EveryChainEnds | src/tapps_brain/async_postgres_kg.py:502-529 | then every chain ends at an edge without a pointer |
| KgNeighbourhood.NeighbourhoodIsDistance | src/tapps_brain/_postgres_kg_sql.py:404-495 | for every hop bound each visible edge within reach is returned once, with one more than the distance of its nearest endpoint as hop, and nothing else |
| KgNeighbourhood.OneHopOccurrences | src/tapps_brain/_postgres_kg_sql.py:314-395 | the single-hop query returns a visible edge once per focal endpoint |
| KgNeighbourhood.MultiReturnsNearEdges | src/tapps_brain/async_postgres_kg.py:414-449 | for any requested hops, the edges returned are exactly those whose nearest endpoint is nearer than the clamped hops |
| KgNeighbourhood.MultiAnswers | src/tapps_brain/_postgres_kg_sql.py:314-495 | exactly the edges that pass the predicate and history filters and have an end at a focal entity, or, for two hops, meet such an edge |
| KgNeighbourhood.MultiRows | src/tapps_brain/_postgres_kg_sql.py:314-495 | each row's hop and neighbour, by the ends of the edge and the focal entities |
| Bm25.Scorer.CountDocuments | src/tapps_brain/bm25.py:230-234 | the document frequency of every term, each document counted once |
| Bm25.Scorer.BuildIndex | src/tapps_brain/bm25.py:213-240 | lengths, average, term counts, document frequencies and weights equal their definitions |
| Bm25.Scorer.ScoreDoc | src/tapps_brain/bm25.py:269-291 | the loop computes the formula, the zero-length case included |
| Bm25.Scorer.ScoreAll | src/tapps_brain/bm25.py:245-256 | one score per document by the formula; the early returns agree with it |
| Bm25.IdfPositive | src/tapps_brain/bm25.py:236-240 | a weight is positive exactly for terms that occur in some document |
| Bm25.RarityIsLog | src/tapps_brain/bm25.py:236-240 | the weight of a term is the logarithm of (2n + 2) / (2 df + 1) |
| Bm25.RarerWeighsMore | src/tapps_brain/bm25.py:236-240 | of two terms that occur the one in fewer documents weighs strictly more |
| Bm25.NormIsLinear | src/tapps_brain/bm25.py:269-291 | the length normalisation is k1 at the average length and rises by k1 * b per average length |
| Bm25.OneAverageOccurrence | src/tapps_brain/bm25.py:269-291 | one occurrence in a document of average length weighs idf * (1 + delta) |
| Bm25.ScoreBounds | src/tapps_brain/bm25.py:269-291 | scores lie between 0 and the sum of idf * (k1 + 1 + delta), and are 0 exactly when no query term occurs |
| Bm25.ScoreAdditive | src/tapps_brain/bm25.py:281-291 | the score of a concatenated query is the sum of the scores |
| Bm25.MoreOccurrencesIff | src/tapps_brain/bm25.py:287-290 | more occurrences weigh strictly more, unless the term occurs already and the normalisation is zero |
| Bm25.ScoreGrowsWithFrequency | src/tapps_brain/bm25.py:269-291 | at equal length, at least as many occurrences of every query term score at least as much |
| Bm25.ScoreFallsWithLength | src/tapps_brain/bm25.py:269-291 | at equal frequencies the longer document scores at most as much |
| Stemmer.StemWord | src/tapps_brain/bm25.py:101-119 | the loop terminates with the fixpoint of suffix stripping |
| Stemmer.RoundIff | src/tapps_brain/bm25.py:86-119 | a round strips the first of the nine suffixes, in their order, that leaves at least three letters, or nothing when there is none |
| Stemmer.StemIsFixedPrefix | src/tapps_brain/bm25.py:101-119 | the stem is a prefix of at least three letters, or the word, and no suffix shortens it |
| Stemmer.StemIsIdempotent | src/tapps_brain/bm25.py:101-119 | stemming twice is stemming once |
| Stemmer.PluralHasSameStemIff | src/tapps_brain/bm25.py:86-119 | a word and its plural in -s share a stem exactly when the word has three letters or more and is not one of six or more in "nes" |
| Integrity.VerifyIntegrity | src/tapps_brain/_store_integrity.py:51-144 | every cached or durable entry is counted once; tampered are exactly those whose non-empty hash is not that of their version's scheme over key, value, tier and source; a key mismatch is reported from 95% of the hashed entries on; the cache is trimmed to its cap |
| Integrity.RehashIntegrityV1 | src/tapps_brain/_store_integrity.py:147-243 | cache and durable store change together for exactly the upgraded keys; one call per upgradable key, and as many keys fail as calls raise |
| Integrity.AllRehashed | src/tapps_brain/_store_integrity.py:147-243 | the counts and the failed writes add up to the number of entries; those to upgrade are exactly those with the old hash and a version below 2 |
| Integrity.UpgradeKeepsVerdictIff | src/tapps_brain/_store_integrity.py:74-228 | an upgrade keeps the verdict exactly for version 1, or when the old hash already is the new one |
| Integrity.RehashKeepsVerdicts | src/tapps_brain/_store_integrity.py:172-228 | with versions of at least 1 no upgrade changes any verdict |
| Integrity.SecondRehashIsIdle | src/tapps_brain/_store_integrity.py:172-228 | after a complete upgrade a second one upgrades nothing |
| Integrity.ResignIntegrity | src/tapps_brain/_store_integrity.py:245-309 | exactly the cached or durable entries without the current hash are signed, in cache and store together, but for as many as calls raise; then the cache is trimmed |
| Integrity.SignedStoreVerifies | src/tapps_brain/_store_integrity.py:261-302 | after everything was signed every entry verifies |
| Integrity.TamperingShows | src/tapps_brain/_store_integrity.py:74-106 | a signed entry with another key, value, tier or source reads as tampered exactly when the two hash differently |
| Integrity.TamperingShowsInV1 | src/tapps_brain/_store_integrity.py:74-92 | the same for version 1 entries and the old scheme; upgradable exactly while they verify |
| Integrity.SignedAlreadyIff | src/tapps_brain/_store_integrity.py:261-302 | an entry is passed over exactly when signing would not change it |
| Bridge.CircuitBreaker.BeginCall | examples/agentforge_bridge/brain_bridge.py:78-84 | admission and its state change |
| Bridge.CircuitBreaker.SettleCall | examples/agentforge_bridge/brain_bridge.py:85-101 | settlement of a success or a failure |
| Bridge.ClosedIff | examples/agentforge_bridge/brain_bridge.py:78-101 | under any interleaving, closed exactly when fewer failures than the threshold settled since the last success |
| Bridge.HalfOpenDisjunctRedundant | examples/agentforge_bridge/brain_bridge.py:92-95 | being half open never decides whether a failure opens the breaker |
| Bridge.RejectedIff | examples/agentforge_bridge/brain_bridge.py:78-84 | a call is rejected exactly at the threshold, within the recovery time of the last failure, with no call admitted since |
| Bridge.HalfOpenAdmitsAll | examples/agentforge_bridge/brain_bridge.py:49-52 | half open admits any number of calls |
| Bridge.WritesAreConserved | examples/agentforge_bridge/brain_bridge.py:138-153 | handled, cut off, in flight and queued add up to the accepted writes in order; accepted and dropped to the offered; the bound holds |
| Bridge.StopDrainsIff | examples/agentforge_bridge/brain_bridge.py:130-136 | stopping leaves everything handled exactly when nothing was queued or in flight |
| Retry.SleepBound | src/tapps_brain/client.py:241-254 | without hints m sleeps take at most 1.2 * base * (2^m - 1) and at most 1.2 * m * cap |
| Retry.CallSleepBound | src/tapps_brain/client.py:838-901 | without hints, a whole call, a renewed session included, sleeps at most twice what one exhausted loop may |
| Retry.BackoffIsHintOrDoubling | src/tapps_brain/client.py:241-254 | a positive hint replaces the schedule, which starts at the base delay and doubles up to the cap; jitter is a factor on either |
| Retry.TriesAreUpToFirstFinal | src/tapps_brain/client.py:604-634 | the attempts run up to the first reply that is not transient, and are at most the allowed number |
| Retry.Client.PostTool | src/tapps_brain/client.py:567-634 | the posts, all with one key and session, one delay between any two and none elsewhere, and the outcome |
| Retry.Client.McpHttpTool | src/tapps_brain/client.py:838-901 | the attempts of both loops, the renewal between them, session, sleeps and outcome are determined by the replies; one idempotency key throughout |

## Left out

- Consolidation.Merge: only for a merged key that is not itself among the sources; it ends in a digest of their sorted keys (`consolidation.py:138-140`).
- Consolidation.Merge: the row that is saved, the relations found in its text and the verdict of the write policy are parameters; eviction at the cap on entries, and hive, group and expert fan-out, are left out.
- UndoMerge.MergeThenUndo: restoration is about source keys; creation times of shared rows are reset by the stripping, and confidence histories are left out.
- AuditPaging.FindLast: the JSONL file read when the durable log has no row is left out.
- Hydration.NotedKeyStaysOutIff: eviction, the cap on the cache and the identity-guarded rollback in `get` are left out; a bulk load installs any subset of its rows.
- Capture.ReplayIsDirectOnPlainColumns: relation writes are not covered; the capture reads back only its newest list and the flush reorders relation deletes against saves.
- Flush.AsyncStore.Gc: the scan for candidates, the target tiers and the size estimates are parameters; the load of all durable entries before the scan, candidates updated since, and dry runs, which write nothing, are left out.
- KgEdges.ConfidenceStaysBounded: for non-negative deltas of misleading events; counters and confidences are exact, not floating point.
- KgEdges.EdgeStore.SupersedeEdge: an edge identifier is never one the caller could name before the row existed; FSRS stability and difficulty, and the setting that refuses edges without evidence, are left out.
- KgNeighbourhood.NeighbourhoodIsDistance: before LIMIT; ordering by confidence and evidence counts are left out.
- Bm25.ScoreBounds: for k1 >= 0, 0 <= b <= 1 and delta >= 0, and in exact arithmetic; tokenising and stop words are left out.
- Integrity.ResignIntegrity: propagation to the hive is left out.
- Retry.Client.PostTool: headers, envelopes and error bodies are reduced to a class of reply; the choice between an explicit and a legacy configuration is left out.
- Order of keys in dictionaries: passes over a dictionary are proved for every order.
- Querying relations by pattern, search, fusion of rankings, embeddings, decay and the FSRS arithmetic.
- Psycopg, pools, row-level security, JSON encoding, logging, metrics and tracing.

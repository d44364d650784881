# Indexing queue, document access, search fusion and restore: a Dafny model

The repository is a document server: clients upload versions of documents, workers index them through a job table in
PostgreSQL, and a search API fuses a vector and a keyword ranking. Beside it live evaluation scripts and a tool that
injects faults into the database cluster, measures them and restores the cluster.

The project models five parts and proves what they promise over all inputs and all runs.

- **Indexing queue** (`IndexingQueue`, `QueueInvariant`, `QueueRuns`, `QueueHistory`, `QueueActions`, `QueueStore`). Every transaction
  of the API server, of a worker and of the reclaim procedure holds the row lock of one document, so each is one atomic
  action of a state machine; a guard that fails is a refused request or an UPDATE of zero rows. A run is any finite
  sequence of actions with any stale tokens, any stale reclaim candidates and a clock that advances at will. `QueueActions`
  says in terms of the run's actions alone which writes, claims and reclaims are accepted. `Store` is the same system as
  code that changes tables row by row; each of its methods is tied to its action.
- **Access and paging** (`DocumentAccess`, `PermissionService`, `DocumentPaging`, `LikeEscape`, `Decimal`, `Cursor`).
- **Search fusion** (`SearchFusion`), with exact reals for the scores.
- **Small algorithms** (`SharedNgram`, `RateLimiter`, `SignTest`, `EmbeddingCache`).
- **Fault measurement and restore** (`WriteStop`, `RestoreCluster`), the latter against arbitrary cluster answers.

Some promises hold only under a condition. Each condition is proved to be exact, and a lemma shows an input that fails it:

- After an accepted grant the principal it names has the granted level iff the request wrote the plain decimal number,
  or the principal had the level before (`GrantTakesEffect`). The validation parses the text, so "07" or "+7" is
  accepted for user 7 and stored as it is, but every check compares texts (`PaddedGrantIsLost`).
- Search results are distinct iff the first topK pool ids of the reranker's answer repeat nothing (`DistinctResults`),
  and the reranked list is a permutation of the pool iff no pool id is repeated at all (`RerankPermutes`); both fail in
  `RepeatedAnswerShown`.
- A reported write stop is free of answers iff no successful attempt was under way when the first failing one started
  and was answered before all later successful ones (`QuietUnlessOverlapping`, `OverlapShown`). The documentation
  comment of the function speaks of the last answer before the stop, without that case.
- Being in both candidate lists beats being in one iff the list limit is below K + 2 (`DominanceLimit`, whose proof
  builds the two lists); the configured 50 and 60 meet it.

A node is revived at most as often as the configuration lists it, so once when the names are distinct, which the
configuration reader does not check.

`dafny verify dfyconfig.toml` checks the project.

## Model

| member | source | states |
|---|---|---|
| `QueueInvariant.InvInEveryState` | docs/SCHEMA.en.md:345-367 | in every state of every run: foreign keys, row checks, fenced epochs, serial order, failed-before-retry, one last DELETE job, chunks exactly for the indexed versions of documents not cleaned up, gapless version numbers, fresh recovery marker |
| `QueueInvariant.StepKeepsInv` | docs/SCHEMA.en.md:358-370 | any action, accepted or refused, keeps all of that |
| `QueueInvariant.StepRows` | src/main/resources/db/migration/V20261012_001__add_db_queue_schema.sql:82-98 | lease, worker, retry time, attempts, epoch and outcome of a job row fit its status after any action |
| `QueueInvariant.StepSerial` | src/test/kotlin/com/osscontest/server/indexing/IndexingJobRecoveryTest.kt:148-155 | behind an unfinished job every later job of its document stays unclaimed |
| `QueueInvariant.StepEpochs` | src/test/kotlin/com/osscontest/server/indexing/IndexingJobRecoveryTest.kt:164-171 | a document's counter bounds its jobs' epochs and the running job carries the current one |
| `QueueInvariant.ClaimIsAlone` | src/test/kotlin/com/osscontest/server/indexing/IndexingJobRecoveryTest.kt:150-155 | a claimable job has no running sibling |
| `QueueInvariant.StepRetries` | src/main/kotlin/com/osscontest/server/indexing/service/IndexingService.kt:64-82 | all INDEX jobs of a version but the last are FAILED |
| `QueueInvariant.StepDelete` | src/main/resources/db/migration/V20261014_001__enqueue_indexing_job.sql:37-60 | the DELETE job is the last job of its document, and only of a deleted one |
| `QueueInvariant.StepChunks` | docs/SCHEMA.en.md:420-422 | chunks exist for exactly the indexed versions of documents whose clean-up has not run |
| `QueueInvariant.StepIndexed` | docs/SCHEMA.en.md:361 | a version is indexed exactly when one of its jobs completed with INDEXED |
| `QueueInvariant.StepNumbers` | src/main/kotlin/com/osscontest/server/document/service/DocumentService.kt:84-98 | a document's version numbers are exactly 1..latest, each once |
| `QueueInvariant.StepMarker` | src/main/resources/db/migration/V20261014_003__reclaim_expired_indexing_jobs.sql:38-48 | a marker that names the current start was written during that start |
| `QueueRuns.RunEvolves` | src/test/kotlin/com/osscontest/server/indexing/IndexingJobRecoveryTest.kt:126-137 | between any two states of a run finished rows are frozen, epochs and attempts only grow, and the same running epoch means the same holder with a lease that only grew |
| `QueueRuns.TokenNeverRevives` | src/test/kotlin/com/osscontest/server/indexing/IndexingJobRecoveryTest.kt:314-341 | a job/worker/epoch token that stopped being valid is never valid again, also when the same worker claims the job anew |
| `QueueRuns.StaleWritesRefused` | src/test/kotlin/com/osscontest/server/indexing/IndexingJobRecoveryTest.kt:126-145 | so no heartbeat or result write with a lost token is accepted or changes a row in any later state |
| `QueueRuns.ClaimEpochsIncrease` | src/test/kotlin/com/osscontest/server/indexing/IndexingJobRecoveryTest.kt:164-171 | two claims of one document hand out different, increasing epochs |
| `QueueRuns.ReclaimSeesNoGap` | src/main/resources/db/migration/V20261014_003__reclaim_expired_indexing_jobs.sql:88-115 | a candidate snapshot that passes the re-validation was held by the same worker, epoch and lease at every moment since it was read |
| `QueueRuns.ReclaimLosesToHeartbeat` | src/test/kotlin/com/osscontest/server/indexing/IndexingJobRecoveryTest.kt:220-226 | a heartbeat accepted between the two steps of a reclaim makes the reclaim skip the job |
| `QueueRuns.ReclaimWaitsAfterReboot` | src/main/resources/db/migration/V20261014_003__reclaim_expired_indexing_jobs.sql:80-85 | no job is reclaimed within 30 seconds after a start or promotion |
| `QueueRuns.LeaseProtects` | src/test/kotlin/com/osscontest/server/indexing/IndexingJobRecoveryTest.kt:132-137 | while the lease it saw lasts, a holder loses its job only by its own result write |
| `QueueHistory.JobsRunInOrder` | src/test/kotlin/com/osscontest/server/indexing/IndexingJobRecoveryTest.kt:148-155 | one job of a document runs at a time, it is the first unfinished one, and the finished ones are a prefix of the enqueue order |
| `QueueHistory.AttemptsCountClaims` | src/test/kotlin/com/osscontest/server/indexing/IndexingJobRecoveryTest.kt:167-171 | attempt_count is the number of accepted claims in the run and never exceeds the limit |
| `QueueHistory.ExhaustedJobBlocks` | src/test/kotlin/com/osscontest/server/indexing/IndexingJobRecoveryTest.kt:343-352 | a job put back after its last permitted claim stays PENDING for good, and neither it nor a later job of its document is ever claimable |
| `QueueHistory.OnlyExhaustedJobsStall` | docs/SCHEMA.en.md:360-367 | in every reachable state the waiting head job of a document is claimable once due, iff it is not such an exhausted job |
| `QueueHistory.RetryCheckIsExact` | src/main/kotlin/com/osscontest/server/indexing/service/IndexingService.kt:64-72 | the latest INDEX job is FAILED iff the version has jobs and all failed, and at most one job of a version is unfinished |
| `QueueHistory.CleanUpIsFinal` | docs/SCHEMA.en.md:422 | once the DELETE job completed, no chunk and no unfinished job of the document exists and nothing can be enqueued for it, for the rest of the run |
| `QueueHistory.WorkersNeverRollBack` | docs/SCHEMA.en.md:420 | no action but a manual choice lowers the number of the searchable version |
| `QueueHistory.SearchTargetHasChunks` | src/main/kotlin/com/osscontest/server/search/infrastructure/SearchChunkRepository.kt:244-253 | the searchable version of an undeleted document is its own and has its chunks, in every reachable state |
| `QueueHistory.SearchFollowsUploads` | docs/SCHEMA.en.md:420 | without a manual choice an undeleted document is always searched in its newest indexed version |
| `QueueHistory.LaterVersionsNumberedAbove` | src/main/kotlin/com/osscontest/server/document/service/DocumentService.kt:88-91 | versions added later are numbered above all existing ones |
| `QueueHistory.DuplicateNumberIsStable` | src/main/kotlin/com/osscontest/server/document/service/DocumentService.kt:94-104 | the duplicate number answered at upload is the one every later query reports for that version |
| `QueueHistory.SummaryShowsLatestVersion` | src/main/kotlin/com/osscontest/server/document/service/DocumentService.kt:431-446 | the crossed lookup of a page keeps for each document exactly its one latest version |
| `QueueActions.HeartbeatIff` | src/test/kotlin/com/osscontest/server/indexing/IndexingJobRecoveryTest.kt:126-145 | a heartbeat is accepted exactly with the token of a claim of the run whose holding no result write or reclaim has ended, however late |
| `QueueActions.ResultWriteIff` | src/test/kotlin/com/osscontest/server/indexing/IndexingJobRecoveryTest.kt:132-137 | a phase or final failure is accepted exactly with such a token when its claim or a heartbeat was less than 60 seconds ago |
| `QueueActions.RetryLaterIff` | docs/SCHEMA.en.md:363 | another try is scheduled exactly by such a holder while the job was claimed fewer times than the limit |
| `QueueActions.OwnedStep` | src/test/kotlin/com/osscontest/server/indexing/IndexingJobRecoveryTest.kt:126-137 | a token becomes valid only by its own claim and stays so until an action ends the holding |
| `QueueActions.LeaseIsLatestRenewal` | src/test/kotlin/com/osscontest/server/indexing/IndexingJobRecoveryTest.kt:142 | a held job's lease runs out 60 seconds after its claim or latest accepted heartbeat |
| `QueueActions.RetryNotBeforeTime` | src/test/kotlin/com/osscontest/server/indexing/IndexingJobRecoveryTest.kt:152 | a job put off to a time is not claimed before that time |
| `QueueActions.EpochCountsClaims` | src/test/kotlin/com/osscontest/server/indexing/IndexingJobRecoveryTest.kt:164-171 | execution_epoch of a document is the number of accepted claims of its jobs |
| `QueueActions.ReclaimIff` | src/main/resources/db/migration/V20261014_003__reclaim_expired_indexing_jobs.sql:88-115 | a candidate read earlier is reclaimed exactly when recovery is allowed and since then no heartbeat of its holder was accepted and nothing ended the holding |
| `QueueActions.RecoveryIff` | src/main/resources/db/migration/V20261014_003__reclaim_expired_indexing_jobs.sql:80-85 | recovery is allowed exactly 30 seconds after a recording call for the present start |
| `QueueActions.DeletedIsFrozen` | docs/SCHEMA.en.md:420 | of a deleted document row nothing but the claim counter ever changes |
| `QueueActions.ChoiceStands` | src/main/kotlin/com/osscontest/server/document/service/DocumentService.kt:161-177 | a version chosen by hand is the searched one at once, and searched until a newer one is indexed or another is chosen |
| `QueueStore.Store.constructor` | src/main/resources/db/migration/V20261012_001__add_db_queue_schema.sql:24-40 | empty tables are the initial state |
| `QueueStore.Store.CreateDocument` | src/main/kotlin/com/osscontest/server/document/service/DocumentService.kt:58-81 | document, version 1 and its job in one step of the state machine |
| `QueueStore.Store.AddVersion` | src/main/kotlin/com/osscontest/server/document/service/DocumentService.kt:83-106 | the next number and the earliest version with the same content, looked up before the insert; not found iff the document is missing or deleted |
| `QueueStore.Store.EarliestVersionNo` | src/main/kotlin/com/osscontest/server/document/repository/DocumentVersionRepository.kt:15-20 | the minimum version number of a content hash, or none |
| `QueueStore.Store.EarliestVersionNos` | src/main/kotlin/com/osscontest/server/document/repository/DocumentVersionRepository.kt:22-35 | for each requested hash the same minimum |
| `QueueStore.Store.PageDuplicates` | src/main/kotlin/com/osscontest/server/document/service/DocumentService.kt:463-496 | the batched duplicate numbers of a page equal the single lookups |
| `QueueStore.Store.DeleteDocument` | src/main/kotlin/com/osscontest/server/document/service/DocumentService.kt:153-159 | deletion and its DELETE job in one step |
| `QueueStore.Store.LatestJob` | src/main/kotlin/com/osscontest/server/indexing/service/IndexingService.kt:128-129 | the INDEX job of a version with the largest enqueue_seq |
| `QueueStore.Store.LatestJobs` | src/main/kotlin/com/osscontest/server/indexing/service/IndexingService.kt:119-126 | the batched choice equals the single one for every version |
| `QueueStore.Store.Retry` | src/main/kotlin/com/osscontest/server/indexing/service/IndexingService.kt:63-89 | the step, and which of the three errors is answered when |
| `QueueStore.Store.UpdateSearchableVersion` | src/main/kotlin/com/osscontest/server/document/service/DocumentService.kt:161-177 | the step, and which error is answered when |
| `QueueStore.Store.Claimable` | src/test/kotlin/com/osscontest/server/indexing/IndexingJobRecoveryTest.kt:150-155 | the claim condition, decided by a scan; RetryNotBeforeTime and OnlyExhaustedJobsStall say what it means over runs |
| `QueueStore.Store.FindClaimable` | src/test/kotlin/com/osscontest/server/indexing/IndexingJobRecoveryTest.kt:156-159 | the smallest enqueue_seq among claimable jobs of unlocked documents |
| `QueueStore.Store.Claim` | src/test/kotlin/com/osscontest/server/indexing/IndexingJobRecoveryTest.kt:148-175 | takes the next claimable job of an unlocked document with a fresh epoch and a live lease; claims nothing iff there is none or its own row is locked |
| `QueueStore.Store.Holds` | src/test/kotlin/com/osscontest/server/indexing/IndexingJobRecoveryTest.kt:126-137 | the WHERE clause of the worker updates |
| `QueueStore.Store.Heartbeat` | src/test/kotlin/com/osscontest/server/indexing/IndexingJobRecoveryTest.kt:139-145 | an owned lease, expired or not, is set to 60 seconds from now and nothing else changes; otherwise zero rows and no change |
| `QueueStore.Store.Fail` | src/test/kotlin/com/osscontest/server/indexing/IndexingJobRecoveryTest.kt:132-137 | finishes under a live lease only |
| `QueueStore.Store.FailTransiently` | docs/SCHEMA.en.md:363-364 | under a live lease only: another try while attempts are left, otherwise the final failure |
| `QueueStore.Store.Complete` | docs/SCHEMA.en.md:420-422 | chunks, version, promotion and job change together or not at all |
| `QueueRuns.GraceStartsOnce` | src/main/resources/db/migration/V20261014_003__reclaim_expired_indexing_jobs.sql:38-48 | within one start, however often the procedure is called and whatever else happens, the marker and so the grace period stay as first recorded |
| `QueueStore.Store.SelectCandidates` | src/main/resources/db/migration/V20261014_003__reclaim_expired_indexing_jobs.sql:88-95 | the first expired jobs by lease and enqueue_seq, at most a batch, each as it stands |
| `QueueStore.Store.ReclaimOne` | src/main/resources/db/migration/V20261014_003__reclaim_expired_indexing_jobs.sql:98-120 | takes a job iff it is unlocked and unchanged since the snapshot; keeps every other column |
| `QueueStore.Store.ReclaimExpired` | src/main/resources/db/migration/V20261014_003__reclaim_expired_indexing_jobs.sql:52-125 | exactly the unlocked expired jobs of the batch return to PENDING; nothing changes on a read-only server, in the grace period, with the marker locked, or on the two errors, and when each is answered |
| `DocumentAccess.BatchIsSingle` | src/main/kotlin/com/osscontest/server/document/service/DocumentAccessChecker.kt:56-77 | the batched permission map equals the single check for every document |
| `DocumentAccess.AccessDefinitionsAgree` | src/main/kotlin/com/osscontest/server/search/infrastructure/SearchChunkRepository.kt:224-242 | in every reachable state listing, single check and search accept the same documents |
| `DocumentAccess.InvInEveryState` | src/main/kotlin/com/osscontest/server/document/service/DocumentPermissionService.kt:61-82 | the owner's own scope is always there; scope keys are unique; scopes stay in their tenant |
| `DocumentAccess.ListedHavePermission` | src/main/kotlin/com/osscontest/server/document/service/DocumentService.kt:362-377 | the response mapper finds a permission for every listed document |
| `DocumentAccess.TenantsAreIsolated` | src/main/kotlin/com/osscontest/server/document/repository/DocumentRepository.kt:17-41 | however many requests other tenants make, a document row and every permission on it stay as they are |
| `DocumentAccess.OnlyAdminsChangeScopes` | src/main/kotlin/com/osscontest/server/document/service/DocumentPermissionService.kt:40-82 | a scope of an existing document changes only by a grant or revoke of that key by somebody holding ADMIN |
| `DocumentAccess.GrantTakesEffect` | src/main/kotlin/com/osscontest/server/document/service/DocumentPermissionService.kt:40-110 | after any accepted grant the principal it names has the granted level iff the text is its plain decimal number or it had the level before |
| `DocumentAccess.PaddedGrantIsLost` | src/main/kotlin/com/osscontest/server/document/service/DocumentPermissionService.kt:97-110 | a reachable state in which a grant to "07" is accepted and user 7 gains nothing |
| `DocumentAccess.OthersKeepPermission` | src/main/kotlin/com/osscontest/server/document/service/DocumentPermissionService.kt:40-82 | a grant or revoke changes nothing for requesters its key does not match, nor on other documents |
| `DocumentAccess.RevokeUndoesGrant` | src/main/kotlin/com/osscontest/server/document/service/DocumentPermissionService.kt:61-82 | revoking a new grant restores every table |
| `DocumentAccess.EffectivePermissionIs` | src/main/kotlin/com/osscontest/server/document/service/DocumentAccessChecker.kt:43-54 | the owner is ADMIN; everybody else has exactly the highest level that some row grants, and none without a row |
| `DocumentAccess.RequireIff` | src/main/kotlin/com/osscontest/server/document/service/DocumentAccessChecker.kt:79-94 | a request passes iff the document is active in the tenant and the requester is the owner or some row grants enough; which error otherwise |
| `DocumentAccess.GrantAnswered` | src/main/kotlin/com/osscontest/server/document/service/DocumentPermissionService.kt:46-47 | ADMIN first, then a principal of the own tenant, each with its error |
| `DocumentAccess.GrantedRows` | src/main/kotlin/com/osscontest/server/document/service/DocumentPermissionService.kt:49-56 | an accepted grant leaves exactly one row with its key at the granted level, and all other rows |
| `DocumentAccess.RevokedRows` | src/main/kotlin/com/osscontest/server/document/service/DocumentPermissionService.kt:74-81 | an accepted revoke removes the row of its key and nothing else |
| `DocumentAccess.CreatedRights` | src/main/kotlin/com/osscontest/server/document/service/DocumentService.kt:301-320 | after creation the creator is ADMIN and others of the tenant have READ |
| `DocumentAccess.OnlyWritersDelete` | src/main/kotlin/com/osscontest/server/document/service/DocumentService.kt:153-159 | a document row changes only by a deletion from somebody with WRITE |
| `DocumentAccess.DeletedForGood` | src/main/kotlin/com/osscontest/server/document/repository/DocumentRepository.kt:85-91 | a deleted document is not found, listed or searched by anybody after any further requests |
| `PermissionService.Service.constructor` | src/main/kotlin/com/osscontest/server/document/service/DocumentPermissionService.kt:24-29 | no documents and no scopes |
| `PermissionService.Service.FindScope` | src/main/kotlin/com/osscontest/server/document/repository/DocumentAccessScopeRepository.kt:18-22 | finds the row iff one has the key |
| `PermissionService.Service.GrantPermission` | src/main/kotlin/com/osscontest/server/document/service/DocumentPermissionService.kt:40-59 | re-levels the existing row or appends one; the error answered; keeps the invariant |
| `PermissionService.Service.RevokePermission` | src/main/kotlin/com/osscontest/server/document/service/DocumentPermissionService.kt:61-82 | deletes the one row; the error answered; keeps the invariant |
| `DocumentPaging.FindSummaryPage` | src/main/kotlin/com/osscontest/server/document/service/DocumentService.kt:328-360 | over a table that may change at every fetch: rows in order, each matching, nothing steady skipped down to the next cursor, which exists iff the limit was exceeded |
| `DocumentPaging.Collect` | src/main/kotlin/com/osscontest/server/document/service/DocumentService.kt:341-353 | the matching rows of a prefix, up to one more than the limit |
| `DocumentPaging.PageOfFixedTable` | src/main/kotlin/com/osscontest/server/document/service/DocumentService.kt:328-360 | without concurrent changes the page is "filter everything, take limit" and the cursor is null iff nothing remains |
| `DocumentPaging.FollowCursors` | src/main/kotlin/com/osscontest/server/document/service/DocumentService.kt:328-360 | following cursors ends, yields every document present and matching throughout exactly once in order, and equals the filtered list when nothing changes |
| `DocumentPaging.PageJoins` | src/main/kotlin/com/osscontest/server/document/service/DocumentService.kt:349-356 | the next page continues where the last one ended: no gap, no repetition |
| `DocumentPaging.VersionsArePages` | src/main/kotlin/com/osscontest/server/document/service/DocumentService.kt:186-197 | the single-query version list satisfies the same page contract |
| `LikeEscape.SequentialIsEach` | src/main/kotlin/com/osscontest/server/document/service/DocumentService.kt:405-408 | the three replacements in a row escape each character once |
| `LikeEscape.TokensOfEscaped` | src/main/kotlin/com/osscontest/server/document/service/DocumentService.kt:405-408 | an escaped keyword reads as its own literal characters (section 8.5 of ISO/IEC 9075-2) |
| `LikeEscape.MatchesPrefix` | src/main/kotlin/com/osscontest/server/document/service/DocumentService.kt:397 | literals followed by % match exactly the values that begin with them |
| `LikeEscape.PatternFindsSubstring` | src/main/kotlin/com/osscontest/server/document/service/DocumentService.kt:405-408 | the pattern of a keyword matches a text iff the text contains the keyword |
| `LikeEscape.TitleSearch` | src/main/kotlin/com/osscontest/server/document/service/DocumentService.kt:379-402 | a title passes iff there is no query, or a blank one, or its lower-cased form contains the lower-cased query |
| `LikeEscape.Wildcards` | src/main/kotlin/com/osscontest/server/document/repository/DocumentRepository.kt:57 | unescaped, the two wildcards match one character and anything; an escape before nothing matches nothing |
| `Decimal.ParsePrint` | src/main/kotlin/com/osscontest/server/common/web/Cursor.kt:21-35 | every 64-bit value survives printing and parsing |
| `Decimal.ParseLongIff` | src/main/kotlin/com/osscontest/server/common/web/Cursor.kt:35 | the parser accepts exactly a fitting sign, any zeros and the plain digits of a 64-bit value |
| `Cursor.Utf8RoundTrip` | src/main/kotlin/com/osscontest/server/common/web/Cursor.kt:22-30 | decoding undoes encoding for every string |
| `Cursor.Base64RoundTrip` | src/main/kotlin/com/osscontest/server/common/web/Cursor.kt:22-30 | unpadded URL-safe Base64 (sections 3.2 and 5 of RFC 4648) decodes to the encoded bytes |
| `Cursor.DecodeEncode` | src/main/kotlin/com/osscontest/server/common/web/Cursor.kt:20-37 | decode undoes encode for every field name and 64-bit value |
| `Cursor.DecodeAbsent` | src/main/kotlin/com/osscontest/server/common/web/Cursor.kt:27 | the answer is "no cursor" iff it is missing or blank |
| `Cursor.DecodeValue` | src/main/kotlin/com/osscontest/server/common/web/Cursor.kt:31-36 | a cursor of the field is accepted iff its value, without surrounding white space, is a 64-bit number |
| `Cursor.DecodeNeedsAlphabet` | src/main/kotlin/com/osscontest/server/common/web/Cursor.kt:30 | a character outside the URL-safe alphabet makes the cursor invalid |
| `Cursor.OutOfRangeRefused` | src/main/kotlin/com/osscontest/server/common/web/Cursor.kt:35 | a number beyond 64 bits is refused |
| `Cursor.KnownBase64` | src/main/kotlin/com/osscontest/server/common/web/Cursor.kt:22 | test vectors of section 10 of RFC 4648, unpadded, and the two URL-safe letters of section 5 |
| `Cursor.KnownJson` | src/main/kotlin/com/osscontest/server/common/web/Cursor.kt:21 | the JSON text inside a cursor |
| `Cursor.ForeignCursorRefused` | src/main/kotlin/com/osscontest/server/common/web/Cursor.kt:26-37 | a cursor is accepted exactly under the field name it was made for |
| `SearchFusion.ResultsFromLists` | src/main/kotlin/com/osscontest/server/search/infrastructure/SearchChunkRepository.kt:46-77 | at most topK results, all from the two lists with their scores, for every answer of the reranker |
| `SearchFusion.ResultsFollowAnswer` | src/main/kotlin/com/osscontest/server/search/infrastructure/SearchChunkRepository.kt:75-92 | with a duplicate-free answer: as many results as fit, pool ids in the order of the answer, then the rest of the pool by score |
| `SearchFusion.ResultsNamedFirst` | src/main/kotlin/com/osscontest/server/search/infrastructure/SearchChunkRepository.kt:89-92 | with any answer, hits it names come before the others, and those come in descending score |
| `SearchFusion.PoolSize` | src/main/kotlin/com/osscontest/server/search/infrastructure/SearchChunkRepository.kt:65-71 | with rerank the pool has the larger of topK and the configured size, as far as there are candidates |
| `SearchFusion.DistinctResults` | src/main/kotlin/com/osscontest/server/search/infrastructure/SearchChunkRepository.kt:75-93 | results are distinct iff the first topK pool ids of the applied answer repeat nothing; always without rerank or when it throws |
| `SearchFusion.RepeatedAnswerShown` | src/main/kotlin/com/osscontest/server/search/infrastructure/SearchChunkRepository.kt:89-92 | an answer that repeats its id: the hit is returned twice and the pool is not permuted |
| `SearchFusion.NoBetterOmitted` | src/main/kotlin/com/osscontest/server/search/infrastructure/SearchChunkRepository.kt:62-76 | without rerank the list is filled up, sorted, and no omitted candidate beats a returned one |
| `SearchFusion.FailOpen` | src/main/kotlin/com/osscontest/server/search/infrastructure/SearchChunkRepository.kt:79-88 | when the reranker throws, the score sequence equals the one without rerank despite the wider pool |
| `SearchFusion.RerankPermutes` | src/main/kotlin/com/osscontest/server/search/infrastructure/SearchChunkRepository.kt:81-93 | the reranked list is a permutation of the pool iff no pool id is repeated in the answer; uncovered items come last in RRF order |
| `SearchFusion.SortedScoresUnique` | src/main/kotlin/com/osscontest/server/search/infrastructure/SearchChunkRepository.kt:168-169 | two descending arrangements of the same hits show the same scores |
| `SearchFusion.ItemsAreTop` | src/main/kotlin/com/osscontest/server/search/infrastructure/SearchChunkRepository.kt:71-74 | the re-sorted detail rows are the cut-off candidates again, up to ties |
| `SearchFusion.DominanceLimit` | src/main/kotlin/com/osscontest/server/search/infrastructure/SearchChunkRepository.kt:200-220 | being in both lists beats being in one for all pairs of lists iff the list limit is below K + 2 |
| `SearchFusion.BothListsOutrankOne` | src/main/kotlin/com/osscontest/server/search/infrastructure/SearchChunkRepository.kt:62-64 | with limit 50 and K = 60 a chunk of both lists outranks every chunk of only one |
| `SearchFusion.ScoreOfPositions` | src/main/kotlin/com/osscontest/server/search/infrastructure/SearchChunkRepository.kt:62-64 | the score from the two positions, 1/61 for a first place |
| `SearchFusion.TiesKeepOrder` | src/main/kotlin/com/osscontest/server/search/infrastructure/SearchChunkRepository.kt:71 | candidates with equal scores keep the order of the joined lists |
| `SearchFusion.MovingUpNeverHurts` | src/main/kotlin/com/osscontest/server/search/infrastructure/SearchChunkRepository.kt:95 | improving a chunk's rank in one list lets no further chunk pass it |
| `SharedNgram.MaxSharedNgram` | scripts/eval/build_qa_set.py:120-132 | the length of the longest common contiguous substring of the normalised texts |
| `SharedNgram.SharedShorter` | scripts/eval/build_qa_set.py:127 | a prefix of a shared piece is shared, which is why the inner search may start at best + 1 |
| `SharedNgram.NormalizeOne` | scripts/eval/build_qa_set.py:115-117 | which single characters are kept |
| `SharedNgram.NormalizeConcat` | scripts/eval/build_qa_set.py:115-117 | a text is normalised part by part, in order |
| `RateLimiter.Limiter.constructor` | scripts/eval/rerank_ab.py:55-58 | no grants yet |
| `RateLimiter.Limiter.Acquire` | scripts/eval/rerank_ab.py:60-73 | keeps the whole history spaced although entries are dropped; grants once; waits only when the last limit grants fill the window, no longer than the oldest of them stays in it, and reports exactly the time it slept |
| `RateLimiter.Limiter.AcquireMany` | scripts/eval/rerank_ab.py:60-73 | after any number of calls grants i and i + limit are at least a window apart |
| `RateLimiter.WindowHoldsLimit` | scripts/eval/rerank_ab.py:52-73 | no half-open window, wherever it starts, holds more than limit grants |
| `SignTest.ClippedOnlyOnDraw` | scripts/eval/rerank_ab.py:126-131 | the clip at 1 acts iff wins equal losses; p is 1 iff they differ by at most 1; p is symmetric and in (0, 1] |
| `SignTest.FewerMeansSmaller` | scripts/eval/rerank_ab.py:126-131 | for fixed n, a smaller lesser count gives a strictly smaller p |
| `SignTest.ArmsExchange` | scripts/eval/rerank_ab.py:119-132 | negating the differences exchanges wins and losses and keeps ties and p |
| `SignTest.RowMirror` | scripts/eval/rerank_ab.py:126-127 | the lower tail and its mirror image make up all 2^n outcomes |
| `SignTest.PValueCounts` | scripts/eval/rerank_ab.py:126-131 | p is the share, at most all, of the win/loss sequences of length n with no more wins than the smaller count, counted twice |
| `SignTest.TestCounts` | scripts/eval/rerank_ab.py:121-132 | wins, losses and ties are the numbers of positive, negative and zero differences |
| `EmbeddingCache.Lru.constructor` | src/main/kotlin/com/osscontest/server/search/infrastructure/QueryEmbeddingCache.kt:21-26 | empty |
| `EmbeddingCache.Lru.IndexOf` | src/main/kotlin/com/osscontest/server/search/infrastructure/QueryEmbeddingCache.kt:28 | finds the entry of a key iff there is one |
| `EmbeddingCache.Lru.Get` | src/main/kotlin/com/osscontest/server/search/infrastructure/QueryEmbeddingCache.kt:28 | answers the entry; a hit makes it the most recent, a miss changes nothing |
| `EmbeddingCache.Lru.Put` | src/main/kotlin/com/osscontest/server/search/infrastructure/QueryEmbeddingCache.kt:23-32 | overwrites or inserts as most recent and evicts the eldest only when over capacity |
| `EmbeddingCache.TouchKeeps` | src/main/kotlin/com/osscontest/server/search/infrastructure/QueryEmbeddingCache.kt:21-32 | after any touch the entries are the N most recently touched keys in order, each with its last put |
| `EmbeddingCache.TouchedKeys` | src/main/kotlin/com/osscontest/server/search/infrastructure/QueryEmbeddingCache.kt:23-25 | touching a key commutes with keeping only the N most recent |
| `EmbeddingCache.RecencyByLastTouch` | src/main/kotlin/com/osscontest/server/search/infrastructure/QueryEmbeddingCache.kt:16-17 | the recency order is exactly the touched keys, once each, by their last touch |
| `EmbeddingCache.Client.constructor` | src/main/kotlin/com/osscontest/server/search/infrastructure/EmbeddingClient.kt:23-27 | starts on an empty cache |
| `EmbeddingCache.Client.Embed` | src/main/kotlin/com/osscontest/server/search/infrastructure/EmbeddingClient.kt:31-56 | the same vector or error as without a cache: the vector of the model iff it has the configured dimension; errors leave the cache alone |
| `EmbeddingCache.StoredVectors` | src/main/kotlin/com/osscontest/server/search/infrastructure/EmbeddingClient.kt:43-54 | every cached vector is what the model gives for its text and has the configured dimension |
| `WriteStop.OrderIrrelevant` | ha-test/hatest/measure.py:26-61 | the measurement is the same for every order of the log |
| `WriteStop.LongestSilence` | ha-test/hatest/measure.py:35-48 | without failures no stretch free of answers between counted answers exceeds the duration, and one attains it; resumed_at is the latest counted answer |
| `WriteStop.StopIsAroundFirstFailure` | ha-test/hatest/measure.py:49-61 | the earliest failure of the window, the last answer by then, the first answer to a later attempt, and the time between the answers |
| `WriteStop.NeverNegative` | ha-test/hatest/measure.py:26-61 | the duration is never negative when every attempt has start <= end |
| `WriteStop.QuietUnlessOverlapping` | ha-test/hatest/measure.py:49-55 | an answer arrives inside the reported stop iff the log holds an attempt under way at the first failing start and answered before every later successful attempt |
| `WriteStop.OverlapShown` | ha-test/hatest/measure.py:49-55 | a log whose reported stop from 6 to 14 contains an answer at 12 |
| `WriteStop.CountersCount` | ha-test/hatest/measure.py:32-61 | attempts counts the window; failures counts its failing attempts that start before writes resume, zero without a failure |
| `WriteStop.DurationNeedsTwoAnswers` | ha-test/hatest/measure.py:35-44 | without failures there is a duration iff two answers count: those of the window and one before it |
| `WriteStop.AscendingUnique` | ha-test/hatest/measure.py:33-36 | sorted times depend only on which times there are |
| `RestoreCluster.Leader` | ha-test/hatest/runner.py:274-276 | a node is returned iff it is the only one that says it leads |
| `RestoreCluster.Controller.constructor` | ha-test/hatest/runner.py:221-228 | an empty log |
| `RestoreCluster.Controller.ReadMembers` | ha-test/hatest/cluster.py:82-91 | for every configured node the scanned member, or an unreachable one if the scan misses it; an error iff the scan fails |
| `RestoreCluster.StreamingMeans` | ha-test/hatest/runner.py:279-283 | all streaming: one node leads and every other is a reachable streaming replica |
| `RestoreCluster.SoleLeaderMeans` | ha-test/hatest/runner.py:274-276 | which member is the sole leader |
| `RestoreCluster.OnlyHolderMeans` | ha-test/hatest/runner.py:268 | the owner holds the address and no other node does |
| `RestoreCluster.Controller.WaitUntil` | ha-test/hatest/runner.py:286-296 | ends within the limit plus one pause; true only on an observation of the goal, false only past the limit on an observation that misses it |
| `RestoreCluster.Controller.AwaitNode` | ha-test/hatest/runner.py:233-241 | ends by 243 seconds after the start, reached or failed |
| `RestoreCluster.Controller.AwaitNodes` | ha-test/hatest/runner.py:233-241 | returns only after every node answered |
| `RestoreCluster.Controller.ReviveStacks` | ha-test/hatest/runner.py:243-250 | revives exactly the nodes that the view or their facts call for, each at most as often as it is listed |
| `RestoreCluster.Controller.StartProxies` | ha-test/hatest/runner.py:252-255 | starts exactly the proxies that are not active |
| `RestoreCluster.Controller.ReturnLeader` | ha-test/hatest/runner.py:260-266 | at most one switchover, and normal return only on the primary as sole leader |
| `RestoreCluster.Controller.BringUp` | ha-test/hatest/runner.py:233-258 | the steps up to streaming: every node reached, each inspected and revived exactly when the view or its facts call for it, proxies likewise |
| `RestoreCluster.Controller.Restore` | ha-test/hatest/runner.py:221-271 | for any answers: every observation in the log is the world's answer to that question; within 243 + 182 + 92 + 32 seconds, bounded commands, a normal return only when every command succeeded and on the milestones in order, and on each failure the elapsed time and the observation it rests on |
| `RestoreCluster.ListedOnce` | ha-test/hatest/runner.py:244-250 | with distinct node names that means at most one revive per node |

## Left out

- Worker code lives in another repository. Claim, heartbeat and owned writes follow the SQL of the recovery test; completion, promotion and clean-up follow `docs/SCHEMA.en.md`.
- The job id and enqueue_seq, both unique, are one key; version rows are addressed by id where the services look them up by (document, number), which is unique in every reachable state.
- Fresh keys are parameters: a new job's key is above the document's earlier ones, because the identity is drawn under the document lock.
- QueueStore.Store.Complete: may index or skip a deleted document's INDEX job, since neither is fixed by the sources; it requires the composite foreign keys it reads through.
- QueueStore.Store.ReclaimExpired: lock_timeout is not modelled, and the method runs its rows without interleaving; the two-step race is in `QueueRuns`, where the marker is checked with the row re-validation.
- The queue's clock never goes backwards, and a promotion loses no committed row; asynchronous replication may.
- Liveness: an exhausted job blocks its document on purpose, so only safety is proved.
- The circuit breaker, trace ids, error columns, timestamps other than lease and retry time, phase order and `latest_embedding_version_no`.
- Access levels are checked in `DocumentAccess`; the queue actions take them as given. Uploads' files, titles and object storage are not modelled.
- Decimal.ParsePrint: digits are ASCII; the parser of the original also accepts other Unicode digits, so there are more accepted grant texts that no check matches.
- Cursor.Utf8RoundTrip: malformed input decodes to replacement characters one byte at a time, which may differ in number from the Java decoder; valid input does not.
- LikeEscape.TitleSearch: the two lower-casing functions and the blank test are parameters.
- DocumentPaging.FindSummaryPage: the filter is the status and searchable part; the access and title parts are in the table it scans. Limit and scan size are any positive numbers.
- SearchFusion: vector distance, Nori, BM25 and its filters give arbitrary lists; one detail row per id is assumed; scores are reals, so floating-point ties and rounding are not modelled.
- SignTest.ClippedOnlyOnDraw: p is an exact real; bootstrap intervals and percentiles are left out.
- RateLimiter.Limiter.Acquire: the limit is not negative.
- EmbeddingCache.Lru.Put: calls are atomic, as the synchronised map makes them; the capacity is any number, 1000 in the original.
- WriteStop: `promotion`, `max_simultaneous_leaders`, `loss` and the CPU figures would only add easy members.
- RestoreCluster.Controller.Restore: time passes only in sleeps, not in commands; progress lines and the manual hint are left out; a role outside Patroni's known ones counts as no role.
- Controllers, wiring, exception handlers, report rendering, SSH, Terraform and monitoring.

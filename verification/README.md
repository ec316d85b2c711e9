# Verified models of the TCA aggregator

This project models the stateful cores of TCA, a Telegram channel aggregator, in Dafny and proves
what they promise for every input, every run or every reachable state. `dafny verify dfyconfig.toml`
checks all of it.

## What is modelled

- **Cluster store** (`Schema`, `Ranking`, `Statements`, `ClusterSpec`, `RowEffects`, `Representatives`,
  `MergeConfluence`, `ClusterStore`, `FullText`, `Timeline`). The tables for channels, raw messages, items, dedupe
  clusters, members, decisions and bot deliveries form one value. SQL statements are transformations
  of it that include their foreign-key actions. `ClusterStore.Database` runs the transactions the way
  the code does, statement by statement and batch by batch with the full-text triggers firing row by
  row, and each is proved equal to a one-shot description. On those descriptions stand the cluster
  invariant over every run, the exact condition under which representatives stay best ranked, the
  confluence of merges and the completeness of timeline paging.
- **Writer queue** (`WriterQueue`, `WriterQueueClose`, `WriterQueueOutcomes`). A state machine over submits, caller
  cancellations, worker turns, worker cancellations and close, proved to refine sequential execution.
- **Delivery messages** (`Html`, `Truncation`, `Formatter`). The tag grammar, the truncation loop and
  the message assembly over plain strings.
- **Pagination** (`Pagination`). The bounded fetch loop against a history that grows between requests,
  and cycles of polls.
- **Key rotation, key salt, account risk, bot delivery, login** (`KeyRotation`, `KeySalt`,
  `AccountRisk`, `BotDelivery`, `LoginFlow`).
- **Application lifespan and scheduler tick** (`Lifecycle`, `SchedulerTick`). The calls made by startup
  and shutdown when any of them may fail, and the channels a tick selects under arbitrary jitter.

Row ids are a one-field datatype `Id` (`Basics`); times are integers, except in the scheduler, whose
jitter is real; one repository method is one transaction. The login wizard is modelled commit by commit.
Telegram's replies, the clock, randomness and the tokenizer are parameters.

## Where the code and its documentation or expectation differ

- `docs/option-a-local-design.md` (section 11.1) says the representative is recalculated whenever a
  cluster changes. `assign_item_to_cluster` does not do it, and neither does an item upsert, so the
  invariant is that the representative is a member. `Representatives.RepresentativeCanBeOutranked` gives
  a run, `Representatives.RankingKeptExactly` the exact condition for every transaction, and merged,
  pruned and purged clusters get the best-ranked item (`Representatives.MergeRestoresBest`,
  `ClusterSpec.PruneByCluster`, `ClusterSpec.PurgeByCluster`).
- `WriterQueue.close` is documented to drain queued writes before returning. It can return normally
  although an accepted write never ran to its end, when an earlier worker was cancelled with a job running or
  queued; `WriterQueueClose.CloseReturned` gives the exact condition and
  `WriterQueueClose.CloseCanMissAJob` a run.
- A worker task cancelled before its first turn leaves its queued futures pending;
  `WriterQueue.PendingAfterStop` says exactly when, and `WriterQueueClose.FutureCanStayPending` is a run.
- `fetch_bounded_messages` with a page size below one reports exhaustion without having fetched
  anything; `Pagination.EmptyPagesMissHistory` states it, and the postcondition of `FetchBounded` has the
  exact condition under which exhaustion means that everything was returned.
- `truncate_html` fits its limit exactly when the limit is at least one or the input already fits.
- A bot or scheduler shutdown hook that raises `TimeoutError` itself ends the whole shutdown: the handler
  meant for the time limit awaits the finished task again and its error escapes, so the queue is not
  closed, nothing else is stopped, and an error recorded before is lost. `Lifecycle.OrderlyExactly`,
  `Lifecycle.ClosedExactly` and `Lifecycle.RaisesFirstExactly` give the exact conditions and
  `Lifecycle.TimeoutErrorSkipsTeardown` a case.
- `mark_account_rotated` keeps the progress mark in order exactly when every smaller account has
  reached the target, and a completed rotation still reports completion after a lagging account is added
  (`KeyRotation.MarkAnyAccount`, `KeyRotation.CompletionCanBeStale`); that addition is the only step that
  does it, and in runs without it a reported completion can be trusted
  (`KeyRotation.CompletionKeptExactly`, `KeyRotation.CompletionTrustedExactly`). An account skipped by a
  mark out of order blocks the rotation for good (`KeyRotation.SkippedForever`).
- A login whose row expires between the two checks is answered with "expired" although its account session
  has been stored (`LoginFlow.StoresExactlyCaptured`).

## Model

| member | source | states |
|---|---|---|
| Basics.NextId | tca/storage/dedupe_clusters_repo.py:64-70 | a new row id is one more than the largest in use, or one |
| Ranking.BestExists | tca/storage/dedupe_clusters_repo.py:182-199 | a non-empty set of items always has a row ranked before all others |
| Ranking.Best | tca/storage/dedupe_clusters_repo.py:176-214 | the recomputed representative is NULL exactly without members, and otherwise the unique item ranked before all others |
| Ranking.RankingIsOrderBy | tca/ops/prune_job.py:352-369 | the ranking is the lexicographic order of the query's ORDER BY terms and never leaves a tie |
| Ranking.RankedByColumns | tca/storage/dedupe_clusters_repo.py:182-199 | in columns: a canonical URL first, then the longer title plus body, then a date, the earlier date, the smaller id |
| Statements.SweepFindsNothing | tca/ops/prune_job.py:415-463 | while foreign keys hold the orphan sweep selects no member and no decision row |
| Statements.OrphansExactly | tca/ops/prune_job.py:415-463 | in any store the sweep selects exactly the rows with a reference to a missing row |
| Statements.DeleteItemsTwice | tca/ops/prune_job.py:311-335 | deleting two batches of items, with all cascades, is deleting their union once |
| Statements.DeleteRawsTwice | tca/ops/prune_job.py:258-276 | deleting two batches of raw messages, with SET NULL on items, is deleting their union once |
| ClusterSpec.RemovalStatements | tca/storage/channels_repo.py:331-344 | delete, recompute of the affected clusters and delete-empty together give the one-shot removal |
| ClusterSpec.EmptiedAreGone | tca/ops/prune_job.py:389-412 | the clusters found empty are exactly the affected ones that lost all members |
| ClusterSpec.RecomputedClusters | tca/ops/prune_job.py:339-386 | recomputed representatives are the best of the items left, all others keep theirs |
| ClusterSpec.ItemAt | tca/storage/items_repo.py:92-104 | the conflict key selects the item of that channel and message, or none exists |
| ClusterSpec.MergedKeeps | tca/storage/dedupe_clusters_repo.py:311-327 | a merge keeps all foreign keys and every representative a member |
| ClusterSpec.AssignKeeps | tca/storage/dedupe_clusters_repo.py:80-108 | an assignment keeps all foreign keys and every representative a member |
| ClusterSpec.UpsertKeeps | tca/storage/items_repo.py:68-138 | an item upsert keeps all keys, including the unique one, and the representatives |
| ClusterSpec.RemovedKeeps | alembic/versions/5f8b0d1e2a44_create_base_content_and_dedupe_tables.py:99-189 | removing any set of items keeps all foreign keys and every remaining cluster represented by a member |
| ClusterSpec.PruneKeeps | tca/ops/prune_job.py:93-136 | a prune run keeps foreign keys and the cluster invariant |
| ClusterSpec.PurgeKeeps | tca/storage/channels_repo.py:292-366 | a channel purge keeps foreign keys and the cluster invariant |
| ClusterSpec.ApplyKeeps | tca/storage/dedupe_clusters_repo.py:54-394 | every transaction keeps foreign keys and the cluster invariant |
| ClusterSpec.EveryReachableStoreIsHealthy | tca/ops/prune_job.py:83-150 | after any run of transactions from the empty database no cluster is empty, each representative is set, exists and is a member of its cluster, every reference of every row names an existing row, no message has two items, and the orphan sweep would delete nothing |
| ClusterSpec.PruneByCluster | tca/ops/prune_job.py:103-123 | per cluster, with the items created before the cutoff gone: the other members stay, the cluster survives exactly if one is left, untouched clusters are unchanged, touched ones get the best-ranked remaining item |
| ClusterSpec.PurgeByCluster | tca/storage/channels_repo.py:331-344 | the same with the items of the channel gone |
| RowEffects.PruneByRow | tca/ops/prune_job.py:83-150 | row by row in columns: what is older than a cutoff goes, its member and decision rows with it, other references to it become NULL, clusters follow their items, and all else stays as it was |
| RowEffects.PurgeByRow | tca/storage/channels_repo.py:331-344 | the same for the rows of a channel; those of every other channel stay |
| RowEffects.MergeByRow | tca/storage/dedupe_clusters_repo.py:257-394 | row by row in columns: when a merge finds its target, another cluster and a member row, the member rows move, the other clusters and their deliveries go, one decision row is added, and all else stays; otherwise nothing changes |
| RowEffects.MergeKeepsLongestText | tca/storage/dedupe_clusters_repo.py:182-199 | the representative a merge leaves has a canonical URL if any item has, and among those alike no longer text exists |
| Representatives.AssignKeepsBestExactly | tca/storage/dedupe_clusters_repo.py:98-108 | an assignment keeps a best-ranked representative exactly when the item is it or ranks after it |
| Representatives.RewriteKeepsBestExactly | tca/storage/items_repo.py:92-104 | rewriting an item row keeps a best-ranked representative exactly when the new row leaves it first among the members |
| Representatives.MergeRestoresBest | tca/storage/dedupe_clusters_repo.py:324-338 | a merge leaves its target with the best item of the union, whatever the representatives were |
| Representatives.RankingKeptExactly | tca/storage/dedupe_clusters_repo.py:54-394 | for every transaction on a store with best-ranked representatives only: they all stay best ranked exactly under a condition on its arguments; merge, prune, purge and inserts always keep them |
| Representatives.RankingRuns | tca/storage/dedupe_clusters_repo.py:54-394 | runs of transactions that meet that condition keep every representative best ranked |
| Representatives.RepresentativeCanBeOutranked | tca/storage/dedupe_clusters_repo.py:98-108 | a run from the empty database ends with a representative that is not the best ranked |
| MergeConfluence.RootsAreLinks | tca/storage/dedupe_clusters_repo.py:122-130 | two original clusters end up together exactly when the joins of the run link them by a path |
| MergeConfluence.RootIsSmallest | tca/storage/dedupe_clusters_repo.py:129-130 | the surviving cluster of a class is a live original cluster with the smallest id of its class |
| MergeConfluence.RunMovesToRoots | tca/storage/dedupe_clusters_repo.py:311-322 | after a run the clusters are exactly the roots and every member row sits at its cluster's root |
| MergeConfluence.RunRepresentative | tca/storage/dedupe_clusters_repo.py:324-338 | a cluster never joined keeps its representative, a joined class has the best item of the union |
| MergeConfluence.RunDeliveries | alembic/versions/4b080ca28e36_create_bot_deliveries_table.py:14-33 | deliveries of surviving clusters are kept, those of absorbed clusters are gone |
| MergeConfluence.MergeConfluence | tca/storage/dedupe_clusters_repo.py:116-394 | two runs of merges that link the same original clusters end with the same clusters, representatives, members and deliveries |
| MergeConfluence.MergeTwice | tca/storage/dedupe_clusters_repo.py:302-309 | repeating a merge request changes nothing, not even the decision log |
| FullText.InsertAgrees | alembic/versions/a1f6e7c9d2b4_add_fts5_trigger_sync.py:17-21 | the insert trigger keeps the index equal to the one recomputed from the items |
| FullText.DeleteAgrees | alembic/versions/a1f6e7c9d2b4_add_fts5_trigger_sync.py:26-30 | the delete trigger keeps the index equal to the one recomputed from the items |
| FullText.ReindexRow | alembic/versions/a1f6e7c9d2b4_add_fts5_trigger_sync.py:35-41 | the update trigger keeps the index equal to the one recomputed from the items |
| FullText.UnindexRows | alembic/versions/a1f6e7c9d2b4_add_fts5_trigger_sync.py:26-30 | a multi-row or cascaded delete keeps the index in agreement |
| FullText.ReindexRows | alembic/versions/a1f6e7c9d2b4_add_fts5_trigger_sync.py:35-41 | a multi-row SET NULL update keeps the index in agreement |
| FullText.RebuildIndex | alembic/versions/a1f6e7c9d2b4_add_fts5_trigger_sync.py:44-45 | the rebuild step gives the index of the items table |
| FullText.AgreementIsUnique | alembic/versions/a1f6e7c9d2b4_add_fts5_trigger_sync.py:13-45 | there is only one index in agreement with a table |
| FullText.AgreementHoldsEveryText | alembic/versions/a1f6e7c9d2b4_add_fts5_trigger_sync.py:17-41 | agreement means exactly: each title and each body is indexed under its terms as often as they occur, and NULL columns and missing rows not at all |
| ClusterStore.Database.constructor | alembic/versions/a1f6e7c9d2b4_add_fts5_trigger_sync.py:44-45 | opening a database leaves it well formed and indexed |
| ClusterStore.Database.DeleteItemRows | alembic/versions/5f8b0d1e2a44_create_base_content_and_dedupe_tables.py:116-188 | deleting items runs the cascades and SET NULLs and keeps the index |
| ClusterStore.Database.DeleteRawRows | alembic/versions/5f8b0d1e2a44_create_base_content_and_dedupe_tables.py:81-86 | deleting raw messages nulls the references of items and keeps the index |
| ClusterStore.Database.UpsertItem | tca/storage/items_repo.py:54-138 | each column of the row written, that an existing row is reused and keeps its creation time and raw reference, that no other item row changes, and that it fails exactly when the row to be written breaks a foreign key |
| ClusterStore.Database.AssignItem | tca/storage/dedupe_clusters_repo.py:54-114 | the member row added, the new cluster and its representative, what the result reports, and when a foreign key fails |
| ClusterStore.Database.NormalizeIds | tca/storage/dedupe_clusters_repo.py:407-416 | the set of distinct ids of the match list |
| ClusterStore.Database.MergeRows | tca/storage/dedupe_clusters_repo.py:257-394 | the transaction's statements give the one-shot merge; which result or error is reported for which store, with its counts; an event is reported exactly if a decision row was added |
| ClusterStore.Database.MergeClusters | tca/storage/dedupe_clusters_repo.py:116-394 | the same for a match list with duplicates, including the too-few-clusters error |
| ClusterStore.MergeStatements | tca/storage/dedupe_clusters_repo.py:311-386 | move, delete, recompute and the event row together are the one-shot merge; the no-item error arises exactly without items |
| ClusterStore.MergeOutcome | tca/storage/dedupe_clusters_repo.py:268-309 | when a merge changes nothing: no target, nothing to remove, or no item |
| ClusterStore.SelectBatch | tca/ops/prune_job.py:285-293 | a batch is the 500 smallest ids, or everything left |
| ClusterStore.Database.DeleteExpiredRaws | tca/ops/prune_job.py:235-277 | the batched delete leaves exactly the raw messages created at or after the cutoff; total and batch sizes |
| ClusterStore.Database.DeleteExpiredItems | tca/ops/prune_job.py:280-336 | the batched delete leaves exactly the items created at or after the cutoff; all batches but the last are 500, and the reported clusters are those that held a deleted item at the start |
| ClusterStore.RepairOutcome | tca/ops/prune_job.py:339-412 | of the repaired clusters exactly those with a member row are left, with their members and their best item as representative; all other clusters and all items are untouched |
| ClusterStore.Database.SweepOrphans | tca/ops/prune_job.py:415-463 | in a well-formed store the sweep deletes nothing and reports zero twice |
| ClusterStore.PruneStatements | tca/ops/prune_job.py:93-136 | the ordered prune statements equal the one-shot prune |
| ClusterStore.Database.PruneOnce | tca/ops/prune_job.py:83-150 | the run equals the one-shot prune; the items and raw messages left are exactly those created at or after their cutoff, unchanged but for references to deleted raw messages; every number of the summary is counted in the rows it is about |
| ClusterStore.PurgeStatements | tca/storage/channels_repo.py:331-344 | the purge statements equal the one-shot purge |
| ClusterStore.Database.DeleteChannelRow | alembic/versions/5f8b0d1e2a44_create_base_content_and_dedupe_tables.py:76-87 | deleting a channel row runs the cascades to its raw messages and items, and keeps the index |
| ClusterStore.Database.PurgeChannel | tca/storage/channels_repo.py:188-367 | the purge equals the one-shot purge; exactly the rows of other channels are left; the counts and clusters of the audit notice |
| ClusterStore.Database.Execute | alembic/versions/a1f6e7c9d2b4_add_fts5_trigger_sync.py:13-45 | after any run of transactions the tables are those of the one-shot descriptions, and the trigger-maintained index holds every title and body under exactly its terms, and nothing else |
| Timeline.TimelineIsOrderBy | tca/storage/thread_query_repo.py:99-105 | the timeline order is the query's ORDER BY and never leaves a tie |
| Timeline.RowsByColumns | tca/storage/thread_query_repo.py:63-109 | in columns: which clusters are listed, dated before undated, newer before older, larger id before smaller |
| Timeline.SortedInOrder | tca/storage/thread_query_repo.py:63-109 | the rows are exactly the listed clusters, strictly ordered |
| Timeline.PagesArePrefix | tca/storage/thread_query_repo.py:59-61 | the first n pages concatenate to the first n times size rows |
| Timeline.PagingIsComplete | tca/storage/thread_query_repo.py:52-119 | in a healthy store enough pages of any size list every cluster exactly once in strict order |
| Timeline.DuplicateCountIsMembership | tca/storage/thread_query_repo.py:76-87 | the duplicate count is the number of distinct items of the cluster, at least one |
| WriterQueue.StepKeeps | tca/storage/writer_queue.py:55-150 | every step keeps the queue in order, one live worker, futures settled exactly for jobs that left the queue, and the store sequential |
| WriterQueue.RunHolds | tca/storage/writer_queue.py:55-150 | the same after every run |
| WriterQueue.RefinesSequentialExecution | tca/storage/writer_queue.py:93-150 | in every interleaving the operations that ran are accepted ones in acceptance order, never two workers at once, the store is the sequential fold, and each returned result or error is the sequential one |
| WriterQueue.SettledOnce | tca/storage/writer_queue.py:106-150 | what a future is settled with never changes afterwards |
| WriterQueue.PendingAfterStop | tca/storage/writer_queue.py:86-130 | with no live worker a future is pending exactly when its job is still queued, which needs a worker cancelled before entering its loop |
| WriterQueueClose.LossIsVisible | tca/storage/writer_queue.py:106-130 | jobs are lost exactly by a worker stop with a job running or queued |
| WriterQueueClose.StepAccounts | tca/storage/writer_queue.py:97-130 | every job that left the queue is running, in the history or rejected unrun, never two of these |
| WriterQueueClose.CloseReturned | tca/storage/writer_queue.py:71-84 | after a normal return of the closing call every accepted operation has run exactly if no step lost a job |
| WriterQueueClose.CloseCanMissAJob | tca/storage/writer_queue.py:71-130 | a run in which a worker is cancelled inside an operation and close later returns normally, although that accepted operation never ran to its end |
| WriterQueueClose.FutureCanStayPending | tca/storage/writer_queue.py:86-130 | a run after which no worker is alive and a future is pending |
| WriterQueueOutcomes.OutcomeReachesCaller | tca/storage/writer_queue.py:106-150 | in every run each caller that did not cancel is told the value or the exception of its own operation run sequentially, or the crash error for a fatal, interrupted or drained one; nobody else gets the crash error |
| WriterQueueOutcomes.CancelledByCaller | tca/storage/writer_queue.py:132-150 | a future is only ever cancelled by its own caller, and by one that cancels while it is pending |
| WriterQueueOutcomes.SubmitIsAccepted | tca/storage/writer_queue.py:55-69 | a submit to an open queue becomes the next job with a pending future; to a closed one it changes nothing |
| WriterQueueOutcomes.WorkerCatchesUp | tca/storage/writer_queue.py:93-120 | from every reachable state an undisturbed worker runs all accepted operations in order, if none is fatal |
| WriterQueueOutcomes.CloseDrains | tca/storage/writer_queue.py:71-104 | from every reachable state with a waiting worker a close can run on to its normal return with every queued operation run |
| Html.TagShape | tca/bot/formatter.py:71-85 | a matched tag starts with an angle bracket, ends with one and has a non-empty name |
| Html.TagsExactly | tca/bot/formatter.py:71-72 | a tag is matched exactly where the grammar of the regular expression, written out in characters, has one |
| Html.SpacesAre | tca/bot/formatter.py:71-72 | the white-space characters of the regular expression |
| Html.NestConcat | tca/bot/formatter.py:74-124 | nesting of a concatenation is nesting one part after the other |
| Html.ClosersNest | tca/bot/formatter.py:127-128 | the emitted end tags close exactly the open tags, and their length is the reserved one |
| Truncation.TextLength | tca/bot/formatter.py:71-72 | text runs up to the first position where a tag matches |
| Truncation.NextToken | tca/bot/formatter.py:71-78 | tokens alternate between text and tag and are consecutive pieces of the input |
| Truncation.Offer | tca/bot/formatter.py:79-124 | one token keeps the budget; what is copied, dropped or refused, and why |
| Truncation.TurnCopies | tca/bot/formatter.py:82-124 | on well-nested input one turn keeps the copied part nested and a stop means nothing more fits |
| Truncation.LongerNeedsMore | tca/bot/formatter.py:82-124 | along nested text the position plus the end tags still needed never falls |
| Truncation.CannotCutLater | tca/bot/formatter.py:97-124 | once the next tag or character does not fit, no longer part that ends between tags fits |
| Truncation.CutTokens | tca/bot/formatter.py:74-130 | the loop's result fits, is well nested for well-nested input, and is the longest such cut |
| Truncation.TruncateHtml | tca/bot/formatter.py:66-130 | the result fits exactly if the limit is at least one or the input fits; well-nested input gives the longest part ending between tags, an ellipsis and the closers, well nested |
| Formatter.EscapeIsPlain | tca/bot/formatter.py:22-27 | escaped text has no angle bracket |
| Formatter.EscapeRoundTrip | tca/bot/formatter.py:22-27 | escaping loses nothing |
| Formatter.FullMessageShows | tca/bot/formatter.py:22-60 | what a reader sees of the assembled message, without tags and entities: title or URL, the first 500 characters of the body, and the attribution with channel, username and count, as paragraphs, the empty ones left out |
| Formatter.HeadingLinks | tca/bot/formatter.py:29-38 | the message starts with a link to the canonical URL around the bold title or the URL, or with the bold title |
| Formatter.DigitsAreDecimal | tca/bot/formatter.py:46-47 | the count is written in decimal without a leading zero |
| Formatter.CutShowsBeginning | tca/bot/formatter.py:126-130 | a cut message shows a beginning of the text and an ellipsis |
| Formatter.FullMessageIsWellNested | tca/bot/formatter.py:29-60 | whatever the fields contain the assembled message is well nested |
| Formatter.FormatDeliveryMessage | tca/bot/formatter.py:13-63 | every delivery message is well nested and at most 4096 characters; if the assembled message fits, a reader sees exactly the text of the entry, and otherwise a beginning of it and an ellipsis, in the longest cut |
| Pagination.Extremes | tca/ingest/service.py:124-128 | the largest and smallest id of a batch |
| Pagination.NextRequestSees | tca/ingest/service.py:102-117 | a later request of a poll sees exactly the unreturned rest, whatever was appended meanwhile |
| Pagination.RequestPage | tca/ingest/service.py:111-117 | a page is the next newest unseen ids, short only at the end |
| Pagination.TakePage | tca/ingest/service.py:110-132 | one turn of the loop extends the collected ids, the offset and the latest id, and detects the end |
| Pagination.FetchBounded | tca/ingest/service.py:80-142 | a poll returns the newest visible ids in descending order within both limits, with the right cursor; exhaustion means everything was returned exactly if the page size is positive or nothing was visible; a page size below one fetches nothing |
| Pagination.EmptyPagesMissHistory | tca/ingest/service.py:110-122 | with a page size below one a poll asks once, returns nothing and reports exhaustion, whatever the history |
| Pagination.CycleCoversHistory | tca/ingest/service.py:80-142 | polls from a null offset to exhaustion return every message of the first request's history exactly once in strictly descending order, and the latest id |
| Pagination.CycleEnds | tca/ingest/service.py:80-142 | with n messages at its first request a cycle of polls with positive limits is exhausted after at most n + 1 polls |
| KeyRotation.NextPending | tca/auth/key_rotation.py:170-197 | the smallest lagging id past the progress mark, or none is pending |
| KeyRotation.Repository.BeginRotation | tca/auth/key_rotation.py:66-139 | the row created, returned or restarted, and the three refusals |
| KeyRotation.Repository.NextPendingAccountId | tca/auth/key_rotation.py:170-197 | the id handed out lags, lies past the progress mark and is the smallest such id; none is handed out only if there is none |
| KeyRotation.Repository.MarkAccountRotated | tca/auth/key_rotation.py:199-256 | the account and progress rows after a mark, and the two errors |
| KeyRotation.Repository.CompleteIfFinished | tca/auth/key_rotation.py:258-294 | completes exactly without lagging accounts |
| KeyRotation.MarkNext | tca/auth/key_rotation.py:199-256 | marking the id handed out keeps the progress mark in order and removes exactly one laggard |
| KeyRotation.EveryRunIsInOrder | tca/auth/key_rotation.py:66-294 | in every run with crashes and added accounts all accounts up to the mark are at the target |
| KeyRotation.VersionsNeverDecrease | tca/auth/key_rotation.py:211-219 | no account is lost and no version decreases in any run |
| KeyRotation.NothingPendingMeansDone | tca/auth/key_rotation.py:258-294 | once nothing is pending every account is at the target and completion succeeds |
| KeyRotation.RoundsFinish | tca/auth/key_rotation.py:170-294 | as many ask-and-mark rounds as there are laggards finish the rotation |
| KeyRotation.MarkAnyAccount | tca/auth/key_rotation.py:250-255 | a mark keeps the order exactly when all smaller accounts are at the target |
| KeyRotation.SkippedForever | tca/auth/key_rotation.py:170-294 | an account passed over by a mark is never handed out again, and the rotation never completes, in any run of the driver |
| KeyRotation.CompletionKeptExactly | tca/auth/key_rotation.py:258-294 | every step keeps a complete rotation free of laggards, except exactly the addition of a lagging account after completion |
| KeyRotation.CompletionCanBeTrusted | tca/auth/key_rotation.py:258-294 | after a run without such an addition the completion check answers true exactly if no account lags |
| KeyRotation.CompletionTrustedExactly | tca/auth/key_rotation.py:258-294 | at every point of a run a complete rotation is free of laggards exactly if the run has no such addition |
| KeyRotation.CompletionCanBeStale | tca/auth/key_rotation.py:263-264 | after completion a newly added lagging account is not noticed by the completion check |
| KeySalt.Base64RoundTrip | tca/auth/key_material.py:81-94 | decoding an encoded byte string gives it back |
| KeySalt.EncodesBits | tca/auth/key_material.py:81-94 | each group of digits carries the bits of its bytes, with padding for a short last group, as in section 4 of RFC 4648 |
| KeySalt.DigitsOfAlphabet | tca/auth/key_material.py:81-94 | the digits are those of the base64 alphabet of RFC 4648 |
| KeySalt.StepKeeps | tca/auth/key_material.py:49-78 | every read and queued create keeps one salt for all callers |
| KeySalt.SaltAgreement | tca/auth/key_material.py:49-94 | for any interleaving the row is written at most once, no caller misses it, and all returned salts are the stored sixteen bytes |
| AccountRisk.RiskStore.RecordBreach | tca/ingest/account_risk.py:70-134 | the filtered list, the pause and the notice after a breach |
| AccountRisk.WindowOfHistory | tca/ingest/account_risk.py:65-94 | what the stored list yields at a breach is the window of the full history |
| AccountRisk.BreachAgrees | tca/ingest/account_risk.py:96-132 | a breach pauses with one notice exactly when the full history says so |
| AccountRisk.SlidingWindowIsFullHistory | tca/ingest/account_risk.py:65-134 | after any events a breach pauses an unpaused account exactly with three breaches in the closed window since the last escalation; at most two are stored; one notice per pause |
| BotDelivery.Undelivered | tca/storage/bot_deliveries_repo.py:112-154 | only clusters without a delivery row |
| BotDelivery.OldestFirst | tca/storage/bot_deliveries_repo.py:147-148 | the batch is in id order and leaves out only younger clusters |
| BotDelivery.CoreLoop.Handle | tca/bot/delivery.py:93-155 | what one reply does to rows, counters, notices and the switch |
| BotDelivery.CoreLoop.RunOnce | tca/bot/delivery.py:60-157 | a run equals the fold over the batch that stops at an invalid token; it returns exactly the clusters newly recorded, in id order |
| BotDelivery.FailureAccounting | tca/bot/delivery.py:131-155 | with f failures in a row the counter is f mod 3 and the streak wrote f div 3 notices; a row needs a recorded send |
| BotDelivery.NotSentAgain | tca/storage/bot_deliveries_repo.py:134-138 | a delivered cluster is not attempted again, with any reply, while its row stays |
| BotDelivery.TokenInvalidEndsBatch | tca/bot/delivery.py:113-130 | an invalid-token reply ends the batch with that attempt and one notice and switches delivery off |
| BotDelivery.SilentUntilEnabled | tca/bot/delivery.py:62-66 | while switched off nothing is attempted, counted or noticed until enabled again |
| LoginFlow.AuthFlow.StartAuth | tca/api/routes/telegram_auth.py:204-218 | a sent code creates one code_sent row with a 900-second lifetime, and what is answered otherwise |
| LoginFlow.AuthFlow.GetSession | tca/auth/auth_session_state.py:122-141 | an unexpired row is returned, an expired one deleted, a missing one reported |
| LoginFlow.AuthFlow.UpdateStatus | tca/auth/auth_session_state.py:143-185 | the row is written first and deleted again when it has expired at that moment |
| LoginFlow.AuthFlow.PersistSession | tca/api/routes/telegram_auth.py:686-697 | the account row is committed first and keeps a stored session, then the new session replaces it; no session row changes |
| LoginFlow.AuthFlow.FinishLogin | tca/api/routes/telegram_auth.py:398-424 | the writes in order: the account session, then the row; a captured session behind an open lock is stored even if the row turns out expired, and success is exactly that with an unexpired row |
| LoginFlow.AuthFlow.VerifyCode | tca/api/routes/telegram_auth.py:227-329 | the writes and the answer; exactly when a code succeeds, the status reached, that a failure leaves the row as it was or gone, and exactly which account session is stored |
| LoginFlow.AuthFlow.VerifyPassword | tca/api/routes/telegram_auth.py:338-424 | the same for a password |
| LoginFlow.AuthFlow.Serve | tca/api/routes/telegram_auth.py:172-424 | a run of requests makes exactly the writes and gives exactly the answers of the specification, request by request, and keeps their order and the row invariant |
| LoginFlow.SucceedsExactly | tca/api/routes/telegram_auth.py:227-424 | exactly when a request succeeds and with which status; never when the row is expired at the final check; the missing-session error never arises |
| LoginFlow.StoresExactlyCaptured | tca/api/routes/telegram_auth.py:661-699 | an account session changes exactly by a captured session behind an open lock; account row and session are the first two commits, made even if the final check then fails; a success that authenticates has stored that session |
| LoginFlow.RowsAfterRequest | tca/api/routes/telegram_auth.py:227-424 | the row named ends up advanced, gone or as it was, and every other row is untouched |
| LoginFlow.EveryRunPersistsFirst | tca/api/routes/telegram_auth.py:308-325 | in every run and between any two writes rows hold the session strings their status demands, and a row becomes authenticated only by the write right after the one that stored a session for its phone |
| LoginFlow.RowsOnlyMoveForward | tca/auth/auth_session_state.py:143-185 | over any stretch of a run a row keeps phone and expiry and its status only moves forward, also for rows created in the run |
| LoginFlow.SuccessIsInTime | tca/auth/auth_session_state.py:77-141 | after any run a code or password only succeeds for a session that an earlier request started less than 900 seconds before both checks |
| Lifecycle.Application.StartAll | tca/api/app.py:276-280 | the dependencies started are those before the first startup hook that raises, and its failure is returned |
| Lifecycle.Application.StopBounded | tca/api/app.py:522-546 | a bounded stop records a failure, ignores an overrun, and lets a `TimeoutError` of the hook out |
| Lifecycle.Application.StopDependencies | tca/api/app.py:565-580 | exactly the started objects are stopped, in the given order, and every failure is recorded |
| Lifecycle.Application.ShutdownInOrder | tca/api/app.py:472-519 | the calls made and the error raised, for any set of failing hooks |
| Lifecycle.Application.Lifespan | tca/api/app.py:248-292 | all calls of a lifespan, what it raises, and that the state is cleared exactly if the shutdown raises nothing |
| Lifecycle.OrderlyExactly | tca/api/app.py:472-519 | with distinct dependencies shutdown is startup reversed, with the queue closed after the producers and the storage disposed last, exactly if no started bounded hook raises `TimeoutError` |
| Lifecycle.StoppedExactly | tca/api/app.py:481-484 | whatever objects are shared, a slot is stopped exactly if its object was started |
| Lifecycle.ClosedExactly | tca/api/app.py:499-516 | the queue is closed and the storage disposed exactly if present and no `TimeoutError` escapes |
| Lifecycle.RaisesFirstExactly | tca/api/app.py:518-519 | the first failure is raised, except exactly when the scheduler's `TimeoutError` escapes after a recorded failure of the bot |
| Lifecycle.RecordsInOrder | tca/api/app.py:472-519 | without an escaping `TimeoutError` the errors recorded, dependency by dependency in shutdown order, and that the first is raised |
| Lifecycle.TimeoutErrorSkipsTeardown | tca/api/app.py:530-541 | a lifespan whose shutdown stops at the bot hook |
| SchedulerTick.CoreLoop.SelectEligible | tca/scheduler/service.py:71-90 | the loop gives exactly the selected channels, ids strictly ascending |
| SchedulerTick.CoreLoop.RunOnce | tca/scheduler/service.py:63-69 | one new job row per selected channel, in ascending id order |
| SchedulerTick.BoundsAreSharp | tca/scheduler/service.py:102-124 | some draw makes a channel due exactly from the early bound on, every draw does exactly from the late bound on |
| SchedulerTick.SelectionBounds | tca/storage/channels_repo.py:413-435 | a selected channel is enabled, unpaused, on an unpaused account and past the early bound; one past the late bound is selected |
| SchedulerTick.SelectedExactly | tca/scheduler/service.py:71-124 | the whole selection condition in columns, for every draw |
| SchedulerTick.DefaultBounds | tca/scheduler/service.py:30-31 | with the default ratio the bounds are 0.8 and 1.2 of the interval after the last success |

## Left out

- Lifecycle.Application.Lifespan: cancellation from outside, and failures before the lifespan's try block (missing dependencies, configuration), after which nothing is called.
- SchedulerTick.CoreLoop.RunOnce: a failing job insert, and the background loop around the tick; rows are numbered by insertion.
- `canonicalize_url`, the dedupe strategies and their thresholds, embeddings and candidate selection: they rest on foreign libraries.
- Encryption, key derivation and memory wiping: foreign primitives.
- HTTP routing, page rendering, authentication cookies and bearer tokens, notifications' texts and audit payload texts.
- Retention settings lookup, and the deletion of expired ingest errors: an independent single DELETE.
- The random `cluster_key` of a cluster: an opaque label nothing else depends on.
- ClusterStore.Database.UpsertItem: the unique key on `raw_message_id` and the hash columns are not modelled, because no property depends on them.
- Ranking.Best: SQLite's LENGTH stops at a NUL character; the model counts all characters.
- Concurrent key rotators and overlapping login requests on one session: those methods read outside their write transaction.
- BotDelivery.FailureAccounting: one process lifetime, since the failure counters are kept in memory; an exception while writing a notice is not modelled.
- WriterQueue.StepKeeps: `task_done` accounting is not modelled, because nothing joins the queue.
- WriterQueue.RunHolds: the model admits steps between `Enter` or `Finish` and the next `Take` with a job queued, where the code does not suspend; its for-all results cover the runs of the code.
- HTML entity integrity under truncation: the code protects tags only.
- KeySalt.SaltAgreement: deletion of the settings row by other code is not modelled.

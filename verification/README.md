# DESTINY repository: a verified model

DESTINY keeps bibliographic references in Postgres, indexes them in Elasticsearch, stores files as
blobs, and hands enhancement work to robots that poll for it. This project models the parts of it
whose correctness spans many calls, and proves what they promise.

`dafny verify dfyconfig.toml` checks everything.

| module | what it models |
|---|---|
| `PendingEnhancements`, `Leases`, `LeaseInvariant`, `LeaseRuns`, `LeaseTerms`, `LeaseGuards`, `LeaseBatches`, `LeaseExpired`, `LeaseLive`, `LeaseRace`, `LeaseEffects`, `LeaseGrants`, `LeaseProgress` | the pending-enhancement lease protocol: a step system over the table, open transactions and their row locks, with any number of interleaved inserts, claims, renewals, expiries, guarded updates, commits and aborts |
| `Claims` | one claim as code: the select, the one-row-per-reference dictionary, the lease; repeated claims; the recursive retry-depth query |
| `Collection`, `CollectionProgress` | search-driven collection: claim, scan, prefetch and one insert per page, under crashes, redelivery and overlap; what one more delivery achieves |
| `Scan`, `SearchQueries` | point-in-time paging with `search_after`; query clauses and what they match |
| `Prefetch` | the one-ahead producer and consumer |
| `Supersession` | enhancement supersession chains: database constraints against the sorted chain query |
| `Skos` | concept-scheme membership by a depth-first search with one shared visited set |
| `Utf8`, `BlobText` | RFC 3629 UTF-8, the chunked line reader, the streaming writer |
| `Mojibake`, `MojibakeWalk`, `MojibakePaths` | repair of latin-1 misreadings, in a string and in place through a JSON tree, and by the path to each string |
| `Facets`, `CrossFacets` | facet and cross-facet counts against the searches they stand for |
| `Migration`, `MigrationWrites` | index migration with concurrent upserts; both indices against the upserts made |
| `Partitions`, `ImportDistribution`, `BlobUri` | partitioned index repair, resumable import, blob URIs |

## How to read the lease model

A state holds the committed rows, the open transactions and the batch ids handed out. A transaction
carries what it has locked and what it will write; nothing it writes is visible before its commit.
`SELECT .. FOR UPDATE SKIP LOCKED` chooses among unlocked rows only; plain updates wait for locks.

`bulk_update` first reads the statuses with a SELECT that takes no lock, checks each transition, and
then updates. The model keeps these as two steps, `Guard` and `Update`, so an expiry can commit
between them. Consequently the results come in two groups.

* True of every run: the batch id of a row is set once, a row expires at most once, an expired row is
  never claimed, renewed or expired again, no lease is cut short, a batch is for one robot and holds a
  reference once, no two open transactions hold one row, retry chains are linear and bounded, and no
  expiry loses work.
* True under a condition on what updates find, each with its exact condition over every run:
  * statuses follow the transition table exactly when every update that commits still found statuses
    it may change (`LeaseGuards.StatusesFollowExactly`, and step by step `StepFollowsExactly`);
  * no row leaves EXPIRED exactly when no update that commits found one of its rows expired
    (`LeaseExpired.ExpiredIsTerminalExactly`, and row by row `ExpiredRowStaysExactly`);
  * no row starts importing while a row of its batch is expired exactly when no update to IMPORTING
    that commits found one of its rows expired (`LeaseExpired.ExpiredBlocksTheBatchExactly`);
  * a request has at most one live row per reference exactly when every commit that brings an expired
    row back is careful (`LeaseLive.OneLiveExactly`);
  * replaced rows are expired exactly when no update that commits found a replaced row expired
    (`LeaseLive.ReplacedIsExpiredExactly`).

What the steps achieve is said beside what they keep. `LeaseEffects` says, over every run, exactly what each
committed insert, claim, renewal, update and expiry changes; `LeaseGrants` that a leased row's expiry is
the one its batch's last committed claim or renewal asked for; `LeaseProgress` that every run can go on to
claim a waiting row, to renew or finish a batch, to expire an overdue row and to create a new one.

In every run the rows of a batch start importing together. `LeaseRace` holds a complete run in which an
expiry overtakes a guarded update to IMPORTING: an expired row of the batch starts importing, and the
request ends with two live rows for one reference.

## Other properties that hold only under a condition

* The chain query is in link order for all rows exactly when writers keep the predecessor's effective
  root; the database constraints alone do not ensure it.
* Strings written through the file stream are read back unchanged exactly when none holds a newline.
* Mojibake repair is idempotent on a text exactly when it was not garbled twice.
* A blob URI survives parse and print exactly when it does not have one empty segment, and nothing
  else, between container and filename.
* Prefetch delivers every item before its end exactly when no item is itself an exception object. A
  run the caller does not close leaves it waiting for ever exactly when the source raises a
  cancellation of its own and no item is an exception object.
* After a migration a document never written through the new index is there in its final form exactly
  when the top-up did not fail on it or the first copy already had its final version; reindex failures
  are not looked at, and a run shows a document lost. The last write made through the new index stands
  exactly when the old index had not counted a higher version, or the top-up failed on the document.
* A search request that is COMPLETED always has some whole scan stored. FAILED does not mean the
  opposite: a single delivery can fail after its last page, and a single delivery that fails has its scan
  stored in full exactly when the pages it did not store hold only references that are also on pages it
  did. A failure can follow a completion only from another task that was running at that moment.
* A mapped reference is in the cross-facet matrix, whichever way equally frequent values are ordered,
  exactly when the rows bound to hold it cannot all be pushed out by rows at least as frequent. If that
  holds of every mapped reference the cells sum to at least the mapped total, and only then where
  references have one value per axis. 257 country codes make every response fall short.
* Rows without a request id are not deduplicated by the unique index.

## Model

| member | source | states |
|---|---|---|
| LeaseInvariant.CommitKeepsLinear | app/domain/references/services/enhancement_service.py:231-280 | committing any transaction keeps every row with at most one retry, because only a row still leased can gain one |
| LeaseInvariant.CommitKeepsOriginals | app/migrations/versions/9b2f1c4d7e83_add_pending_enhancement_request_reference_unique_index.py:46-52 | a commit keeps at most one original per non-null (request, reference), and keeps "has a batch" equal to "is no longer pending" |
| LeaseInvariant.CommitKeepsDepths | app/domain/references/services/enhancement_service.py:247-265 | a commit keeps every row within the retry limit of an original, and every expired row replaced or out of retries |
| LeaseInvariant.CommitKeepsOthers | app/domain/references/repository.py:1569-1593 | a commit leaves what every other open transaction has read and prepared valid, because their locks are disjoint |
| LeaseInvariant.ClaimGuardPasses | app/domain/references/service.py:1474-1480 | a claim's own status guard cannot fail: the rows it updates are locked and still pending |
| LeaseInvariant.ReplaceKeepsInv | app/domain/references/service.py:902-958 | expiring a set of rows and inserting their replacements, in one transaction, keeps the invariant |
| LeaseInvariant.StepKeepsInv | app/domain/references/repository.py:1440-1682 | every enabled step of every transaction keeps the whole protocol invariant |
| LeaseRuns.RunKeepsInv | app/domain/references/repository.py:1440-1682 | the invariant holds in every state of every run from the empty table |
| LeaseRuns.RunMovesOn | app/domain/references/models/models.py:1634-1644 | between any two moments of a run, rows are never deleted, keep their work, link, creation time and batch, only move forward in phase, and never become expired once out of their lease |
| LeaseRuns.BatchSetOnce | app/domain/references/service.py:1473-1480 | a row's committed batch id never changes in any run, so no two batches share a row |
| LeaseRuns.ExpiresOnlyOnce | app/domain/references/repository.py:1636-1682 | in no run does a row become expired at two different moments |
| LeaseRuns.ExpiredIsNeverLeasedAgain | app/domain/references/service.py:1502-1521 | after expiry a row keeps its batch and expiry for ever and is in no later claim's or expiry's selection |
| LeaseRuns.ClaimsAreExclusive | app/domain/references/repository.py:1569-1593 | in every reachable state open transactions hold disjoint rows and every committed batch holds each reference once |
| LeaseRuns.RetryChainsAreBounded | app/domain/references/service.py:902-958 | in every reachable state each row is a definite number of retries, at most the limit, from an original, and chains do not fork |
| LeaseRuns.ExpiryLosesNothing | app/domain/references/services/enhancement_service.py:247-278 | in every reachable state an expired row has a replacement for the same work unless it is at the retry limit |
| LeaseTerms.LeaseIsHonoured | app/domain/references/repository.py:1666-1682 | in every run a row expires only from PROCESSING and only after the expiry that it holds at that moment |
| LeaseTerms.BatchHasOneRobot | app/domain/references/repository.py:1580-1593 | in every reachable state all rows of a batch are for the same robot |
| LeaseTerms.StepKeepsFair | app/domain/references/service.py:1436-1521 | every step keeps both, because claims and expiries hold the locks of the rows they judged |
| LeaseGuards.StatusesFollowTheTable | app/domain/references/models/models.py:1634-1644 | every status change of a step is one the transition table allows, if the update it commits was not overtaken |
| LeaseGuards.StepFollowsExactly | app/domain/references/repository.py:1458-1471 | of every step of every run: all its status changes follow the table if and only if the update it commits still found only statuses that may move to its target or are there already |
| LeaseGuards.StatusesFollowExactly | app/domain/references/repository.py:1458-1471 | over every run, all committed status changes follow the transition table if and only if every committed update still found only statuses that may move to its target or are there already |
| LeaseGuards.UpdateDecides | app/domain/references/repository.py:1458-1471 | however long a transaction waits after its update, its commit will be legal if and only if the statuses were tolerable at the update, because the rows stay locked |
| LeaseBatches.BatchImportsTogether | app/domain/references/service.py:1128-1143 | in every run, overtaken or not, when one row of a batch starts importing every row of the batch is importing after the same commit |
| LeaseBatches.ImportingFindsAllLeased | app/domain/references/routes.py:1484-1498 | when a batch starts importing by an update that was not overtaken, every row of it is in PROCESSING at that commit |
| LeaseExpired.UpdateIsHeld | app/domain/references/repository.py:1458-1471 | however long a transaction waits after its update, at its commit it is still that update over the very rows the update found |
| LeaseExpired.ExpiredIsTerminalExactly | app/domain/references/models/models.py:1634-1644 | over every run, no row leaves EXPIRED before step k if and only if no update committed before step k found one of its rows expired |
| LeaseExpired.ExpiredRowStaysExactly | app/domain/references/models/models.py:1634-1644 | of every row in every run, once expired it stays so up to state k if and only if no update committed in between found it expired |
| LeaseExpired.ExpiredIsTerminal | app/domain/references/models/models.py:1634-1644 | an expired row stays expired as long as no committed update found one of its rows expired |
| LeaseExpired.CalmIsAwake | app/domain/references/repository.py:1458-1471 | in a run without overtaken updates no committed update ever finds a row expired |
| LeaseExpired.ExpiredBlocksTheBatchExactly | app/domain/references/routes.py:1484-1498 | over every run, before step k no row starts importing while a row of its batch is expired if and only if every update to IMPORTING committed before step k found none of its rows expired |
| LeaseExpired.ExpiredBlocksTheBatch | app/domain/references/service.py:1128-1143 | once a row of a batch has expired, no row of the batch starts importing as long as no committed update found one of its rows expired |
| LeaseExpired.ExpiredFailsTheGuard | app/domain/references/repository.py:1458-1471 | under the same condition, every later guard that covers an expired row ends its transaction with nothing written |
| LeaseLive.OneLiveExactly | app/domain/references/repository.py:1458-1471 | over every run, all states up to k have at most one non-expired row per non-null (request, reference) if and only if every commit before k is careful: each expired row it brings back has only expired other rows of its key, none of them brought back too |
| LeaseLive.CarefulKeepsOneLive | app/domain/references/service.py:902-958 | a careful commit, be it an insert, a claim, a renewal, an update or an expiry with replacements, keeps one live row per key |
| LeaseLive.OneLiveMeansCareful | app/domain/references/repository.py:1461-1471 | a commit after which every key has at most one live row was careful |
| LeaseLive.AtMostOneLive | app/domain/references/service.py:902-958 | as long as no committed update found one of its rows expired, every state has at most one non-expired row per non-null (request, reference) |
| LeaseLive.ReplacedIsExpiredExactly | app/domain/references/service.py:902-958 | over every run, every replaced row is expired in all states up to k if and only if no update committed before step k found a row expired that has been replaced |
| LeaseLive.InsertedKeyIsNew | app/domain/references/models/sql.py:1028-1037 | a key for which an original can be inserted has no rows at all, retries included |
| LeaseLive.SameDepthSameRow | app/domain/references/models/sql.py:1028-1037 | two rows of one (request, reference) at the same retry depth are the same row |
| LeaseLive.ShallowerIsExpired | app/domain/references/service.py:902-958 | where replaced rows are expired, of two rows of one (request, reference) the one at the smaller depth is expired |
| LeaseLive.EarlierAttemptsAreExpired | app/domain/references/service.py:902-958 | under that condition, of two rows of one (request, reference) the one with fewer retries behind it is expired |
| LeaseRace.OvertakenGuardBreaksOneLive | app/domain/references/repository.py:1461-1471 | a reachable state with two live rows for one (request, reference): the guard's SELECT takes no lock and an expiry commits before the update |
| LeaseRace.OvertakenGuardImportsExpired | app/domain/references/routes.py:1484-1498 | a complete run in which a row of a batch is expired and the next commit starts importing that very row |
| LeaseEffects.TxIsHeld | app/domain/references/repository.py:1569-1593 | from its last step on, a transaction and every row it has locked stay as they are, whatever the others do |
| LeaseEffects.LocksAreHeld | app/domain/references/repository.py:1580-1593 | in every run a transaction lets go of no row before it ends, so a claim holds also the rows it passes over |
| LeaseEffects.RenewTakesEffect | app/domain/references/service.py:1502-1521 | in every run a committed renewal gives each row that was PROCESSING in the batch when it was made the expiry asked for, and changes nothing else |
| LeaseEffects.ClaimTakesEffect | app/domain/references/service.py:1474-1480 | in every run a committed claim puts exactly the kept rows in PROCESSING, under its batch and with its expiry, and changes nothing else |
| LeaseEffects.UpdateTakesEffect | app/domain/references/repository.py:1458-1471 | in every run a committed guarded update gives exactly the rows asked for the status asked for |
| LeaseEffects.ExpiryTakesEffect | app/domain/references/service.py:902-958 | in every run a committed expiry marks exactly its rows and adds, for each one below the retry limit and for no other, one new waiting row for the same work that is linked to it |
| LeaseEffects.ExpiryMarks | app/domain/references/repository.py:1666-1682 | an expiry takes unlocked PROCESSING rows past their expiry, the earliest first, and all of them when the limit is not reached |
| LeaseEffects.ClaimPicks | app/domain/references/repository.py:1580-1593 | a claim takes unlocked, unbatched PENDING rows of its robot, the oldest first, and all of them when the limit is not reached |
| LeaseEffects.InsertExactly | app/domain/references/repository.py:1507-1566 | an insert adds the row asked for if and only if neither the table nor its own transaction holds an original of the same non-null request and reference |
| LeaseEffects.InsertTakesEffect | app/domain/references/repository.py:1507-1566 | in every run a committed insert adds exactly its rows and leaves the others as they are |
| LeaseEffects.NullRequestIsNeverBlocked | app/domain/references/models/sql.py:1028-1037 | a row without a request never waits for another transaction and is always inserted |
| LeaseGrants.LeaseChangeIsGrant | app/domain/references/service.py:1436-1521 | in every run, whatever changes a leased row is a committed claim or renewal of its batch |
| LeaseGrants.BatchIsClosed | app/domain/references/service.py:1474-1480 | the rows of a batch enter it together: nobody joins it later |
| LeaseGrants.LastGrantHolds | app/domain/references/service.py:1502-1521 | as long as a row is leased, its expiry is the one that the last committed claim or renewal of its batch asked for |
| LeaseGrants.LeaseLastsAsGranted | app/domain/references/repository.py:1666-1682 | when a row expires there is a last committed claim or renewal of its batch, and the clock is past the expiry it asked for |
| LeaseProgress.WaitingCanBeClaimed | app/domain/references/service.py:1436-1480 | every run can go on to lease any waiting row that nobody holds, under any new batch and until any later time |
| LeaseProgress.LeaseCanBeRenewed | app/domain/references/service.py:1502-1521 | every run can go on to renew any committed batch whose leased rows nobody holds, all of them and nothing else |
| LeaseProgress.RowsCanMove | app/domain/references/repository.py:1440-1471 | every run can go on to move any rows that nobody holds along the transition table, to IMPORTING as whole batches, and nothing else changes |
| LeaseProgress.BatchCanLive | app/domain/references/tasks.py:147-183 | every run can go on to take a leased batch that nobody holds through any sequence of statuses the table allows short of EXPIRED |
| LeaseProgress.OverdueCanExpire | app/domain/references/service.py:902-958 | every run can go on to expire any overdue row that nobody holds, with a replacement if it is below the retry limit |
| LeaseProgress.LeaseCanRunOut | app/domain/references/repository.py:1636-1682 | every run can go on to expire any leased row that nobody holds, with a replacement if it is below the retry limit |
| LeaseProgress.CanGiveUp | app/persistence/sql/uow.py:100-109 | an open transaction can always be given up, and leaves the rows and the other transactions as they are |
| LeaseProgress.OriginalCanBeCreated | app/domain/references/repository.py:1507-1566 | every run can go on to create an original whose key is neither taken nor being inserted, every other row kept |
| PendingEnhancements.HistoriesExactly | app/domain/references/models/models.py:1634-1644 | a sequence of statuses from PENDING is allowed by the table if and only if it begins one of six lives |
| PendingEnhancements.SettlingExactly | app/domain/references/tasks.py:147-183 | results ask for exactly the statuses a claimed row can reach other than by expiring |
| PendingEnhancements.DepthUnique | app/domain/references/repository.py:1596-1633 | the distance from a row to its original is unique, so chains are acyclic |
| Claims.DedupIsDistinct | app/domain/references/service.py:1465-1467 | the dictionary adapter leaves pairwise distinct references |
| Claims.DedupKeepsEarliest | app/domain/references/service.py:1459-1467 | every row it keeps is the first of its reference in the returned order |
| Claims.DedupCoversAll | app/domain/references/service.py:1459-1467 | no selected reference disappears |
| Claims.EarliestPerReference | app/domain/references/service.py:1465-1467 | the loop over the reversed list into an insertion-ordered dictionary computes that adapter |
| Claims.FindAvailable | app/domain/references/repository.py:1580-1593 | exactly the claimable rows, oldest first, cut at the limit |
| Claims.KeptIsOnePerReference | app/domain/references/service.py:1459-1467 | the kept ids hold exactly one row for each selected reference and are not empty unless the selection was |
| Claims.Pick | app/domain/references/service.py:1449-1467 | selection and adapter together: the oldest claimable rows up to the limit are picked, one row per reference is kept, no younger than the ones it stands for, and nothing is kept if and only if the limit is zero or nothing is claimable |
| Claims.PendingStore.Claim | app/domain/references/service.py:1436-1480 | one claim picks the oldest claimable rows, leases exactly the kept ones, the oldest of each reference, under a new batch and changes no other row; it returns nothing exactly when nothing is claimable or the limit is zero |
| Claims.PendingStore.Drain | app/domain/references/service.py:1449-1480 | with a limit of at least one and no new rows, repeated claims end with nothing claimable, in at most as many rounds as rows, each row leased once, no batch holding a reference twice |
| Claims.ClaimShrinks | app/domain/references/service.py:1459-1480 | a claim removes exactly the kept rows from the claimable ones; passed-over rows stay claimable |
| Claims.RetryDepths | app/domain/references/repository.py:1596-1633 | on every table with bounded chains the recursive query ends and maps each known id to its distance from its original |
| Collection.InsertPageEffect | app/domain/references/repository.py:1507-1566 | inserting a page keeps all rows, adds only rows for existing references of the page, keeps originals unique, and leaves every existing reference of the page present |
| Collection.InsertPageIsIdempotent | app/domain/references/service.py:766-791 | inserting a page whose references are already present changes nothing |
| Collection.NullRequestIsNotDeduplicated | app/domain/references/models/sql.py:1028-1037 | without a request id the same reference inserted twice gives two equal rows |
| Collection.OriginalStore.AddBulkIgnoreConflicts | app/domain/references/repository.py:1507-1566 | the in-place insert loop has the effect of the page insert and returns the number of rows added |
| Collection.StepKeepsInv | app/domain/references/service.py:823-883 | deliveries, prefetch moves, page inserts, completion, failure, crashes and other requests' inserts all keep the collection invariant |
| Collection.NeverTwoOriginals | app/domain/references/service.py:823-883 | in every state of every run of overlapping, crashing and redelivered tasks, no two originals share a (request, reference) |
| Collection.CompletedScanIsStored | app/domain/references/service.py:857-883 | when a task completes, every page of its scan has been inserted, and every reference on it that existed at its insert, so every one that existed when the task began, has exactly one original, then and ever after |
| Collection.CompletedTaskCoversSnapshot | app/domain/references/service.py:848-883 | when the pages are those of an unlimited scan of a snapshot, every hit of the snapshot is on some page, with the same guarantee |
| Collection.OverStaysOver | app/domain/references/repository.py:1094-1119 | a request that is COMPLETED or FAILED is one or the other in every later state: no redelivery reopens it |
| CollectionProgress.DeliverExactly | app/domain/references/repository.py:1094-1119 | in every run a delivery begins a new task with its whole scan ahead of it and sets SEARCHING if and only if the request is not over; otherwise it changes nothing |
| CollectionProgress.RedeliveryCompletes | app/domain/references/service.py:823-883 | whatever has crashed or overlapped before, every run whose request is not over can go on, with one more delivery of pages that finish, to COMPLETED with every existing reference of those pages stored once |
| CollectionProgress.CrashLosesTheTask | app/domain/references/service.py:823-883 | a crash takes away its task and nothing else |
| CollectionProgress.OthersAreStored | app/domain/references/repository.py:1507-1566 | what another request inserts in between is stored too and touches neither rows that were there nor any task |
| Collection.CompletedMeansStored | app/domain/references/models/models.py:98-99 | in every run, a COMPLETED request has a task that completed earlier and whose whole scan is stored: what existed when each page was inserted has exactly one original now |
| Collection.StatusIsTheLastVerdict | app/domain/references/services/enhancement_service.py:697-715 | the status is that of the latest completing or failing task |
| Collection.SecondVerdictNeedsOverlap | app/domain/references/services/enhancement_service.py:697-715 | a failure or completion after an earlier one is another task's, and that task was running when the earlier one was given |
| Collection.FailedScanIsStoredExactly | app/domain/references/service.py:872-878 | when a task fails, every reference of its scan that existed when it began is stored if and only if those on the pages it had not stored are |
| Collection.LoneFailureExactly | app/domain/references/service.py:872-878 | a single delivery that fails has every reference of its scan that existed when it began stored if and only if each of them on an unstored page is also on a stored one |
| Collection.FailedWithNothingMissing | app/domain/references/models/models.py:100-101 | a run of a single delivery whose source raises after its only page: the request is FAILED and its only reference has its original |
| Scan.TiebreakerMakesStrict | app/persistence/es/repository.py:429-458 | whatever sort is asked for, the keys actually used order all hits strictly |
| Scan.ScanRespectsSort | app/persistence/es/repository.py:429-458 | the hits come in the order asked for: the tiebreaker decides only among hits the asked keys tie |
| Scan.AskedKeysComeFirst | app/persistence/es/repository.py:429-458 | the keys asked for come first, unchanged, with `_shard_doc` added exactly when none of them names it |
| Scan.FirstKeyOrders | app/persistence/es/repository.py:429-458 | a scan sorted by one field, however it is spelled, goes up or down it as asked |
| Scan.AfterIsRest | app/persistence/es/repository.py:426 | under a strict order, searching after a hit returns exactly the hits that follow it |
| Scan.ScanPages | app/persistence/es/repository.py:377-427 | a size outside 1 to 10,000 or a negative limit, and nothing else, is rejected; otherwise pages are non-empty, full except the last, numbered from one, carry the snapshot total, and concatenate to the first min(limit, N) hits |
| Scan.ScanLoop | app/persistence/es/repository.py:398-427 | the paging loop ends and has that result for every page size, limit and order that resumes exactly |
| Scan.ScanTotalIsCount | app/persistence/es/repository.py:285-313 | the pages of a scan without a limit, scoring or not, hold together, and each announces, as many hits as the non-scoring count of the same query |
| Scan.TiesAreLost | app/persistence/es/repository.py:450-451 | without the tiebreaker paging can skip a hit |
| SearchQueries.ComposedMatches | app/persistence/es/repository.py:503-521 | scoring or not, with filters or without, the composed query matches exactly the query string and every filter |
| SearchQueries.ScoringKeepsHits | app/persistence/es/repository.py:503-521 | scoring and non-scoring forms hit the same documents |
| Prefetch.StepKeepsInv | app/utils/aio.py:13-55 | every move of producer, consumer, close and cleanup keeps the flow invariant |
| Prefetch.ItemsFlowInOrder | app/utils/aio.py:27-47 | in every interleaving, items yielded, then queued, then held are a prefix of the source in order, and exactly what was fetched while the stream is open |
| Prefetch.AtMostThreeAlive | app/utils/aio.py:17-21 | at most three items are alive and the source is at most two ahead of what was yielded |
| Prefetch.EndComesAfterEverything | app/utils/aio.py:27-47 | a normal end and a source error surface only as the source had them, and after all items if and only if no item is an exception object |
| Prefetch.OutcomeExactly | app/utils/aio.py:27-47 | a run that is not closed and that no side can continue ends waiting for ever, returned, with the source's error, or with an exception item, each if and only if the source says so, whatever the interleaving |
| Prefetch.SomeSideCanStep | app/utils/aio.py:27-47 | until the stream is over some side can step, unless the source raises a cancellation and no item is an exception object |
| Prefetch.CancelledSourceStrandsTheCaller | app/utils/aio.py:32-33 | a run in which that happens |
| Prefetch.CallerCanClose | app/utils/aio.py:49-55 | at any time before the end the caller can close; the source is then stopped and nothing more is yielded |
| Prefetch.NothingAfterTheEnd | app/utils/aio.py:40-55 | once the stream is over, for whatever reason, nothing more is yielded and the end does not change |
| Prefetch.RunsAreFinite | app/utils/aio.py:13-55 | every run is shorter than four moves per item plus a constant |
| Supersession.RootIsARoot | app/migrations/versions/69c1a291fb0a_add_enhancement_supersession_columns.py:25-30 | under the constraints and root agreement walking back ends at an existing row without predecessor, which is its own root |
| Supersession.MembersAreTheClass | app/domain/references/repository.py:953-969 | the query selects exactly the rows with the same effective root |
| Supersession.SameFromEveryMember | app/domain/references/repository.py:953-969 | whichever member is asked, the same rows are selected |
| Supersession.SortedIsLinked | app/domain/references/repository.py:980-1004 | the sorted answer is root first in link order and contains the row asked about, even when the root's id is the largest |
| Supersession.NotFoundExactly | app/domain/references/repository.py:1001-1003 | the answer is empty if and only if the enhancement does not exist |
| Supersession.OneHead | app/domain/references/repository.py:1007-1029 | a member is a head if and only if it is the last of the list, so the head query finds exactly one |
| Supersession.LinkOrderExactly | app/domain/references/models/sql.py:343-373 | under the database constraints, every answer is in link order if and only if every successor carries its predecessor's effective root |
| Supersession.ConstraintsAloneAreNotEnough | app/migrations/versions/4ce1b7909690_add_enhancement_supersedes_unique_index.py:26 | a table that meets every constraint and breaks root agreement |
| Skos.BuildMaps | app/external/vocabulary/client.py:218-234 | the two dictionaries hold exactly the declared memberships and broader links between URIs |
| Skos.SettledReachesAll | app/external/vocabulary/client.py:236-245 | when all visited concepts are settled, no path out of them reaches an uncollected scheme |
| Skos.SchemeSearch.SchemesFor | app/external/vocabulary/client.py:236-245 | the recursive search ends on every graph; it returns only schemes the concept belongs to and settles everything it newly visited, in any iteration order |
| Skos.SchemesOf | app/external/vocabulary/client.py:247-249 | a search with a fresh visited set returns a scheme if and only if a broader path through undeclared concepts reaches a concept that declares it |
| Skos.SchemeMembers | app/external/vocabulary/client.py:247-251 | a scheme lists a concept if and only if the concept belongs to it, and no listed scheme is empty |
| Skos.Siblings | app/external/vocabulary/client.py:200-207 | two concepts are siblings if and only if some scheme lists both |
| Skos.ConceptSchemeMembers | app/external/vocabulary/client.py:200-251 | from graph to siblings: reflexive on members, symmetric, and exactly belonging to a common scheme |
| Utf8.ReadEncoded | app/persistence/blob/stream.py:89-90 | reading an encoded character gives it back, whatever follows |
| Utf8.EncodedLength | app/persistence/blob/stream.py:89-90 | a character takes the number of bytes that section 3 of RFC 3629 gives for its range, and ASCII is itself |
| Utf8.EncodingKeepsOrder | app/persistence/blob/stream.py:89-90 | a smaller code point has the lexicographically smaller encoding, as section 1 of RFC 3629 says |
| Utf8.RoundTrip | app/utils/strings.py:36 | decoding bytes gives a text if and only if encoding that text gives the bytes |
| Utf8.IncompleteExactly | app/persistence/blob/client.py:85 | the decoder holds bytes back if and only if they properly begin some character |
| Utf8.FeedAppend | app/persistence/blob/client.py:82-85 | decoding in two pieces with the held-back bytes carried over is decoding at once, errors included |
| Utf8.FeedDecodes | app/persistence/blob/client.py:89 | the final check succeeds if and only if the bytes as a whole are valid |
| BlobText.LinesLoseNothing | app/persistence/blob/client.py:86-91 | the lines and the remainder, joined, are the text |
| BlobText.LinesOfUnlines | app/persistence/blob/client.py:86-91 | strings joined by newlines split back to themselves if and only if none holds a newline |
| BlobText.SplitAppend | app/persistence/blob/client.py:83-88 | splitting can be resumed from the remainder at any cut |
| BlobText.TakeLines | app/persistence/blob/client.py:86-88 | the inner loop moves out every complete line and leaves what follows the last newline |
| BlobText.StreamFile | app/persistence/blob/client.py:82-91 | for every cut into chunks the reader yields the lines of the whole decoded text; it fails if and only if the whole is not UTF-8, having yielded exactly the lines completed before the chunk that does not decode |
| BlobText.ToStrIsUnlines | app/persistence/blob/stream.py:67-78 | nested lists are written as their strings in order, one per line |
| BlobText.Stream | app/persistence/blob/stream.py:80-110 | the chunks written concatenate to the encoding of all lines; it fails if and only if some string cannot be encoded |
| BlobText.WrittenIsReadBack | app/persistence/blob/stream.py:67-110 | what was written is read back unchanged, empty strings included, if and only if no string holds a newline |
| Mojibake.RepairUndoesMisreading | app/utils/strings.py:31-38 | repairing the latin-1 misreading of any surrogate-free text gives the text |
| Mojibake.RepairChangesExactlyMisreadings | app/utils/strings.py:31-38 | a text is changed if and only if it is the misreading of a text beyond ASCII, and the result is that text |
| Mojibake.MisreadSigned | app/utils/regex.py:14-16 | the misreading of every text beyond ASCII carries the signature that triggers repair |
| Mojibake.RepairsUndoLayers | app/utils/strings.py:31-38 | n repairs undo n misreadings |
| Mojibake.IdempotentExactly | app/utils/strings.py:31-38 | repair is idempotent on a text if and only if it is not a misreading of a misreading |
| Mojibake.NotIdempotent | app/utils/strings.py:31-38 | a text on which it is not |
| MojibakeWalk.RepairSlot | app/utils/strings.py:46-58 | one slot is repaired in place and the rest of the container is untouched |
| MojibakeWalk.RepairText | app/utils/strings.py:47-49 | a string slot is repaired and nothing else in the container changes |
| MojibakeWalk.RepairChild | app/utils/strings.py:50-58 | a nested container is walked and nothing outside it changes |
| MojibakeWalk.Walk | app/utils/strings.py:41-58 | the in-place walk leaves the heap holding the pure map of the tree, whose strings `MojibakePaths.WalkByPaths` gives one by one |
| MojibakePaths.WalkByPaths | app/utils/strings.py:41-58 | at every path the walk keeps containers, atoms and strings as they are, except that it repairs a string if and only if the last dictionary on its path is left at a text key, or there is none and the walk was started under one |
| MojibakePaths.NoNewPaths | app/utils/strings.py:41-58 | the result has no path that the tree did not have |
| MojibakeWalk.RepairKeepsFootprint | app/utils/strings.py:41-58 | the pure map uses exactly the same containers |
| MojibakeWalk.RepairKeepsTree | app/utils/strings.py:41-58 | and keeps the tree unshared |
| Facets.QueryMeans | app/domain/references/repository.py:385-413 | the built query matches the documents whose title or abstract matches the text, whose year and annotations the filters ask for, and which carry a value of each facet filter, with one facet's filters kept or left out |
| Facets.AnnotationClauseMeans | app/domain/references/repository.py:365-383 | an annotation filter finds a document if and only if it has a number of at least the score under the scheme, `:` written `_`, with the label; without a score, the annotation itself; without a label, any annotation of the scheme |
| Facets.YearClausesMean | app/domain/references/repository.py:330-342 | a year filter finds a document if and only if its year is not before the start and not after the end, where given; with neither, every document |
| Facets.FacetSearchFinds | app/domain/references/repository.py:344-363 | a search for one value of a facet finds exactly the matching documents tagged with it in that facet's own field |
| Facets.GroupedCountMeans | app/domain/references/repository.py:595-633 | a grouped value's bucket is exactly what the same search matches with that group's selection replaced by the value |
| Facets.UnselectedCountMeans | app/domain/references/repository.py:635-663 | an unselected value's bucket is exactly what the search matches with the value added as a further filter |
| Facets.NoValueTwice | app/domain/references/repository.py:548-663 | with disjoint sibling sets no value is reported by two aggregations |
| Facets.EveryMatchingValueIsReported | app/domain/references/repository.py:548-663 | every value on a matching document is reported by some aggregation, with enumerated and with universal groups |
| Facets.UniversalGroups | app/domain/references/services/search_service.py:277-293 | more than one filter is refused; otherwise the groups mirror the filters and only the empty selection leaves anything unselected |
| Facets.ResolveGroups | app/domain/references/services/search_service.py:295-351 | grouping succeeds if and only if each filter lies in one known scheme membership and no two overlap; then groups mirror the filters and are disjoint |
| CrossFacets.InMapMeans | app/domain/references/repository.py:694-719 | a document is mapped if and only if the search matches it and it has a value on both axes |
| CrossFacets.SchemeAxisIsUntruncated | app/domain/references/services/search_service.py:234-239 | a scheme axis is never cut off by its bucket limit |
| CrossFacets.ResponseIsComplete | app/domain/references/repository.py:694-743 | untruncated, every non-empty cell is in the response |
| CrossFacets.CellsSumToAtLeastMapped | app/domain/references/routes.py:765-772 | with axes that are not cut off, the cells sum to at least the mapped total, and the mapped total is at most the search total |
| CrossFacets.ShownExactly | app/domain/references/repository.py:714-743 | with any bucket limits, each keeping the most frequent values and equal counts in any order, a document is in some cell of every possible response if and only if the rows bound to hold it cannot all be pushed out by rows at least as frequent |
| CrossFacets.SureSumSuffices | app/domain/references/routes.py:765-772 | with any bucket limits, if no mapped document can be missed the cells of every response sum to at least the mapped total |
| CrossFacets.SumAlwaysSufficesExactly | app/domain/references/routes.py:765-772 | where documents have one value per axis, the cells of every response sum to at least the mapped total if and only if no mapped document can be missed |
| CrossFacets.SumSufficesExactly | app/domain/references/routes.py:765-772 | where documents have one value per axis, the cells of a response sum to at least the mapped total if and only if every mapped document is in some cell |
| CrossFacets.TruncatedSumIsSmaller | app/domain/references/services/search_service.py:52-55 | with 257 country codes on the country axis of size 256, the cells of every response sum to less than the mapped total |
| CrossFacets.ResponseExists | app/domain/references/repository.py:677-743 | for every document set and pair of axes there is a response |
| CrossFacets.CellIsIntersection | app/domain/references/repository.py:677-743 | a cell is exactly what the search matches with both values added as filters |
| Migration.StepKeepsInv | app/persistence/es/index_manager.py:316-339 | every step of the migration, every failed copy and every upsert, resolved or landing at any time, keeps the migration invariant |
| Migration.AliasNamesOneIndex | app/persistence/es/index_manager.py:429-434 | at every moment the alias names exactly one index and it exists |
| Migration.NothingIsLeftBehind | app/persistence/es/index_manager.py:316-339 | when finished, every id of the old index that the top-up did not fail on is in the new one at no lower version, with the old index's final content, rewritten by the script, if it was never written through the new index |
| MigrationWrites.FlyingIsAsked | app/persistence/es/index_manager.py:429-434 | an upsert in flight is what was asked for, for the index the alias named when it was resolved |
| MigrationWrites.OldIndexHoldsLastWrite | app/persistence/es/index_manager.py:331 | at every moment of every run the old index holds the content of the last upsert resolved before the switch that landed before the write block, at the initial version plus the number of such upserts |
| MigrationWrites.UnwrittenIsInitial | app/persistence/es/index_manager.py:331 | and a document with no such upsert is as it was before the migration |
| MigrationWrites.ViaNewIsWritten | app/persistence/es/index_manager.py:429-434 | a document counts as written through the new index if and only if an upsert of it resolved after the switch has landed |
| MigrationWrites.LastWriteIsCarried | app/persistence/es/index_manager.py:316-339 | when finished, a document that the top-up did not fail on and nobody wrote through the new index holds there the content of the last upsert to the old one, rewritten by the script, at its version |
| MigrationWrites.InitialIsCarried | app/persistence/es/index_manager.py:316-339 | and a document nobody wrote to is there as it was before the migration, rewritten by the script |
| MigrationWrites.LastNewWriteDecides | app/persistence/es/index_manager.py:386-393 | when finished, a document written through the new index ends with the content of its last such upsert, unless the top-up did not fail on it and the old index had counted more versions; then it ends with the old index's |
| MigrationWrites.UpsertsAreTaken | app/persistence/es/index_manager.py:316-339 | at every moment an upsert can be resolved, and one in flight can land |
| MigrationWrites.MigrationCanFinish | app/persistence/es/index_manager.py:316-339 | every run can go on to the end of the migration without a further failure, whatever is in flight |
| Migration.CarriedExactly | app/persistence/es/index_manager.py:386-416 | when finished, a document never written through the new index is there in its final form if and only if the top-up did not fail on it or the first copy had brought over its final version |
| Migration.FailedCopyIsLost | app/persistence/es/index_manager.py:386-416 | a complete run in which both copies fail on a document and the alias ends on an index without it |
| Migration.NothingIsInvented | app/persistence/es/index_manager.py:386-393 | every document of the new index is from the old one or was written through the new one |
| Migration.BlockedIndexIsFrozen | app/persistence/es/index_manager.py:331 | from the write block on, the old index never changes again |
| Migration.LatestWriteSurvivesExactly | app/persistence/es/index_manager.py:386-393 | when finished, an id written through the new index holds its last such write if and only if the old index's final version is not higher or the top-up failed on it; otherwise it holds the old index's final content |
| Migration.LatestWriteCanLose | app/persistence/es/index_manager.py:328-337 | a complete run in which the latest write is replaced by an earlier one |
| Partitions.TileSize | app/persistence/sql/repository.py:616-621 | every tile is non-empty and holds at most the partition size |
| Partitions.RangeIsTile | app/persistence/sql/repository.py:587-593 | reading a range back by its inclusive bounds gives exactly its tile |
| Partitions.RangesAreOrdered | app/persistence/sql/repository.py:623-630 | ranges are ordered and pairwise disjoint |
| Partitions.RepairIndex | app/domain/references/tasks.py:303-318 | all chunks together re-index every id once and in order, none empty, none over the partition size, and no fewer chunks could hold them |
| ImportDistribution.Pass | app/domain/imports/service.py:309-327 | one pass queues exactly the non-blank lines not handled before, up to where its stream ended |
| ImportDistribution.Distribute | app/domain/imports/service.py:269-327 | over at most five attempts, retrying transport errors only, the queue is always the tasks of the lines reached, and success means all lines |
| ImportDistribution.TasksAreOrdered | app/domain/imports/service.py:310-327 | queued line numbers strictly increase and name the line they came from |
| ImportDistribution.TasksAreComplete | app/domain/imports/service.py:310-327 | a line number is queued if and only if it was reached and is not blank |
| BlobUri.PrintThenParse | app/persistence/blob/models.py:97-125 | parsing the printed URI of a file with slash-free container and filename, and any path, gives the file |
| BlobUri.ParsesExactly | app/persistence/blob/models.py:111-125 | a string is accepted if and only if it is a known scheme, `://`, a slash-free container, a slash and anything |
| BlobUri.ParseThenPrintExactly | app/persistence/blob/models.py:97-125 | printing a parsed URI gives it back if and only if it does not have exactly one, empty, segment between container and filename |
| BlobUri.EmptySegmentIsLost | app/persistence/blob/models.py:99 | `azure://c//f` is such a URI |
| BlobUri.JoinSplit | app/persistence/blob/models.py:111-123 | joining the split parts gives the string back |

## Left out

- LeaseLive.AtMostOneLive: under a condition, because the guard reads without a lock; the exact condition for every run is `LeaseLive.OneLiveExactly`.
- LeaseLive.EarlierAttemptsAreExpired: under a condition; that it is exact for replaced rows is `LeaseLive.ReplacedIsExpiredExactly`.
- LeaseGuards.StatusesFollowTheTable: under a condition, which `LeaseGuards.StepFollowsExactly` shows to be exact.
- LeaseBatches.ImportingFindsAllLeased: for an update that was not overtaken, because the guard reads without a lock.
- LeaseExpired.ExpiredIsTerminal: under a condition, which `LeaseExpired.ExpiredIsTerminalExactly` shows to be exact.
- LeaseExpired.ExpiredBlocksTheBatch: under a condition on all updates; the exact condition, on updates to IMPORTING alone, is `LeaseExpired.ExpiredBlocksTheBatchExactly`.
- LeaseExpired.ExpiredFailsTheGuard: under the condition that keeps the row expired.
- Claims.PendingStore.Drain: models one process while nobody else writes; concurrent claims are the business of `Leases`.
- Collection.CompletedScanIsStored: references are never deleted in the model.
- CrossFacets.CellsSumToAtLeastMapped: for axes whose values fit the bucket limit; for all limits see `CrossFacets.SureSumSuffices`, `CrossFacets.SumAlwaysSufficesExactly` and `CrossFacets.TruncatedSumIsSmaller`.
- CrossFacets.ShownExactly: a terms aggregation is taken to count over the whole index; the approximation of counts across shards is not modelled.
- Facets.UnselectedCountMeans: says what a reported bucket counts; which unselected buckets survive the bucket limit is not modelled.
- Migration.NothingIsLeftBehind: for documents the top-up did not fail on, because the code does not read a reindex task's failures; deletions through the alias are not modelled, and a copy reads each document's current version or misses it (no refresh delay that shows an older one).
- Partitions.RepairIndex: the division that gives the number of tiles is taken as exact rather than floating-point, and the table does not change between sampling and reading.
- ImportDistribution.Distribute: each attempt is assumed to serve the same file; what `strip` and the line iterator do to a line is a parameter.
- MojibakeWalk.Walk: the tree is unshared, as a JSON parser builds it.
- Scan.ScanPages: the snapshot is given in query order; Elasticsearch itself is not modelled.
- SearchQueries.ComposedMatches: how Lucene reads a query string is a parameter, and an absent field list is an empty one.
- Multi-row updates and renewals take all their row locks in one step; waiting for locks is a step that is not yet possible, and deadlocks are not modelled.
- Times, UUIDs, references, robots, requests and batches are integers; a new batch id is one never handed out before.
- Clocks of different transactions agree, and the lease expiry is any later time.
- Recording the number of search matches, and the error text of a failed request.
- The record of a robot batch itself, its blob files and signed URLs, and result categorisation.
- After retries run out the import log speaks of marking the batch as failed while its status stays RETRYING; import statuses are not modelled.
- Deletion of the old index, rollback, index settings and script validation around a migration.
- Duplicate decisions, relevance scoring, authentication, brokers, HTTP, gzip, telemetry, settings, routes, the command line, the client libraries and the user interface.

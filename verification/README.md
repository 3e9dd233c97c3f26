# A verified model of the scraping and publication service

The service collects content, stores it in PostgreSQL, and exports it to Notion. This project models
the parts of it whose correctness depends on whole histories, and proves what they promise. Each
module follows one source file or component.

| modules | what they model |
|---|---|
| `NotionPages`, `NotionWorkspace`, `NotionClient`, `NotionRuns` | Publication to Notion in two phases: a page is created under a pending label, filled in chunks of 100 blocks, and relabelled at the end. The remote data source is a value; every request may succeed, fail without effect, or fail after its effect; the process may die between any two exchanges. |
| `ExportProtocol`, `ExportLease`, `ExportStore`, `ExportOperations`, `ExportJournal`, `ExportWorker`, `ExportRuns` | The lease queue as a state machine whose steps are the SQL statements, the heartbeat that keeps a lease, the register of deliveries, the journal of joint states of queue and Notion, and one exporter worker on top of the queue and the Notion client. |
| `ConfigConflicts`, `ConfigFixpoint`, `ConfigDiff`, `ConfigReload` | Reloading scraper definitions: the bounded loop that settles duplicate ids and names, the diff, and the transactional refresh with debounce and rollback. |
| `TaskQueue`, `TaskScheduler`, `TaskSafety`, `TaskRuns`, `TaskStatistics`, `TaskManager` | The task manager: a heap with index back-pointers, the state machine of its locked regions, theorems about all runs and their counters, and the class that implements every step. |
| `ContentListing` | Listing stored contents page by page with a keyset cursor. |
| `MarkdownBlocks`, `MarkdownInline` | The Markdown converter: its block loop and its inline renderer. |
| `Changelog`, `ChangelogRelease` | The release-notes tool: parsing, printing and releasing. |
| `Common` | Options, results, and Go's string helpers. |

## What is proved

* In every state of every run of the Notion client, crashes and unclear failures included, a content
  id has at most one live final page and no live pending page beside it. Pages that were there at first
  are only ever archived while pending. Every other live page belongs to an item that the run was asked
  to store, is the only live page of its id, and under its final id holds exactly the blocks of the item.
  Whatever the client once reported as stored stays so, and a batch without faults reports everything
  with an id (`NotionRuns.AnyRun`, `NotionClient.Client.StoreContents`).
* A row of the export queue that is marked as synced has exactly one live page, and unless that page was
  there at first it holds exactly the blocks of the row's content, at every moment of any number of
  batches, lost leases, failed acknowledgements, crashes and restarts. The worker's log of moments goes
  by one exchange or one synced row at a time and leaves out no exchange, and the counters of every batch
  are explained by it (`ExportRuns.AnyLife`).
* A claim token resolves a row at most once, a token that lost its row never changes it again,
  attempts are bounded, and the two statements of `Fail` act as one (`ExportProtocol`). A delivery whose
  renewals are served in time keeps its row to itself (`ExportLease`). Without failing statements a
  claim is lost only to another token, and everything delivered is marked (`ExportWorker.Worker.RunBatch`).
* Duplicate resolution reaches its fixpoint within n + 1 passes (the program allows 2n + 2) and keeps
  the last good version of every file; a file that can be read and has no rival, or kept its id and name,
  is used exactly as read; a rejected update changes nothing; a diff is empty exactly when nothing
  changed (`ConfigFixpoint`, `ConfigReload`, `ConfigDiff`).
* Every task is counted in exactly one place, each counter is the number of tasks that ended so
  (`TaskStatistics.CountersAreExact`), a run starts at most one attempt and the allowed retries
  for each task it accepted from outside (`TaskRuns.ExecutionsAreBounded`), cancelled tasks stay
  cancelled, nothing starts after a stop, equal priorities start in submission order (`TaskRuns`), and
  the manager with its real heap takes exactly these steps (`TaskManager`).

Three properties turned out not to hold everywhere; each has its exact condition.

* Pagination is complete exactly for limits from one to below the largest integer, or when there is
  next to nothing to list: `opts.Limit + 1` wraps around (`ContentListing.PaginationIsComplete`, with
  two rows in `ContentListing.BadLimitsLoseRows`). The only caller keeps the limit in 1..50
  (internal/mcpapi/server.go:247-252), so its readers get everything.
* The converter's block loop ends exactly when none of its first turns, as many as there are lines,
  meets a line that only its trimmed form makes a block boundary. With ordinary white space these are
  headings and dividers indented by more than three characters; `    # x` keeps it busy for ever
  (`MarkdownBlocks.TerminationIsExact`, `MarkdownBlocks.StuckByIndentation`,
  `MarkdownBlocks.IndentedHeadingNeverEnds`). Texts of trimmed lines without carriage returns, as the
  fetchers produce, are always converted. The Markdown processor trims lines but lets carriage returns
  through, at which the converter splits once more, so one of its lines can hold the converter up as well
  (`MarkdownBlocks.TrimmedTextTerminates`,
  `MarkdownBlocks.ReturnNeverEnds`).
* A lease protects its row exactly when it is at least one second long, because the statements
  truncate it to whole seconds: under a shorter one another process can claim the row in the very
  moment of its renewal (`ExportLease.ShortLeaseProtectsNothing`, at 999 milliseconds in
  `ExportLease.ClaimedTwiceAtOnce`). The configuration yields only whole seconds, at least one
  (internal/config/env.go:108), so only other callers of the exporter's `NewManager` can meet this.

## Assumptions

Nobody but this program writes to the Notion data source, and one process does so at a time. An effect
of a request takes place before its error is returned, and 429 and 529 mean that nothing was done.
Each SQL statement is atomic, database time does not run backwards, and claim tokens are never drawn
twice. Task ids from outside are distinct and contain no `_retry_`. Hashes, digests and JSON encodings
are injective.

## Model

| member | source | states |
|---|---|---|
| NotionPages.FinalIsPublished | internal/exporter/notion/client.go:601-658 | in a safe data source a live final page is the only live page of its id and holds its whole block list |
| NotionPages.PublishedIsKept | internal/exporter/notion/client.go:601-658 | a published id stays published across anything that keeps live final pages and is safe |
| NotionPages.ArchivesAreSafe | internal/exporter/notion/client.go:550-588 | archiving pending pages leaves the source safe, publishes nothing and unpublishes nothing |
| NotionPages.GrownTransitive | internal/exporter/notion/client.go:181-329 | pieces of work compose: old pages stay as they are but for archived pending ones, and each new page holds a prefix or all of one of the items and is alone while it is live |
| NotionPages.GrownShows | internal/exporter/notion/client.go:601-658 | a published id has one live page, which is an old one or holds all blocks of one of the items under that id |
| NotionWorkspace.Workspace.Send | internal/exporter/notion/client.go:788-890 | one exchange: a success was carried out, 429 and 529 were not, any other failure may have been; each exchange adds one recorded state |
| NotionClient.Client.DoJson | internal/exporter/notion/client.go:788-890 | the same request is sent up to six times, again only after 429 or 529, or for a query after 500, 502, 503, 504 or a broken connection; a failed call sent it six times, lost a turn or a pause, or got an answer that may not be repeated; however often it is sent it takes effect at most once, and a success means exactly once |
| NotionClient.Client.CacheFinalContentId | internal/exporter/notion/client.go:338-348 | caching a final id keeps the cache sound and forgets the pending label |
| NotionClient.Client.ExistingContentIds | internal/exporter/notion/client.go:444-492 | the ids say nothing false of the data source; a complete scan misses no live page; unless a scan is forced, a cache younger than 300 seconds is returned as it is, without a request; nothing is changed remotely |
| NotionClient.Client.LookupContentPages | internal/exporter/notion/client.go:494-548 | a successful exact lookup returns all live pages of the id, told apart by label |
| NotionClient.Client.ReconcileExactContentPages | internal/exporter/notion/client.go:350-376 | success means that the id is published, or that nothing live carries it; only pending pages are archived |
| NotionClient.Client.ArchivePendingPages | internal/exporter/notion/client.go:550-588 | success means that no live page carries the pending label of the id, although archiving happens while the result pages are read |
| NotionClient.Client.StoreOne | internal/exporter/notion/client.go:601-658 | at every exchange the source is safe, older pages are untouched, and the only new page is made for this item; success means that the id is published; after a failure whose message names neither a failed creation nor a failed archiving nothing live carries the id |
| NotionClient.Client.AppendRemaining | internal/exporter/notion/client.go:601-658 | the chunks arrive in order: the page ends up with the whole block list, or the call fails and the page is archived unless the message says that this failed |
| NotionClient.Client.Settle | internal/exporter/notion/client.go:225-253 | the decision before storing: published already, or nothing pending left to collide with |
| NotionClient.Screen | internal/exporter/notion/client.go:189-211 | blank ids have failed, later repeats count as stored, everything else is kept once and in order |
| NotionClient.Client.SelectMissing | internal/exporter/notion/client.go:219-254 | what is marked is published; what is kept without an error has no live page and may be created |
| NotionClient.Client.StorePending | internal/exporter/notion/client.go:256-268 | every pending item ends up published and marked, or among the failures |
| NotionClient.Client.RetryFailures | internal/exporter/notion/client.go:270-320 | after the second round, too, a page that the call created and that is live is the only live page of its id, and marks are only added; without faults in this round only blank ids, or items whose error says so, are still unmarked |
| NotionClient.Client.StoreContents | internal/exporter/notion/client.go:181-329 | every recorded state is safe, keeps older pages, and has only new pages of items of the batch, each alone under its id; a result is true only for a published item or a repeat; without faults every item with an id is stored, and with a second round it suffices that this one has no faults, except for items that the first round refused for want of an id |
| NotionClient.Client.Deliver | internal/exporter/notion/client.go:32-41 | success means exactly one complete live page for the item; every new page at every step is made for it; without faults an item with an id succeeds |
| NotionRuns.Batch | internal/exporter/notion/client.go:137-329 | every state of the batch is safe with only new pages of its items; exactly the results that the client returned become an answer, earlier answers still hold, and without faults every item with an id is marked as stored |
| NotionRuns.AnyRun | internal/exporter/notion/client.go:137-329 | in every run of batches, crashes between exchanges and restarts, all states are safe and every new page holds an item that the run was asked to store; every reply is among the answers; what an answer reports stays published, on an old page or with all blocks of an item of that id; each batch without faults of its own is answered in full |
| ExportProtocol.StepKeepsInv | internal/storage/postgres_store.go:410-534 | every statement keeps the row invariants, the bounds on attempts and the exclusiveness of tokens |
| ExportProtocol.RunKeepsInv | internal/storage/postgres_store.go:410-534 | so does every interleaving of statements |
| ExportProtocol.AttemptsBounded | internal/storage/postgres_store.go:410-534 | attempts are 0 when pending, below the maximum until failed and equal to it when failed; a row is resolved at most the maximum number of times |
| ExportProtocol.ResolvesAtMostOnce | internal/storage/postgres_store.go:473-534 | no token resolves the same row twice |
| ExportProtocol.SupersededForever | internal/storage/postgres_store.go:457-534 | a token that does not hold a row never gets it back, and its statements change no row |
| ExportProtocol.DoneForever | internal/storage/postgres_store.go:410-534 | synced and failed rows never change again |
| ExportProtocol.StepIsLater | internal/storage/postgres_store.go:410-534 | every statement only adds resolutions, none under a token that lost its row, and a token that was superseded stays so |
| ExportProtocol.FailIsAtomic | internal/storage/postgres_store.go:494-534 | SELECT and UPDATE of a failure, with anything in between, amount to one indivisible fail-or-lose step |
| ExportProtocol.DueAgain | internal/storage/postgres_store.go:494-534 | a row that failed is due again exactly when attempts are left and one minute, doubled for each earlier failure and at most an hour, has passed |
| ExportProtocol.NextRetryDelay | internal/storage/postgres_store.go:617-630 | the doubling loop yields one minute times two to the power n - 1, at most an hour |
| ExportLease.RenewedIsDue | internal/storage/postgres_store.go:457-471 | a row is due again in the moment of its renewal if and only if the lease is shorter than a second |
| ExportLease.ShortLeaseProtectsNothing | internal/storage/postgres_store.go:410-471 | another process can claim the row at that moment if and only if the lease is shorter than a second |
| ExportLease.ClaimedTwiceAtOnce | internal/storage/postgres_store.go:410-471 | with 999 milliseconds two tokens claim the same row with no time in between |
| ExportLease.HeartbeatFits | internal/exporter/manager.go:425-459 | a delivery can get as far as its first heartbeat if and only if the lease is at least a second long |
| ExportLease.LeaseIsKept | internal/exporter/manager.go:425-459 | while renewals are served within the allowance after their ticks, the lease never runs out and the row stays with its token, whatever others do |
| ExportLease.NobodyElseClaims | internal/storage/postgres_store.go:410-455 | during such a delivery no claim can choose the row |
| ExportStore.Store.Execute | internal/storage/postgres_store.go:410-534 | a statement that fails may or may not have taken effect; one that succeeds has |
| ExportStore.Store.Claim | internal/storage/postgres_store.go:410-455 | the token is fresh; the row returned was due, no other due row of the exporter has an earlier next attempt, or the same one and a smaller content id, and the row is now held under that token for the whole seconds of the lease; no row means that nothing of the exporter is due |
| ExportStore.Store.FirstDueKey | internal/storage/postgres_store.go:410-455 | the row chosen is the first due one by next attempt and content id |
| ExportStore.Store.Renew | internal/storage/postgres_store.go:457-471 | true means that the lease of the held row now ends the whole seconds of the lease after now; the answer is whether the token held it, and nothing else changes |
| ExportStore.Store.Fail | internal/storage/postgres_store.go:494-534 | true means that the failure was counted once against a row the token held, in a state that others reached from that of the call, and is recorded under the token; false means that the token resolved nothing and had lost the row; after any success the token holds the row no longer |
| ExportStore.Store.Complete | internal/storage/postgres_store.go:473-492 | true means that the row is synced and that this is recorded under the token; the answer says whether the token held the row, even though a failed call may have marked it |
| ExportJournal.DeliveryIsRecorded | internal/exporter/manager.go:327-347 | each exchange of a delivery adds one moment to the log; at every one of them rows synced before stay backed by their pages, and pages that were not there at first hold what the exporter renders |
| ExportJournal.ChangeIsRecorded | internal/exporter/manager.go:347-389 | a change of the queue adds one moment at which at most one row, with its page in place, is newly synced |
| ExportWorker.Worker.BeginClaimOperation | internal/exporter/manager.go:399-423 | a delivery is registered under an id never used before unless the worker is stopping, which is one move of the register |
| ExportWorker.Worker.Heartbeats | internal/exporter/manager.go:425-459 | each successful renewal leaves the row leased for the whole lease; the claim is reported as lost only after a failed statement or when another token has it |
| ExportWorker.Worker.CompleteDelivered | internal/exporter/manager.go:347-366 | the row counts as synced exactly when the token held it and the statement did not fail; otherwise the claim is lost, and only for one of these reasons |
| ExportWorker.Worker.FailDelivered | internal/exporter/manager.go:367-389 | a row is counted as failed only when the failure was recorded under its token; a lost claim means a failed statement or a token that lost the row without resolving it; the synced rows stay the same |
| ExportWorker.Worker.DeliverClaimed | internal/exporter/manager.go:327-347 | every new page at every exchange is made for the claimed content with its blocks; success means that its one live page holds exactly them, unless it was there at first |
| ExportWorker.Worker.ProcessClaimed | internal/exporter/manager.go:297-391 | a row becomes synced only when its content is published, with its own blocks unless the page was there at first, including when the acknowledgement is lost; the claim is lost only if a statement failed or another token took the row from this one; unless it is lost it was renewed for the whole lease; a row is marked as failed only after a fault or for a blank id; a stop halts before the delivery |
| ExportWorker.Worker.RunBatch | internal/exporter/manager.go:274-397 | claimed = synced + failed + lost + (1 if halted), at most the batch size, each under a new token; all counters are the tally of the turns, with one error more if a claim failed; a turn counts as synced, failed or lost only if the queue says so, so that without failing statements a lost claim means that another token took its row; every exchange is logged and the log ends with the joint state; unless a claim failed the batch ends only when full, cancelled, halted, or nothing is due |
| ExportRuns.AnyLife | internal/exporter/manager.go:211-397 | through batches, stops, crashes at any moment and restarts, the log begins with the first joint state, moves by one exchange or one synced row, leaves out no exchange, and shows every synced row on exactly one live page, with exactly the blocks of its content unless that page was there at first; each event accounts for its part of the log |
| ExportRuns.RunOnce | internal/exporter/manager.go:134-174 | each counter is the sum over all targets, and the account still balances |
| ExportOperations.CountIsExact | internal/exporter/manager.go:399-423 | the wait group counts the registered operations and those that are leaving, in every interleaving |
| ExportOperations.QuietUntilStart | internal/exporter/manager.go:222-272 | after a stop was requested no delivery begins before the next start, and once the wait group is at zero none is in flight |
| ConfigConflicts.Group | internal/config/manager.go:495-503 | files are grouped exactly by their id or name |
| ConfigConflicts.FindOwner | internal/config/manager.go:521-539 | the owner is the only contender that held the value before; none if there are two or none |
| ConfigConflicts.ResolveDuplicates | internal/config/manager.go:495-552 | one pass is a function of its inputs, so Go's map order does not matter |
| ConfigFixpoint.DisplacementIsPermanent | internal/config/manager.go:541-549 | a displaced file leaves for good or is back at its accepted id and name for good |
| ConfigFixpoint.ChangesAreVisible | internal/config/manager.go:479-576 | a pass that changes anything changes the identity that the loop compares, and settles one more file |
| ConfigFixpoint.NobodyDisplaced | internal/config/manager.go:495-552 | where nobody is displaced ids and names are pairwise distinct |
| ConfigFixpoint.PassKeepsLastGood | internal/config/manager.go:495-552 | a pass never loses an accepted file and reports every file it does not use as read |
| ConfigFixpoint.ComplaintsStable | internal/config/manager.go:479-552 | passes after the fixpoint change neither the snapshot nor the errors, so both are those of the bound |
| ConfigFixpoint.ResolveDuplicateConflicts | internal/config/manager.go:479-493 | with unique accepted ids and names the loop ends within n + 1 passes, at the fixpoint, without duplicates; snapshot and errors are functions of the inputs |
| ConfigFixpoint.LeftAlone | internal/config/manager.go:479-552 | a file that shares its id and name with no other file, as read or as accepted, is never changed and gets no error |
| ConfigFixpoint.OwnerWins | internal/config/manager.go:521-552 | a file that has its accepted id and name keeps its contents through all passes without an error, whoever else wants them |
| ConfigFixpoint.ClaimantLoses | internal/config/manager.go:541-549 | a file that claims an id it did not have, against another one, is back at its accepted id and name, or out, from the first pass on |
| ConfigReload.LoadAll | internal/config/manager.go:424-475 | unchanged accepted files are reused, others are read; exactly the files that could not be read have an error |
| ConfigReload.BuildCandidate | internal/config/manager.go:424-477 | accepted files still present stay, every entry is freshly read or accepted, every file read but not used has an error; a file that was due and could be read is used as read without an error if it has no rival or kept its id and name; one that claims the id of another file is not used as read; candidate and errors are both functions of the inputs |
| ConfigReload.ConfigManager.Refresh | internal/config/manager.go:228-361 | the run invariant is kept; an applied refresh gives every file what it deserves (used as read, kept, or out with its error, as for the candidate); a poll applies only what an earlier poll noted at least the debounce time ago; after a scan it fails only because the callback refused or a configuration cannot be encoded, and then restores everything; the version changes exactly with the contents |
| ConfigReload.ConfigManager.PutInForce | internal/config/manager.go:309-347 | a refused callback restores every applied and pending field |
| ConfigReload.EnabledIsExact | internal/config/manager.go:636-645 | the callback sees exactly the enabled scrapers, in order |
| ConfigReload.Hashes | internal/config/manager.go:273-300 | equal hashes mean equal normalised contents, and different hashes a non-empty diff |
| ConfigDiff.NormalMeans | internal/config/manager.go:661-692 | the hashed form forgets the order of the keywords and the path of the file, and nothing else |
| ConfigDiff.SortedScrapers | internal/config/manager.go:647-659 | with unique ids the result is the one list sorted by ascending priority and then by id |
| ConfigDiff.SortedListIsUnique | internal/config/manager.go:647-659 | two sorted lists of the same scrapers are equal, so hash and diff do not depend on map order |
| ConfigDiff.FieldsMean | internal/config/manager.go:737-763 | the list of changed fields names exactly the parts that differ, and is empty exactly when the normalised forms agree |
| ConfigDiff.ChangedFields | internal/config/manager.go:737-763 | the loop yields that list |
| ConfigDiff.ComputeScrapersDiff | internal/config/manager.go:709-771 | added, removed and modified are exactly the ids only after, only before, and in both but different, each of these with exactly its changed fields |
| ConfigDiff.DiffIsExact | internal/config/manager.go:678-771 | for sorted lists with unique ids the diff is empty if and only if the hashed forms are equal |
| TaskQueue.RootIsFirst | internal/task/queue.go:15-20 | nothing in a heap goes before its root |
| TaskQueue.DownStep | internal/task/queue.go:15-26 | exchanging a hole with its first child leaves a heap but for the child's place |
| TaskQueue.SwapLast | internal/task/queue.go:22-26 | putting the last item in place of another leaves a heap but for that place |
| TaskQueue.PriorityQueue.Up | internal/task/queue.go:15-26 | sifting up restores the heap, keeps the items, and every item knows its position |
| TaskQueue.PriorityQueue.Down | internal/task/queue.go:15-26 | sifting down restores the heap or reports that nothing moved |
| TaskQueue.PriorityQueue.PushTask | internal/task/queue.go:43-45 | exactly one item more |
| TaskQueue.PriorityQueue.PopTask | internal/task/queue.go:47-49 | exactly one item less, and none of the others goes before it |
| TaskQueue.PriorityQueue.RemoveTask | internal/task/queue.go:51-59 | the item with the id is removed if there is one, found through its own index, and nothing else |
| TaskSafety.AdmitAllKeepsInv | internal/task/manager.go:290-354 | a batch that fits is admitted in full and keeps the invariant |
| TaskSafety.RetryIsTidy | internal/task/manager.go:610-618 | a scheduled retry is in one place and its parent is over |
| TaskSafety.StepKeepsInv | internal/task/manager.go:290-702 | every locked region keeps the invariant of all reachable states |
| TaskSafety.SeatsBound | internal/task/manager.go:502-530 | running tasks occupy workers of their own, so there are never more of them than workers |
| TaskRuns.RunIsSafe | internal/task/manager.go:112-702 | in every run the invariant holds, and executions so far with those still owed stay within one and the allowed retries for each task accepted from outside |
| TaskRuns.ExecutionsAreBounded | internal/task/manager.go:290-642 | the number of executions started in a run is at most that promise, added up over the submissions of the run |
| TaskRuns.StatisticsAddUp | internal/task/manager.go:290-702 | total = completed + failed + cancelled + queued + running; queue and workers are within their capacities; status and place agree; only running tasks are flagged |
| TaskStatistics.CountersAreExact | internal/task/manager.go:356-608 | in every run each of the counters completed, failed and cancelled is the number of tasks that ended with that status |
| TaskRuns.NoResultIsMissing | internal/task/manager.go:502-560 | the worker's skip branch and the missing-result branch of finish are never taken, even while old results are removed |
| TaskRuns.EqualPrioritiesStartInOrder | internal/task/manager.go:502-530 | tasks of equal priority start in submission order over every run |
| TaskRuns.CancelledForGood | internal/task/manager.go:356-379 | once Cancel returned true the task can only end as cancelled and is never retried |
| TaskRuns.TerminalForGood | internal/task/manager.go:532-608 | a terminal status is the last one |
| TaskRuns.StopIsFinal | internal/task/manager.go:452-500 | after Stop marked shutdown nothing is admitted or started and no retry is scheduled |
| TaskRuns.FailureSchedulesOneRetry | internal/task/manager.go:575-618 | a failed attempt with retries left schedules exactly one, with the same priority, one more in its count and an id never used before |
| TaskRuns.RetryIsNotLost | internal/task/manager.go:620-642 | a full queue delays a retry but does not lose it before shutdown |
| TaskRuns.BatchIsAllOrNothing | internal/task/manager.go:329-354 | either every task of the batch is queued, with consecutive sequence numbers in the order of the batch, and counted, or the state is as before |
| TaskManager.Manager.SubmitLocked | internal/task/manager.go:290-327 | a submission is refused exactly when stopping or full; otherwise the task waits in the queue with the next sequence number and is counted |
| TaskManager.Manager.SubmitBatch | internal/task/manager.go:329-354 | the checks before the loop suffice for every task of the batch |
| TaskManager.Manager.Cancel | internal/task/manager.go:356-379 | flags a running task, or takes a pending one out of the heap, ends it as cancelled and counts it; true exactly in these cases |
| TaskManager.Manager.StartNext | internal/task/manager.go:502-530 | a worker starts the task with the highest priority number, the earliest one among equals, exactly when the manager is not stopping and something is queued |
| TaskManager.Manager.Finish | internal/task/manager.go:532-608 | a flagged task ends as cancelled, another one as completed or failed; exactly that counter grows by one; a failure schedules the one retry if it is due |
| TaskManager.Manager.Fire | internal/task/manager.go:620-642 | a fired timer drops its retry when stopping, puts it back when the queue is full, and otherwise submits it |
| TaskManager.Manager.Stop | internal/task/manager.go:452-470 | stops the timers, empties the heap and ends each queued task as cancelled, counting it |
| TaskManager.Manager.Cleanup | internal/task/manager.go:644-674 | forgets exactly those of the given results that are over, unless the manager is stopping, and keeps the invariant |
| TaskManager.BestPrecedes | internal/task/queue.go:15-20 | the item popped from the heap precedes, by priority and then submission, every other queued task |
| ContentListing.ArrangedIsExact | internal/storage/postgres_store.go:609-613 | the listing order holds every row once, newest first |
| ContentListing.RestIsArranged | internal/storage/postgres_store.go:588-592 | what follows a row in the listing is the listing of the rows below its key |
| ContentListing.BuildListContentsQuery | internal/storage/postgres_store.go:567-615 | the numbered placeholders refer to the right arguments: the statement selects exactly the rows that pass the filters and the cursor |
| ContentListing.ListContents | internal/storage/postgres_store.go:335-365 | a page is the beginning of the listing, with a cursor where it was cut |
| ContentListing.CursorContinues | internal/storage/postgres_store.go:335-365 | a cursor is returned if and only if rows remain, and marks exactly these |
| ContentListing.PaginationIsComplete | internal/storage/postgres_store.go:335-365 | following the cursors lists every matching row once, by descending time and content id, if and only if the limit is between one and the largest integer less one or there is next to nothing to list |
| ContentListing.BadLimitsLoseRows | internal/storage/postgres_store.go:335-365 | of two rows the largest limit lists one and the limit zero none |
| MarkdownBlocks.StuckIsExact | internal/exporter/notion/converter.go:25-158 | a turn of the loop leaves the index unchanged if and only if only the trimmed line is a boundary |
| MarkdownBlocks.TerminationIsExact | internal/exporter/notion/converter.go:25-131 | the loop ends if and only if none of the first turns, as many as there are lines left, meets such a line |
| MarkdownBlocks.TrimmedTextTerminates | internal/fetcher/fetchers.go:556-566 | texts of trimmed lines without carriage returns are always converted |
| MarkdownBlocks.ReturnNeverEnds | internal/processor/markdown.go:50-55 | one trimmed line with a carriage return before a no-break space and a heading is two lines for the converter, and is never converted |
| MarkdownBlocks.StuckByIndentation | internal/exporter/notion/util.go:45-51 | with ordinary white space the loop is held up exactly by headings and dividers indented by more than three characters that neither a list nor a table claims |
| MarkdownBlocks.IndentedHeadingNeverEnds | internal/exporter/notion/converter.go:51-59 | a heading indented by four blanks is never got past |
| MarkdownBlocks.PatternsAgree | internal/exporter/notion/util.go:45-51 | list and quote patterns do not care about indentation, heading and divider patterns do |
| MarkdownBlocks.HeadingMeans | internal/exporter/notion/util.go:46 | at most three white characters, one to six hash signs, then white space |
| MarkdownBlocks.DividerMeans | internal/exporter/notion/util.go:45 | at most three white characters, then at least three asterisks, dashes or underscores, with only white space between and behind them |
| MarkdownBlocks.OrderedMeans | internal/exporter/notion/util.go:48 | white space, digits, a dot or a bracket, then white space |
| MarkdownBlocks.SeparatorMeans | internal/exporter/notion/util.go:51 | at least two cells between bars, each of three or more dashes with perhaps a colon at either end; bars at the ends are optional |
| MarkdownBlocks.KindMeans | internal/exporter/notion/converter.go:33-131 | a line begins the first kind of block whose pattern it meets: blank, fence, heading, divider, table, numbered or bulleted item, quote, else paragraph |
| MarkdownBlocks.TakesMeans | internal/exporter/notion/converter.go:60-158 | tables, items and quotes go on with lines of their pattern; a paragraph goes on until a line that is blank or, trimmed, looks like another block |
| MarkdownBlocks.GroupsAreExact | internal/exporter/notion/converter.go:25-131 | each line that is not blank is in exactly one block and blocks are in order; headings and dividers are one line; a code block ends just behind the first later line that begins with the same three backticks or tildes, or with the text; any other block has all the lines it can take |
| MarkdownBlocks.Convert | internal/exporter/notion/converter.go:25-131 | from the text on: both replacements of carriage returns, the check for blank texts, and where it ends, the loop produces these blocks |
| MarkdownInline.PiecesShowTheText | internal/exporter/notion/converter.go:399-425 | cutting a text loses nothing, no piece is empty or longer than 2000 characters, and there are as few as possible, all of the given style |
| MarkdownInline.SplitTextToRichText | internal/exporter/notion/converter.go:399-425 | the loop cuts like that |
| MarkdownInline.ChunksHoldEverything | internal/exporter/notion/converter.go:298-317 | the blocks hold all segments in order, each 1 to 100 of them, in the least number of blocks |
| MarkdownInline.MakeRichTextBlocks | internal/exporter/notion/converter.go:298-317 | the loop chunks like that |
| MarkdownInline.FirstReads | internal/exporter/notion/converter.go:319-383 | what is read off the front of a text, written out again with the rest, is the text, and something was read |
| MarkdownInline.RenderInline | internal/exporter/notion/converter.go:319-383 | loop and recursion end and produce the rendering |
| MarkdownInline.RenderedIsBounded | internal/exporter/notion/converter.go:319-383 | every segment has 1 to 2000 characters |
| MarkdownInline.ShownIsWithinText | internal/exporter/notion/converter.go:319-397 | what is shown consists of characters of the text in their order |
| MarkdownInline.StylesNest | internal/exporter/notion/converter.go:319-383 | whatever is nested in marked text carries its style, at any depth |
| MarkdownInline.MarksMean | internal/exporter/notion/converter.go:323-371 | text between two equal marks gets exactly the style of the mark, up to the first mark that closes it, and the rest keeps the outer style |
| MarkdownInline.CodeMeans | internal/exporter/notion/converter.go:342-350 | text between two backticks is shown as it is, in code style, and the rest keeps the outer style |
| MarkdownInline.LinkMeans | internal/exporter/notion/converter.go:351-361 | a caption in brackets with an address behind it is rendered like any text, with the address as link of all its segments if it is usable |
| MarkdownInline.PlainMeans | internal/exporter/notion/converter.go:372-379 | text up to the first special character keeps the style there is |
| MarkdownInline.OnlyMarksAreDropped | internal/exporter/notion/converter.go:319-383 | in a text without links nothing but emphasis and code marks is left out |
| Changelog.ParseSections | tools/changelog/main.go:228-271 | the line loop computes the parse, with the same errors |
| Changelog.AcceptedIsExact | tools/changelog/main.go:228-271 | a body is accepted exactly when each of its lines is blank, a known section heading, or inside a section and an entry or the continuation of one |
| Changelog.FeedRendered | tools/changelog/main.go:204-217 | feeding printed sections to the parser adds their entries, kind by kind |
| Changelog.RoundTrip | tools/changelog/main.go:204-271 | parsing printed sections gives the same entries in the same order |
| Changelog.SectionsInOrder | tools/changelog/main.go:204-217 | sections are printed in the order Added, Changed, Fixed, Removed, Security, those without entries left out |
| Changelog.ParsedIsWellFormed | tools/changelog/main.go:228-271 | every entry that the parser accepts has the form that survives printing |
| ChangelogRelease.BuildChangelog | tools/changelog/main.go:177-226 | the loops build the new text, or fail for the same reasons |
| ChangelogRelease.ReleaseSucceeds | tools/changelog/main.go:177-203 | a release goes through exactly when the version has no section of its own and there is a section for unreleased changes, with another one behind it, that can be parsed |
| ChangelogRelease.RestIsKept | tools/changelog/main.go:222-225 | text before the section is kept up to newlines at the seam, text after it exactly |
| ChangelogRelease.UnreleasedIsEmptied | tools/changelog/main.go:177-226 | after a release the section for unreleased changes is found and is empty |
| ChangelogRelease.RefusedAgain | tools/changelog/main.go:184-188 | the same version is refused the second time |
| ChangelogRelease.ReleaseIsComplete | tools/changelog/main.go:177-226 | below the new version's heading and up to the next one, the text parses to what was unreleased followed by the fragments, kind by kind |

## Left out

- Initialize, properties and formatting of Notion requests, HTTP transport, JSON bodies, rate limiting and retry delays: foreign calls and waiting; only their outcome is modelled.
- NotionClient.Client.StoreContents: always de-duplicates, as its only caller asks for; the other mode creates pages without looking.
- NotionClient.Client.StoreContents: a result that is true for a repeated id in one batch does not say that this item is published; the first item of that id may have failed.
- The pending label is a constructor of its own instead of a prefix with a hash; the cursor of a Notion query is a position in page order.
- ExportStore.Store.Claim: claims one row, which is the batch size the worker uses; the state machine allows any limit. Statements are serial, so SKIP LOCKED never passes over a due row that another claim has locked.
- ExportStore.Store.Others: other processes do everything to the rows of an exporter but report a delivery for it, since only one process writes to Notion, and they do not know the tokens of this one.
- SQL isolation: statements are serial, and registering a target or storing contents is the insertion of rows in one step; migration, NULL handling and the driver are not modelled.
- ExportWorker.Worker.DeliverClaimed: the heartbeat renews any number of times before and after the delivery instead of between its exchanges; when renewals happen is the subject of ExportLease alone.
- ExportWorker.Worker.Stop: does not wait; waiting for the loop goroutine, whose channel may already have been cleared, is not modelled.
- ExportRuns.AnyLife: the log of moments belongs to the specification; the program keeps none. What a crash cuts off never happened, so neither log nor recorded states contain it. The blocks of a row are a function of its content id, since stored contents never change (internal/storage/postgres_store.go:719-720) and conversion is a pure function.
- ExportRuns.RunOnce: takes the results of the batches as they arrive; that they run at the same time is covered by the steps of others in the queue.
- ConfigReload.ConfigManager.Refresh: file names, parsing and validation are a function from paths to results; error texts other than those of conflicts and size, version ids and change summaries are left out, and a diff is sets and a map instead of sorted lists.
- An error of a file that could not be read is not kept by a later refresh that reuses the accepted version; the program behaves so, and nothing else is claimed.
- TaskManager.Manager: result metadata, persistence, observers and the wait for workers in Stop are left out; worker goroutines are the steps that anyone may take.
- TaskManager.Manager.SubmitLocked: a task id that was used before is excluded by the assumption on ids, although the program would accept it and overwrite the earlier result.
- TaskManager.Manager.SubmitBatch: ids that repeat or were used before are excluded in the same way.
- TaskManager.Manager.StartNext: the worker is a ghost parameter, because goroutines have no names in the program.
- TaskManager.Manager.Cleanup: which results ended before the cutoff is chosen by the caller; times of results are not modelled.
- Task ids are external names or retries of other ids instead of strings with a suffix.
- ContentListing.ListContents: the database is the specification of its SELECT; collation of ids is by character.
- MarkdownBlocks.Convert: yields each block with its lines; heading levels, the text cut out of list items, the layout of tables and images and the language of code blocks are left out. Text is a sequence of characters, so cutting at bytes inside one is not modelled.
- Changelog.ParseSections: error messages do not quote the line.
- ChangelogRelease.ReleaseIsComplete: asks that entries do not end in white space other than blanks, tabs and carriage returns, which the parser would trim at the end of a section.
- Fetchers, HTML conversion, LLM processors, browser rendering, logging, metrics, the HTTP and MCP interfaces, environment parsing: plumbing or single-function checks that would only add easy members.

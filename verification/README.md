# Company feed server: verified models

Dafny models of the state that the company feed server keeps in PostgreSQL, and of the text and URL
algorithms around it, with proofs about every run of the state machines and every input of the
algorithms. `dafny verify dfyconfig.toml` checks everything.

## How it is built

Each part of the database is a state machine. A `State` holds the tables as finite maps, an `Event`
is one committed transaction with its choices as labels (which row a query picked, which id was
drawn), `Enabled` says which choices the code can make, and `Apply` gives the tables afterwards. A
class holds the same tables in its fields; its methods follow the code statement by statement, and
their postconditions say that they perform one enabled event, or none. The lemmas then range over
`Run`, the sequences of enabled events. The files named History say what every column of a table holds
in every reachable state, from the events alone.

| file | what it models |
|---|---|
| Jobs, JobRuns, JobHistory | the job queue with leases, tokens, retries and the expiry sweep |
| UrlIdentity, FeedItems, FeedItemRuns, ItemHistory, Quarantines | the SQL identity key, the feed-item upsert on three keys, hydration, quarantine and release |
| CrawlRuns, RawRows, CrawlHistory | crawl runs, their raw rows, quarantines, and the health of a source |
| ContentCrawl, ContentCrawlRuns, ContentHistory | content-crawl attempts and the state row of each item |
| Recipes, RecipeRuns, RecipeHistory | recipe versions, activation, retirement and health counters |
| RecipeTransactions | the two transactions that end a recipe, over recipes, jobs, items and raw rows |
| Offloader, OffloaderRuns | the payload offloader: one worker as code, and N workers with explicit row locks, failures and crashes |
| Ranking, Projections, Copies, Visibility | window functions, the list, count and export queries, which of several copies they show, and what the feed table keeps from them |
| Nesting, Sanitizer, SanitizerLaws, SanitizedMarkup | the nesting scanner, the tree sanitizer and its printer |
| PrintedNesting, GreatestDepth, ScannerLaws | the scanner on printed documents with scripts, styles, comments and doctypes, and on any tokens |
| Markdown | the Markdown normalizer |
| UrlPolicy, CanonicalUrls, PageFields | recognized query fields and canonical URLs |
| Candidates, CandidateLaws | the accumulator of discovered sources |
| Common | options, results, Rust's `trim`, UTF-8 |

## Assumptions

- A transaction is one atomic step, with the row locks and advisory locks that the code takes. The
  offloader is the exception: it uploads inside its transaction, so its locks are part of the state.
- The unique indexes and row constraints are those of `schema/postgres.sql` (lines 735-764, 797-829,
  487-493). Identifiers are natural numbers, and identifiers, tokens and object keys that the code
  draws at random are new.
- Times are integers and do not overflow; counters are unbounded unless a width is written out.
- Observations carry the metadata that normalization produces, which has neither the quarantine
  record nor the hydration mark (`FeedItemRuns.NormalizerMetadataIsClean`).
- The recipe passed to the completion of a run has the specification of its row; nothing updates that
  column.
- Text is ordered by code points.
- ASCII letters are the only ones that `lower()` and case-insensitive matching fold, and a date is
  taken in UTC.
- `url::Url` is not modelled: how a URL resolves, the source key of a discovered URL, and the lossy
  decoding of UTF-8 are function parameters. Idempotence of the sanitizer assumes that resolving a URL
  it has produced gives it back; canonical URLs assume that decoding leaves ASCII alone.
- A parsed HTML document is a tree. A byte is written as the character with its code.

## What turned out not to hold

- The offloader accepts a batch size of zero and a pool of no workers
  (bins/feed-payload-offloader/src/main.rs:226-227), and then reports the end of the work with every row
  unstamped: `OffloaderRuns.ZeroBatchExitsAtOnce`, `OffloaderRuns.ZeroWorkersStopAtOnce`. Completeness
  holds exactly in the other cases and for an empty table: `OffloaderRuns.CompleteExactlyWhen`.
- The counter of migrated rows misses the rows of a commit that took effect but was reported as failed,
  and of a worker that crashes between commit and count: `OffloaderRuns.FailedReportIsNotCounted`,
  `OffloaderRuns.CrashBeforeCountIsNotCounted`. It is exact otherwise, once nobody is between the two:
  `OffloaderRuns.CounterIsExactUnlessLost`.
- A worker whose connection is lost while it works shares its rows with another one
  (`OffloaderRuns.LostConnectionShares`); a stamp is final all the same (`OffloaderRuns.StampIsFinal`) and
  no payload is lost (`OffloaderRuns.NoPayloadIsLost`).
- The nesting scanner does not bound the depth of HTML with scripts or styles: for every n,
  `PrintedNesting.RawHtmlNestsDeeperThanScanned` gives a text of n nested elements that scans to one. Its
  depth is never too large; `PrintedNesting.DepthIsExactUnlessATagRepeats` says exactly when it is true
  throughout, and `GreatestDepth.GreatestDepthIsExactWhen` when its maximum is, which the guard compares.
- Nor does it bound the depth of HTML with opening tags that end in a slash, which HTML nests unless the
  element is void (crates/feed-content/src/lib.rs:174-178): for every n,
  `ScannerLaws.SlashedTagsAreNotCounted` gives a text of n nested elements that scans to zero. On any
  tokens that close no more than they open, `ScannerLaws.CountsExactlyWhen` says when its depth is true.
- A recipe retired for ownership has a correctness counter of at least three whatever its history
  (crates/feed-db/src/recipes.rs:938-944): `RecipeRuns.RetirementRunsAhead`. The counter is its streak in
  exactly the other cases: `RecipeRuns.CorrectnessCountIsTheStreakUnlessRetired`.
- The export ranks bodies of 200 characters or more before shorter ones and then the longer before the shorter
  (crates/feed-db/src/exports.rs:358-382); the first of the two has no effect:
  `Copies.LongBodyRankIsRedundant`.
- The guard of a cancellation does not look at the time of the lease: an expired token still passes it,
  but only until the next claim (`JobRuns.HolderIsTheLatestClaim`, `JobRuns.CancellationIsFenced`).

## Model

| member | source | states |
|---|---|---|
| Jobs.JobQueue.EnqueueJob | crates/feed-db/src/jobs.rs:94-160 | A valid spec inserts a pending row or coalesces with the one active row of its type and key; a spec that breaks a row constraint changes nothing |
| Jobs.JobQueue.SelectCandidate | crates/feed-db/src/jobs.rs:222-251 | Returns the first job of the claim order among the unlocked eligible ones, and nothing exactly when there is none |
| Jobs.JobQueue.LeaseCandidate | crates/feed-db/src/jobs.rs:252-300 | The chosen job is leased under the given token until now plus the lease, and owned from then on; nothing changes when nothing is claimable |
| Jobs.JobQueue.ClaimJob | crates/feed-db/src/jobs.rs:196-301 | Sweeps, then claims: the new table is the sweep followed by one enabled claim, or the sweep alone exactly when nothing is claimable; no types, no cap or a bad lease changes nothing |
| Jobs.JobQueue.HeartbeatJob | crates/feed-db/src/jobs.rs:303-330 | The owner gets a lease of the given seconds from now and the answer true; anyone else gets false and changes nothing; an invalid duration is an error |
| Jobs.JobQueue.CompleteJob | crates/feed-db/src/jobs.rs:332-362 | Finishes the job and answers true exactly for the owner |
| Jobs.JobQueue.RecordJobFailure | crates/feed-db/src/jobs.rs:364-447 | Retries no earlier than now while attempts are left and a retry is asked for, else fails for good; anyone but the owner gets a lost-lease error and changes nothing |
| Jobs.JobQueue.FailExhaustedExpiredJobs | crates/feed-db/src/jobs.rs:449-476 | Fails exactly the expired running jobs without attempts left, returns how many, and leaves none |
| Jobs.JobQueue.CancelPendingCrawls | crates/feed-db/src/recipes.rs:987-1008 | Cancels exactly the pending crawl jobs of one source |
| Jobs.DurationSeconds | crates/feed-db/src/jobs.rs:478-483 | A lease is a positive whole number of seconds that fits the database integer; anything else is an error |
| Jobs.TruncateError | crates/feed-db/src/jobs.rs:485-495 | Returns the longest prefix of the error of at most 16384 bytes that ends on a character boundary |
| JobRuns.QueueInvariant | crates/feed-db/src/jobs.rs:94-160 | In every reachable state: a token exactly when running, pending implies attempts left, attempts within the limit, one active job per type and key |
| JobRuns.InvPreserved | crates/feed-db/src/jobs.rs:94-476 | Every step keeps the queue invariant, including the unique active key and the uniqueness of tokens |
| JobRuns.TokenFence | crates/feed-db/src/jobs.rs:303-447 | In every run an operation by token takes effect only for the latest claim of the job while its lease is unexpired, and otherwise changes nothing |
| JobRuns.ClaimsGetFreshTokens | crates/feed-db/src/jobs.rs:252-300 | No two claims of a run share a token |
| JobRuns.OlderTokenRejected | crates/feed-db/src/jobs.rs:303-447 | After a later claim of the same job the older token never owns it and its operations change nothing, forever |
| JobRuns.OwnershipIsAnInterval | crates/feed-db/src/jobs.rs:196-447 | The states in which a token owns a job form one interval of the run |
| JobRuns.ClaimsDoNotOverlap | crates/feed-db/src/jobs.rs:196-301 | From a claim on, no earlier token ever owns that job again |
| JobRuns.OwnershipStaysLost | crates/feed-db/src/jobs.rs:303-447 | An issued token that does not own a job never owns it later |
| JobRuns.ClaimsAreBounded | crates/feed-db/src/jobs.rs:222-289 | A job is claimed exactly as often as its attempt count says, at most its maximum |
| JobRuns.MeasureDecreases | crates/feed-db/src/jobs.rs:196-476 | Every change of status or attempts spends some of a bounded measure, and a finished job never changes |
| JobRuns.ChangesAreBounded | crates/feed-db/src/jobs.rs:196-476 | Over any run a job changes status or attempts at most twice per allowed attempt |
| JobRuns.ActiveJobsAreNeverStuck | crates/feed-db/src/jobs.rs:222-251 | An active job whose time and lease have passed is either claimable or due for the sweep, never both and never neither |
| JobRuns.NewsNeverExceedsCap | crates/feed-db/src/jobs.rs:237-247 | If no claim allowed more than the cap, no state of the run has more company-news jobs in flight |
| JobRuns.EnqueueIsIdempotent | crates/feed-db/src/jobs.rs:94-160 | Enqueueing the same spec again chooses the same row and changes nothing; a running job is left as it is |
| JobRuns.HolderIsTheLatestClaim | crates/feed-db/src/crawling.rs:976-987 | In every reachable state the guard of a cancellation holds exactly for the token of the latest claim of a running job, expired or not; ownership is that guard and a live lease |
| JobRuns.CancellationIsFenced | crates/feed-db/src/crawling.rs:976-987 | After a later claim of the job an older token never passes the guard of a cancellation again |
| JobRuns.OwnershipIsTheLease | crates/feed-db/src/jobs.rs:303-330 | In every run a token owns a job exactly while the clock is before the end that its claim and its heartbeats in time have bought, second by second, whatever other workers do |
| JobHistory.JobsFollowHistory | crates/feed-db/src/jobs.rs:94-476 | In every reachable state every column of a job is a function of the events so far: content and creation from the first call, due time and priority from calls and retries, status, lease, error and finish from the last event that moved it |
| JobHistory.ClockFollowsTicks | crates/feed-db/src/jobs.rs:303-330 | The clock of a run shows its last tick and never goes back |
| JobHistory.EnqueueIsPossible | crates/feed-db/src/jobs.rs:94-160 | A job can be enqueued exactly if it is allowed an attempt and its key is not blank, and then onto the one active row of its type and key, else as any new row |
| JobHistory.ClaimTakesTheFirstWaiting | crates/feed-db/src/jobs.rs:222-251 | A claim takes an unlocked waiting job, and no other unlocked waiting job has a higher priority, or the same and was due or created earlier |
| JobHistory.NothingToClaim | crates/feed-db/src/jobs.rs:222-251 | Nothing can be claimed exactly if every waiting job is locked |
| UrlIdentity.FragmentIsIgnored | schema/postgres.sql:6-36 | The identity key ignores the fragment |
| UrlIdentity.SchemeAndWwwAreIgnored | schema/postgres.sql:6-36 | For every URL and in any letter case, http and https with or without www give one identity key, except exactly when the www is on one side only and another www follows it |
| UrlIdentity.TrailingSlashIsIgnored | schema/postgres.sql:6-36 | For every URL, with or without query and fragment, a slash at the end of the address does not matter, except exactly when the address is a scheme with a single slash |
| UrlIdentity.KeyOfAddress | schema/postgres.sql:6-36 | The key of a URL is its host in small letters, its path without the slashes at the end, and its query |
| UrlIdentity.LettersFold | schema/postgres.sql:6-36 | Folding replaces the 26 capital letters by the small ones and nothing else |
| FeedItems.FeedStore.FindExisting | crates/feed-db/src/crawling.rs:649-694 | Finds the best of the rows that share a key with the observation, and none exactly when none does |
| FeedItems.FeedStore.Upsert | crates/feed-db/src/crawling.rs:596-807 | Inserts exactly when no unique key conflicts, else merges into the best match; the table grows by exactly the inserted row; the unidentified-conflict error cannot occur |
| FeedItems.FeedStore.MergeRow | crates/feed-db/src/crawling.rs:695-807 | Computes the merged row: title, address, kind and documents of the observation, the body kept once hydrated, the quarantine lifted only where it may be |
| FeedItems.FeedStore.HydrateItem | crates/feed-db/src/content_crawling.rs:406-448 | Stores fetched content exactly on a public existing item, else reports it missing and changes nothing |
| FeedItemRuns.KeysStayUnique | crates/feed-db/src/crawling.rs:596-807 | Every event keeps the external id, the canonical URL and, among public rows, the address unique within a source |
| FeedItemRuns.ReachableKeysUnique | schema/postgres.sql:735-764 | Every run keeps all three keys unique |
| FeedItemRuns.UpsertOwnsEveryKey | crates/feed-db/src/crawling.rs:649-807 | After an upsert the observed external id and canonical URL belong to one row of the source each, and the chosen row shows the fetched URL |
| FeedItemRuns.ConflictHasAMatch | crates/feed-db/src/crawling.rs:649-694 | A conflict that stopped an insert always has a matching row |
| FeedItemRuns.ReapplyChangesNothing | crates/feed-db/src/crawling.rs:596-807 | Applying an item again at once chooses the same row and changes nothing |
| FeedItemRuns.PrivateExactlyWhenQuarantined | crates/feed-db/src/crawling.rs:277-297 | Over all runs an item is private exactly when it carries a quarantine record |
| FeedItemRuns.NonReleasableStaysPrivate | crates/feed-db/src/crawling.rs:1107-1129 | An item under a policy that does not allow release keeps its record and stays private through every later event |
| FeedItemRuns.OnlyAMergeReleases | crates/feed-db/src/crawling.rs:695-807 | Only a merge makes a private item public, only from a releasable record, and it drops the record |
| FeedItemRuns.RuntimeQuarantineIsReleasable | crates/feed-db/src/crawling.rs:1131-1150 | Of the run-time quarantines exactly the company-scope one can never be lifted |
| FeedItemRuns.BodyHasOneOrigin | crates/feed-db/src/crawling.rs:734-784 | Text, HTML, Markdown and hash of an item always come from one observation: its latest non-blank hydration, else its last crawl before any hydration |
| FeedItemRuns.CrawlsKeepHydratedBody | crates/feed-db/src/crawling.rs:734-784 | Once hydrated, no crawl, quarantine, release or retirement changes the body, the hash or the mark |
| ItemHistory.CrawlsGiveTheColumns | crates/feed-db/src/crawling.rs:695-807 | In every reachable state title, address, kind, source, raw row and raw and normalized documents of an item are those of its latest crawl, and it was created by its first |
| ItemHistory.TextFollowsHydrations | crates/feed-db/src/crawling.rs:734-784 | The summary and fetch time are those of the latest crawl until the first hydration, then of the hydrations; the date is that of the latest crawl or of the first hydration since that has one |
| ItemHistory.MetadataFollowsHistory | crates/feed-db/src/content_crawling.rs:406-448 | The metadata holds the mark of the latest hydration, the record of the event that last hid the item while it is private, and else the latest values since the latest crawl |
| ItemHistory.PrivacyFollowsHistory | crates/feed-db/src/crawling.rs:277-297 | In every reachable state an item is private exactly if an event hid it and no merge has released it since |
| Quarantines.ReleasesExactlyWhen | crates/feed-db/src/crawling.rs:1107-1129 | A policy allows release exactly if it is a numbered version of three of them or one of three others |
| Quarantines.ReleasedExactlyWhen | crates/feed-db/src/crawling.rs:1107-1129 | A merge releases an item exactly if it is private under a record with such a policy and a reason |
| Quarantines.RuntimeReasonsAre | crates/feed-db/src/crawling.rs:1131-1150 | The ten reasons for which a crawl quarantines an item, and the policy of each |
| Quarantines.RecordSays | crates/feed-db/src/crawling.rs:266-276 | The fields of a quarantine record: state, reason, policy, reversibility, and the details under other names |
| Quarantines.ArtifactRecordSays | crates/feed-db/src/crawling.rs:261-276 | A run-time record has the policy of its reason, can be reversed, and keeps the date of the item and the URL that named it |
| Quarantines.QualityRecordSays | crates/feed-db/src/crawling.rs:413-421 | A quality record has what its entry says, the date of the item and the time |
| Quarantines.CandidatesAre | crates/feed-db/src/crawling.rs:196-205 | The last final failure at a URL for a quarantinable reason decides on the reason |
| Quarantines.HitExactlyWhen | crates/feed-db/src/crawling.rs:220-246 | A failure hits exactly the public items of the source with its address as canonical URL, URL or external id |
| Quarantines.CauseSays | crates/feed-db/src/crawling.rs:220-246 | The record of a hit item names the least of the URLs with its address, and the reason of that URL |
| Quarantines.NamedExactlyWhen | crates/feed-db/src/crawling.rs:353-359 | Entries are rejected exactly if one has a blank reason or policy |
| Quarantines.LessAtFirstDifference | crates/feed-db/src/crawling.rs:220-246 | Text is ordered by its first difference |
| Quarantines.EntriesAreTheFirst | crates/feed-db/src/crawling.rs:352-363 | The first entry for an item counts |
| Quarantines.LookupPrefers | crates/feed-db/src/crawling.rs:649-694 | The row found shares a key with the observation; rows at its shown address go first, then its canonical URL, then its external id, then the oldest |
| Quarantines.InsertsExactlyWhen | schema/postgres.sql:735-764 | An observation conflicts exactly with rows of its source with its external id, its canonical URL or its shown address |
| Quarantines.BlankExactlyWhen | crates/feed-db/src/content_crawling.rs:406-448 | A fetched text counts as blank exactly if it has nothing but spaces |
| Quarantines.UniqueExactlyWhen | schema/postgres.sql:735-764 | The three unique indexes of the feed table: rows of one source differ in external id, canonical URL and, where both are shown, address |
| Quarantines.MergeTakesKeys | crates/feed-db/src/crawling.rs:695-733 | A merge takes over external id and canonical URL unless another row of the source has them |
| CrawlRuns.CrawlStore.BeginCrawlRun | crates/feed-db/src/crawling.rs:119-187 | Cancels the running crawl runs and recipe runs of the job and opens a new crawl run |
| CrawlRuns.CrawlStore.PersistEntry | crates/feed-db/src/crawling.rs:546-845 | A rejected entry changes only its raw row; a normalized one performs one enabled upsert and settles its raw row |
| CrawlRuns.CrawlStore.PersistItems | crates/feed-db/src/crawling.rs:546-845 | The table after the loop is that of the run of upserts, one for each normalized entry; normalized and failed add up; new items are table growth |
| CrawlRuns.CrawlStore.CompleteCrawlRun | crates/feed-db/src/crawling.rs:517-956 | Commits exactly for a running run and a list that fits i32, else leaves every table alone; the counters returned and stored are exact |
| CrawlRuns.CrawlStore.RecordSuccess | crates/feed-db/src/crawling.rs:877-935 | Resets the failure count and backoff and counts empty runs |
| CrawlRuns.CrawlStore.FailCrawlRun | crates/feed-db/src/crawling.rs:1029-1104 | Fails exactly a running run, with one more failure and a new backoff; otherwise changes nothing |
| CrawlRuns.CrawlStore.CancelRunningForJob | crates/feed-db/src/crawling.rs:958-1027 | Cancels the running crawl runs and recipe runs of a job and counts both, exactly for the current token of the running job |
| CrawlRuns.CrawlStore.QuarantineArtifactFailures | crates/feed-db/src/crawling.rs:189-346 | Hides exactly the public items of the source that a quarantinable failure names, each under the record of the first URL that names it, in the order of their ids, sets their raw rows aside with its text, and counts them |
| CrawlRuns.CrawlStore.QuarantineForQuality | crates/feed-db/src/crawling.rs:348-492 | Hides exactly the listed public items with the first entry for each and sets their raw rows aside, counts them, and rejects blank reasons or policies without a change |
| CrawlRuns.CrawlStore.RetireItems | crates/feed-db/src/recipes.rs:1037-1080 | Hides every public item of a source under the ownership record and sets aside exactly the raw rows they came from |
| CrawlRuns.ReachableInv | crates/feed-db/src/crawling.rs:119-187 | In every reachable state a job has at most one running run, finish times fit the status and the item keys are unique |
| CrawlRuns.StaleWriterIsExcluded | crates/feed-db/src/crawling.rs:517-956 | Once a newer run of the job has begun, no completion or failure of an older run changes items, raw rows, counters or health |
| CrawlRuns.ReportsOnce | crates/feed-db/src/crawling.rs:1029-1104 | At most one completion or failure of a run takes effect |
| CrawlRuns.FinishedStaysFinished | crates/feed-db/src/crawling.rs:517-1104 | A finished run never changes again |
| CrawlRuns.CommittedCountsAreExact | crates/feed-db/src/crawling.rs:853-870 | A committed run counts its entries, its new items equal table growth, and no item is removed |
| RawRows.RawRowsAreSettled | crates/feed-db/src/crawling.rs:546-845 | In every reachable state the raw rows are those of the keys that a completed run committed, none is pending; each shows the outcome of the last entry with its key and how many there were, unless it is skipped with the text of the last quarantine or retirement of an item from it; the item it names exists |
| RawRows.RawInvStep | crates/feed-db/src/crawling.rs:546-845 | Every event keeps raw rows with completed runs, and the raw row of every item in the table |
| CrawlRuns.HealthMatchesReports | crates/feed-db/src/crawling.rs:877-935 | Failure streak, empty streak, totals and successes of a source are those of the reports that took effect |
| CrawlRuns.BackoffDoubles | crates/feed-db/src/crawling.rs:1056-1090 | The n-th failure in a row backs off for the smaller of an hour and 120 seconds times two to the n minus one |
| CrawlHistory.RunsFollowHistory | crates/feed-db/src/crawling.rs:119-187 | In every reachable state a crawl run is as it was begun, and as the first event left it that could end it: its report, a newer run of the job, or a cancellation by the holder of the token |
| CrawlHistory.HealthFollowsHistory | crates/feed-db/src/crawling.rs:877-935 | The times of last attempt, success and success with entries, the error and the cursor of a source are those of the reports by running runs |
| CrawlHistory.KindFollowsSuccess | crates/feed-db/src/crawling.rs:534-543 | The kind of a source is the one that its last successful crawl found |
| CrawlHistory.TraceIsTheEntries | crates/feed-db/src/crawling.rs:546-845 | A completion upserts exactly its normalized entries, each once and in order, from the raw row of its key |
| CrawlHistory.ItemsFollowTheFeed | crates/feed-db/src/crawling.rs:517-956 | The feed table of every crawl run is that of the run of those upserts and of the events that are no crawl |
| CrawlHistory.RawRowsNameTheirItems | crates/feed-db/src/crawling.rs:786-845 | In every reachable state a raw row names the item of the last upsert from it, and none once it was set aside |
| CrawlHistory.SkipsExactlyWhen | crates/feed-db/src/crawling.rs:299-322 | An event sets a raw row aside exactly if it hides an item that names it |
| CrawlHistory.SkipTexts | crates/feed-db/src/crawling.rs:299-322 | The text on a raw row that was set aside names reason and policy of a quarantine, and the reason of a retirement |
| ContentCrawl.ContentStore.PickCandidates | crates/feed-db/src/content_crawling.rs:202-267 | Picks the first unlocked due items in order of urgency, time and id, all of them when they fit |
| ContentCrawl.ContentStore.BeginContentCrawlBatch | crates/feed-db/src/content_crawling.rs:149-342 | Closes what an earlier attempt left running and claims the batch in both tables, or, on a negative limit or a URL that does not parse, changes nothing |
| ContentCrawl.ContentStore.CompleteSuccess | crates/feed-db/src/content_crawling.rs:344-480 | Stores content exactly for a running attempt of a public item, when the refresh span is representable and the text not too long; every error rolls back and the missing-state branch is unreachable |
| ContentCrawl.ContentStore.CompleteFailure | crates/feed-db/src/content_crawling.rs:482-550 | Records the failure exactly for a running attempt; the missing-state branch is unreachable |
| ContentCrawl.ContentStore.CancelForJob | crates/feed-db/src/content_crawling.rs:552-611 | Closes the running attempts of a job in both tables and counts them, exactly for the current token of the running job |
| ContentCrawlRuns.TwoTablesAgree | crates/feed-db/src/content_crawling.rs:149-611 | In every reachable state an item has at most one running attempt, has one exactly when its state row says so, and its count is the number of its attempts |
| ContentCrawlRuns.InvPreserved | crates/feed-db/src/content_crawling.rs:149-611 | Every event keeps the two tables in agreement |
| ContentCrawlRuns.ClosedStaysClosed | crates/feed-db/src/content_crawling.rs:344-611 | A closed attempt never changes again |
| ContentCrawlRuns.LateCompletionIsExcluded | crates/feed-db/src/content_crawling.rs:344-550 | After a batch of the same job, reports on its earlier attempts change nothing |
| ContentCrawlRuns.PermanentFailureIsFinal | crates/feed-db/src/content_crawling.rs:482-550 | An item that failed permanently keeps its state row through every run |
| ContentCrawlRuns.BatchTakesOnlyDueItems | crates/feed-db/src/content_crawling.rs:202-267 | A batch takes at most its limit of ready items, in their order, and leaves each running; ready is a public unlocked item of an open source, not of the future, that was never attempted, is due again, was last fetched before the refresh time, or was left running at this job |
| ContentCrawlRuns.BatchTakesEveryDueItem | crates/feed-db/src/content_crawling.rs:202-267 | A ready item is left out only by a full batch of items that all go before it |
| ContentHistory.AttemptsFollowHistory | crates/feed-db/src/content_crawling.rs:268-302 | In every reachable state the attempts are those that a batch opened, each as it was opened until the first event that could end it, and as that event left it |
| ContentHistory.StateRowsFollowHistory | crates/feed-db/src/content_crawling.rs:303-342 | The row of an item counts its claims and, since the last fetch, its failures and cancellations, holds time and size of that fetch, and is due as the last event left it that claimed it or ended an attempt |
| ContentHistory.ItemsFollowTheFeed | crates/feed-db/src/content_crawling.rs:406-448 | The feed table of every run is that of the run of hydrations by completions of running attempts at public items, and of the events of others |
| Recipes.RecipeStore.MaxVersion | crates/feed-db/src/recipes.rs:646-652 | Finds the largest version of a key, zero if there is none |
| Recipes.RecipeStore.ActivateRecipe | crates/feed-db/src/recipes.rs:593-786 | Keeps the active recipe with the same content or inserts the next version of the key; every rejected activation leaves every table alone |
| Recipes.RecipeStore.BeginRun | crates/feed-db/src/recipes.rs:1231-1268 | Opens a run, or keeps the running one of the job with its recipe |
| Recipes.RecipeStore.CompleteRun | crates/feed-db/src/recipes.rs:1270-1522 | Takes effect exactly on a running run with consistent counts; a rebuild leaves the recipe not active |
| Recipes.RecipeStore.CancelRunsOf | crates/feed-db/src/crawling.rs:125-145 | Cancels and counts exactly the running recipe runs of a job |
| Recipes.RecipeStore.MarkOverdueRecipes | crates/feed-db/src/crawling.rs:35-57 | Marks overdue exactly the active recipes that are not content-stale and whose last correct run lies a crawl interval back |
| Recipes.RecipeStore.GetActiveForSource | crates/feed-db/src/recipes.rs:1119-1129 | Returns the served recipe of a source with the largest version, none exactly when none is served |
| RecipeRuns.ReachableInv | schema/postgres.sql:487-493 | In every reachable state: one active recipe per source, versions of a key distinct and without a gap from 1, an active recipe without rebuild and below its thresholds |
| RecipeRuns.VersionsIncrease | crates/feed-db/src/recipes.rs:646-652 | A recipe inserted later has a larger version than every earlier one of its key |
| RecipeRuns.NeverActiveAgain | crates/feed-db/src/recipes.rs:621-732 | Over any run a row keeps its identity, and once not active is never active again |
| RecipeRuns.GuardIsRedundant | crates/feed-db/src/recipes.rs:1119-1129 | In every reachable state the rebuild guard of the active-recipe query changes nothing |
| RecipeRuns.RowAfter | crates/feed-db/src/recipes.rs:593-1109 | The exact status of every row after any event; only an activation adds a row |
| RecipeRuns.FailureAndEmptyCountsAreStreaks | crates/feed-db/src/recipes.rs:1587-1601 | Over every run, retired or not, the failure and empty counters of a recipe are the trailing streaks since its last activation, transient runs left out |
| RecipeRuns.CorrectnessCountIsTheStreakUnlessRetired | crates/feed-db/src/recipes.rs:938-944 | The correctness counter is its streak too, except exactly if the recipe was retired for ownership at a streak below three and no correct counted run or activation has come since |
| RecipeRuns.RetirementRunsAhead | crates/feed-db/src/recipes.rs:938-944 | A run of two events after which the correctness counter is three and its streak is zero |
| RecipeRuns.StreaksAreTrailing | crates/feed-db/src/recipes.rs:1587-1601 | A streak is the longest run of such outcomes at the end of the history |
| RecipeRuns.CompletionTurnsStale | crates/feed-db/src/recipes.rs:1475-1491 | A completed run turns an active recipe stale exactly if it is not transient and a streak reaches its threshold |
| RecipeRuns.StaleExactlyAtTheFirstTrip | crates/feed-db/src/recipes.rs:1314-1331 | Unless superseded, a recipe is active as long as it was not retired and no run since its activation has tripped, and stale from then on |
| RecipeHistory.CommitsExactlyWhen | crates/feed-db/src/recipes.rs:1565-1585 | Which calls commit a change: activations of a valid spec, completions of running runs with consistent counts, and closings of active recipes with a reason |
| RecipeHistory.HealthFollowsHistory | crates/feed-db/src/recipes.rs:1603-1640 | In every reachable state the newest item, fingerprint, last correct run, verdict and reason of a recipe are those told last; it is content-stale exactly if the last assessment found its newest item too old, and else overdue exactly if that run was incorrect or a sweep since then found no correct run for a whole interval |
| RecipeHistory.RebuildFollowsVerdict | crates/feed-db/src/recipes.rs:1314-1331 | A rebuild is due exactly if the last verdict was a retirement or a run that left a counter at its threshold |
| RecipeHistory.RecipesFollowHistory | crates/feed-db/src/recipes.rs:593-1109 | In every reachable state a recipe has the content of its first activation, was verified by its last, and its status, stale time and reason are those of the event that ended its life |
| RecipeHistory.RunsFollowHistory | crates/feed-db/src/recipes.rs:1231-1522 | A recipe run is as it was begun, and as the first event left it that could end it |
| RecipeHistory.SourcesFollowHistory | crates/feed-db/src/recipes.rs:736-764 | A source points to the recipe activated for it last unless one was closed by name since, and is disabled and withheld from export once one was retired |
| RecipeHistory.ActivationWrites | crates/feed-db/src/recipes.rs:621-702 | An activation writes the active recipe of the source with the same content, if there is one, and else a new row with the version after the largest of its key |
| RecipeHistory.BeginWrites | crates/feed-db/src/recipes.rs:1231-1268 | A run is begun in the row of the running run of its job, if there is one, and else in a new row |
| RecipeTransactions.Database.SupersedeActive | crates/feed-db/src/recipes.rs:788-888 | Supersedes exactly an active recipe, clears the pointer of its source and cancels its pending crawls: those that name the recipe or, as no other recipe of the source is active, all of them; a blank reason is an error |
| RecipeTransactions.Database.RetireForOwnership | crates/feed-db/src/recipes.rs:890-1109 | Turns exactly an active recipe stale with a rebuild and leaves its source silent: disabled, not exported, without a pending crawl or a public item, the raw rows of what it showed set aside |
| Offloader.BuildObject | bins/feed-payload-offloader/src/main.rs:180-186 | Builds one line for each claimed row, holding its id and payload |
| Offloader.RecoverEncoded | bins/feed-payload-offloader/src/main.rs:180-186 | Every row of a batch can be read back from the object by its id |
| Offloader.IdTextInjective | bins/feed-payload-offloader/src/main.rs:181-184 | Different ids print differently |
| Offloader.IdTextReadsAsId | bins/feed-payload-offloader/src/main.rs:181-184 | The text of an id is its 32 hexadecimal digits with hyphens in the places of a UUID |
| Offloader.Store.ClaimRows | bins/feed-payload-offloader/src/main.rs:162-173 | Takes the first unstamped unlocked rows in id order with their payloads, and locks exactly them |
| Offloader.TakenExactlyWhen | bins/feed-payload-offloader/src/main.rs:162-173 | A claim takes an available row exactly if fewer than its limit have a smaller id, and puts it behind those with its payload |
| Offloader.LargeSizesWrap | bins/feed-payload-offloader/src/main.rs:162-170 | From two to the 63rd on the batch size wraps around to a negative limit |
| Offloader.Store.StampRows | bins/feed-payload-offloader/src/main.rs:192-202 | Gives exactly the rows of the batch the object key and the empty document as payload, and leaves every other row |
| Offloader.Store.EndTransaction | bins/feed-payload-offloader/src/main.rs:204-206 | Gives up exactly the locks the claim took |
| Offloader.Store.OffloadOneBatch | bins/feed-payload-offloader/src/main.rs:152-206 | For every point of failure: rows, objects and locks afterwards, and a count exactly on success, after which each row of the batch holds the key and the empty document |
| Offloader.Store.RunWorker | bins/feed-payload-offloader/src/main.rs:130-150 | A worker that leaves on an empty claim has left no unlocked row unstamped; the rows it counted are stamped, and are all that it stamped exactly if no commit that took effect was reported as failed |
| OffloaderRuns.NoPayloadIsLost | bins/feed-payload-offloader/src/main.rs:130-206 | In every interleaving every payload ever inserted is in its row or in the object its row names |
| OffloaderRuns.StampedRowsAreEmpty | bins/feed-payload-offloader/src/main.rs:192-202 | In every interleaving a row that names an object holds the empty document |
| OffloaderRuns.WorkersAreDisjoint | bins/feed-payload-offloader/src/main.rs:162-173 | No two workers with a live connection ever have the same row in hand |
| OffloaderRuns.LostConnectionShares | bins/feed-payload-offloader/src/main.rs:162-173 | A run in which a worker that lost its connection and another one have the same row in hand |
| OffloaderRuns.StampIsFinal | bins/feed-payload-offloader/src/main.rs:192-206 | Even so, a stamped row never changes again in any run |
| OffloaderRuns.InvPreserved | bins/feed-payload-offloader/src/main.rs:130-206 | Every step, failure or dropped connection keeps locks, batches, objects and rows consistent |
| OffloaderRuns.CompleteExactlyWhen | bins/feed-payload-offloader/src/main.rs:130-150 | With a fixed set of rows, at the end of every run after which all workers have left on an empty claim, no row is unstamped exactly if there was none, or there are workers and the batch size is not zero |
| OffloaderRuns.ZeroWorkersStopAtOnce | bins/feed-payload-offloader/src/main.rs:292-298 | A pool of no workers, which the command line accepts, stops at once with every row unstamped |
| OffloaderRuns.ZeroBatchExitsAtOnce | bins/feed-payload-offloader/src/main.rs:226 | With batch size zero, which the command line accepts, any number of workers leave at once with every row unstamped |
| OffloaderRuns.ZeroBatchStampsNothing | bins/feed-payload-offloader/src/main.rs:162-170 | With batch size zero no run ever stamps a row |
| OffloaderRuns.StampsAreAccountedFor | bins/feed-payload-offloader/src/main.rs:140-147 | In every run the stamped rows are as many as were counted, are about to be counted, or were lost between commit and count |
| OffloaderRuns.CounterIsExactUnlessLost | bins/feed-payload-offloader/src/main.rs:140-147 | The counter equals the number of stamped rows exactly if no worker is between commit and count, no commit that took effect was reported as failed, and no worker crashed between commit and count |
| OffloaderRuns.FailedReportIsNotCounted | bins/feed-payload-offloader/src/main.rs:140-147 | A run with a commit that takes effect and is reported as failed: one row stamped, none counted |
| OffloaderRuns.CrashBeforeCountIsNotCounted | bins/feed-payload-offloader/src/main.rs:140-147 | A run with a crash between commit and count: one row stamped, none counted |
| Ranking.EachHasAFirst | crates/feed-db/src/feeds.rs:968-981 | Every row has a first row of its partition that it equals or follows |
| Ranking.FirstsCountGroups | crates/feed-db/src/feeds.rs:1173-1200 | Keeping row_number 1 keeps as many rows as GROUP BY has groups |
| Ranking.ListingIsUnique | crates/feed-db/src/feeds.rs:1054-1066 | The order leaves no choice: two listings of the same rows are equal |
| Ranking.PagesConcatenate | crates/feed-db/src/feeds.rs:1054-1066 | Consecutive pages concatenate to a prefix of the list |
| Projections.CountIsTheLengthOfTheList | crates/feed-db/src/feeds.rs:1117-1201 | For every filter the count query equals the length of the unpaged list |
| Projections.CountedPagesGiveTheList | crates/feed-db/src/feeds.rs:956-1096 | As many pages as the count asks for give the whole list |
| Projections.PagesOfTheList | crates/feed-db/src/feeds.rs:1054-1066 | Pages queried one by one are the pages of one list, whatever their size |
| Projections.ListedItemsDiffer | crates/feed-db/src/feeds.rs:958-1066 | No two listed items share a company and an address, or a company and a story |
| Projections.EveryItemIsRepresented | crates/feed-db/src/feeds.rs:958-1066 | Every item the filter admits stands behind a listed one through its address and then its story, and none of the three is private |
| Projections.FeedBeatsPage | crates/feed-db/src/feeds.rs:968-981 | Of the copies of one address the better source kind wins, then the later fetch |
| Projections.NewestFirst | crates/feed-db/src/feeds.rs:1054-1066 | The list runs from the newest to the oldest by publication or creation time |
| Projections.ExportedItemsDiffer | crates/feed-db/src/exports.rs:342-572 | Exported items differ in archive key and address, and still in company and address and in company and story |
| Projections.EveryExportableIsRepresented | crates/feed-db/src/exports.rs:342-572 | Every exportable item stands behind an exported one through all three stages |
| Projections.FullTextWins | crates/feed-db/src/exports.rs:358-382 | Of the copies of one address crawled content wins, then the longer body |
| Projections.UnmergedCompaniesKeepAll | crates/feed-db/src/exports.rs:547-567 | The last stage drops nothing of a company that shares its archive key with no other |
| Projections.SpacingDoesNotMatter | crates/feed-db/src/feeds.rs:1186-1193 | Items whose titles differ only in the whitespace between two words have one story |
| Projections.CaseDoesNotMatter | crates/feed-db/src/feeds.rs:1186-1193 | Titles that differ in ASCII case have one story key |
| Projections.SearchIsSubstring | crates/feed-db/src/feeds.rs:1166-1171 | A search text without wildcards matches exactly the texts that contain it |
| Visibility.ListedItemsAreVisible | crates/feed-db/src/feeds.rs:983-1000 | A listed item is public, of an approved source that is a feed or has an active recipe, and what the filter names |
| Visibility.VisibleItemsAreListed | crates/feed-db/src/feeds.rs:983-1000 | Every such item is listed or stands behind a listed one, through items that are not private either |
| Visibility.ExportedItemsAreVisible | crates/feed-db/src/exports.rs:383-415 | An exported item is public, not of the future, and of an approved source released for export |
| Visibility.VisibleItemsAreExported | crates/feed-db/src/exports.rs:383-415 | Every such item is exported or stands behind an exported one |
| Visibility.QuarantineTakesEffect | crates/feed-db/src/crawling.rs:277-297 | After the quarantine of an item no filter lists it and no target exports it |
| Visibility.RetirementTakesEffect | crates/feed-db/src/recipes.rs:1037-1080 | After the retirement of a source nothing of it is listed or exported |
| Visibility.LockedItemsAreNeverShown | crates/feed-db/src/crawling.rs:1107-1129 | An item under a record that does not allow release is listed and exported in no later state of any run |
| Visibility.RecordedItemsAreNotShown | crates/feed-db/src/crawling.rs:277-297 | In every reachable state an item with a quarantine record is neither listed nor exported |
| Copies.ListedExactlyWhen | crates/feed-db/src/feeds.rs:958-1066 | The list holds exactly the visible items with no better copy at their address, by kind of source, fetch time and id, and no better one of their story among those |
| Copies.ListOrder | crates/feed-db/src/feeds.rs:1054-1066 | Each item is listed once, by date or creation, then by creation, the newest first, then by id |
| Copies.PageOfTheList | crates/feed-db/src/feeds.rs:1066-1096 | A page is the stretch of the list that limit and offset name; negative ones are an error |
| Copies.ExportedExactlyWhen | crates/feed-db/src/exports.rs:342-572 | The export holds exactly the releasable items with no fuller or better copy at their address, none of their story among those, and no older one at their address in the archive among those |
| Copies.ExportOrder | crates/feed-db/src/exports.rs:560-572 | Each item is exported once, the dated before the undated and the oldest first |
| Copies.LongBodyRankIsRedundant | crates/feed-db/src/exports.rs:358-382 | The rank for bodies of 200 characters or more changes nothing: crawled content comes first and then the longer body |
| Copies.SameTitleSameWords | crates/feed-db/src/feeds.rs:1186-1193 | Titles with one story key have the same words up to the case of letters |
| Copies.TrimTakesSpaces | crates/feed-db/src/feeds.rs:1186-1193 | Trimming a title takes the spaces off both ends and nothing else |
| Copies.SearchIgnoresCase | crates/feed-db/src/feeds.rs:1166-1171 | A search text without wildcards is found where it occurs in any case of letters |
| Copies.QuotedMatches | crates/feed-db/src/feeds.rs:1166-1171 | A pattern with every wildcard behind a backslash matches the text itself and nothing else |
| Copies.UnderscoresCount | crates/feed-db/src/feeds.rs:1166-1171 | A pattern of underscores matches exactly the texts of its length |
| Nesting.SkipToTagEnd | crates/feed-content/src/lib.rs:209-228 | Finds the end of a tag past quoted text, on any bytes |
| Nesting.NestingDepthExceedsLimit | crates/feed-content/src/lib.rs:112-195 | On any bytes the scan ends, and the answer is whether the greatest depth of the whole scan exceeds the limit |
| Sanitizer.Serializer.SerializeSanitizedNode | crates/feed-content/src/lib.rs:283-392 | Appends exactly the printed sanitized forest and counts exactly what was stripped and kept |
| Sanitizer.Serializer.WriteAttrs | crates/feed-content/src/lib.rs:353-370 | Writes exactly the attributes that may stay, escaped, and counts the others |
| SanitizerLaws.SanitizingIsIdempotent | crates/feed-content/src/lib.rs:283-425 | Given that URL normalization is idempotent, a second pass changes and strips nothing |
| SanitizerLaws.SanitizingADocumentTwice | crates/feed-content/src/lib.rs:258-281 | The same for a whole document around the sanitized body |
| SanitizerLaws.SanitizedIsSafe | crates/feed-content/src/lib.rs:7-46 | Only the tags of an article and whitelisted attributes remain, named one by one, and links and images only with http or https URLs |
| SanitizerLaws.DepthIsBounded | crates/feed-content/src/lib.rs:316-319 | The result nests at most 513 elements, less the starting depth |
| SanitizerLaws.TextIsPreserved | crates/feed-content/src/lib.rs:283-392 | The text of the result is exactly the text outside scripts, embedded content, forms, page furniture, unwanted images and too deep subtrees, in order |
| SanitizedMarkup.MarkupIsPreserved | crates/feed-content/src/lib.rs:283-392 | The result is exactly the text and the article elements outside hidden subtrees, in order, each in the elements it was in and with its surviving attributes |
| SanitizedMarkup.AttrSurvivesExactlyWhen | crates/feed-content/src/lib.rs:394-425 | An attribute survives exactly as the address of a link or image with an http or https target, or as a caption or date |
| SanitizedMarkup.AttrsStayInOrder | crates/feed-content/src/lib.rs:353-370 | The kept attributes are the surviving ones, each once and in order |
| SanitizedMarkup.MetricsBalance | crates/feed-content/src/lib.rs:283-392 | Elements and attributes seen are those of the result plus those counted as stripped, frames aside; the link and image counts are those of the result |
| SanitizedMarkup.EscapedReadsAsItWas | crates/feed-content/src/lib.rs:312-365 | Escaped text decodes to the text it was made of and has no character that ends a text or a quoted value |
| PrintedNesting.ScannerFollowsNesting | crates/feed-content/src/lib.rs:112-195 | On the HTML of any forest, with scripts, styles, comments, doctypes and processing instructions, the greatest scanned depth is at most the true nesting, and equal if no auto-closing element begins with its own name and no script or style stands inside an element |
| PrintedNesting.ScannerStandsBetweenTokens | crates/feed-content/src/lib.rs:112-195 | After any prefix of the tokens the scan of the bytes stands at their end with the depth they give |
| PrintedNesting.DepthIsAtMostNesting | crates/feed-content/src/lib.rs:112-195 | That depth is at most the number of open elements |
| PrintedNesting.DepthIsExactUnlessATagRepeats | crates/feed-content/src/lib.rs:139-188 | It is the true depth throughout exactly if no auto-closing element begins with an element of its own name and no script or style stands inside an element |
| PrintedNesting.RawHtmlNestsDeeperThanScanned | crates/feed-content/src/lib.rs:139-173 | For every n, an HTML text of n nested elements that scans to a depth of at most one |
| GreatestDepth.GreatestDepthIsExactWhen | crates/feed-content/src/lib.rs:112-195 | The greatest scanned depth, which is what the guard compares with its limit, is the true nesting exactly if nothing is nested or some tree of greatest nesting has a deepest element before which no tag repeats and no script or style stands inside an element |
| ScannerLaws.ScanFollowsTokens | crates/feed-content/src/lib.rs:112-195 | The scan of any tokens, with names in any case, notes of all kinds, scripts, slash-ended tags and stray less-than signs, followed by text that is never finished, gives the depth that the tokens give |
| ScannerLaws.TagEndIsFirstUnquoted | crates/feed-content/src/lib.rs:209-228 | On any bytes a tag ends at the first bracket outside quotes of either kind, and nowhere if there is none |
| ScannerLaws.NothingMoreIsCounted | crates/feed-content/src/lib.rs:112-195 | Without another closing bracket nothing more is counted, whatever begins |
| ScannerLaws.OneTagCounts | crates/feed-content/src/lib.rs:48-51 | One tag counts exactly if it is none of the void elements of HTML, in any letter case |
| ScannerLaws.RepeatedTagCounts | crates/feed-content/src/lib.rs:57-60 | A tag right after one of the same name counts exactly if HTML does not close the first by itself |
| ScannerLaws.ScriptsHideTheirText | crates/feed-content/src/lib.rs:158-173 | Nothing inside a script or style counts, in any letter case, until a tag closes it |
| ScannerLaws.TagsBeginWithLetters | crates/feed-content/src/lib.rs:152-153 | Of all one-character names exactly the letters make a tag that counts |
| ScannerLaws.NamesGoOn | crates/feed-content/src/lib.rs:154-159 | A name goes on through letters, digits, hyphens and colons, and through nothing else |
| ScannerLaws.TheLimitIsExact | crates/feed-content/src/lib.rs:87-110 | 2048 elements inside one another are accepted and 2049 are not |
| ScannerLaws.SlashedTagsAreNotCounted | crates/feed-content/src/lib.rs:174-178 | For every n, a text of n opening tags that end in a slash, which HTML nests, and which scans to zero |
| ScannerLaws.CountsExactlyWhen | crates/feed-content/src/lib.rs:112-195 | On tokens that close no more than they open the scanned depth is the number of open elements throughout exactly if no tag of an element that is not void ends in a slash, no auto-closing tag follows its own name, and no script or style stands inside an element |
| PrintedNesting.SanitizedIsNeverRejected | crates/feed-content/src/lib.rs:87-110 | What the sanitizer prints scans to at most 513 and is never rejected |
| Markdown.NormalizeMarkdown | crates/feed-content/src/lib.rs:706-732 | The loop computes the normal form that the lemmas are about |
| Markdown.NormalizingIsIdempotent | crates/feed-content/src/lib.rs:706-732 | Normalizing is idempotent on every string |
| Markdown.LongLinesAreDistinct | crates/feed-content/src/lib.rs:722-724 | No line over 80 bytes occurs twice in the result |
| Markdown.KeptLinesAreTheInputs | crates/feed-content/src/lib.rs:706-732 | The lines kept are exactly the non-blank lines that do not repeat an earlier long one, trimmed, in order, with a gap just where a blank line was |
| Markdown.RereadGivesTheSame | crates/feed-content/src/lib.rs:706-732 | Reading the result again finds the same lines and gaps |
| UrlPolicy.SortPairs | crates/feed-core/src/url_policy.rs:139 | Sorts in place: ascending and a permutation |
| UrlPolicy.Dedup | crates/feed-core/src/url_policy.rs:140 | Leaves each pair once, in order |
| UrlPolicy.ResourceQueryPairs | crates/feed-core/src/url_policy.rs:129-146 | The kept pairs are the sorted safe ones, or none if there are more than four |
| UrlPolicy.HasInvalidResourceQuery | crates/feed-core/src/url_policy.rs:150-172 | True exactly if a recognized field is unsafe or more than four different ones occur |
| UrlPolicy.CanonicalizeUrl | crates/feed-normalizer/src/lib.rs:105-115 | Computes the canonical form that the lemmas are about |
| CanonicalUrls.PrintThenParse | crates/feed-normalizer/src/lib.rs:108-113 | Printing kept pairs and parsing the result gives them back |
| CanonicalUrls.CanonicalizingIsIdempotent | crates/feed-normalizer/src/lib.rs:105-115 | Canonicalizing is idempotent |
| CanonicalUrls.CanonicalIsValid | crates/feed-core/src/url_policy.rs:150-172 | A canonical URL never has an invalid resource query |
| CanonicalUrls.OrderAndNoiseDoNotMatter | crates/feed-core/src/url_policy.rs:129-146 | Reordering or repeating fields and adding or removing ignored ones leaves the canonical URL alone |
| CanonicalUrls.AddedNoiseDoesNotMatter | crates/feed-core/src/url_policy.rs:124-146 | Appending ignored fields leaves the canonical URL alone |
| CanonicalUrls.FragmentDoesNotMatter | crates/feed-normalizer/src/lib.rs:107 | The fragment does not matter |
| CanonicalUrls.QueryIsDroppedExactlyWhen | crates/feed-core/src/url_policy.rs:141-145 | Nothing of the query is kept exactly when no field is safe or more than four different ones are |
| PageFields.CanonicalKeepsPageFields | crates/feed-normalizer/src/lib.rs:105-115 | A canonical URL has the page fields of the URL, named one by one, each once and in order, if there are at most four, and nothing else of the query |
| PageFields.InvalidExactlyWhen | crates/feed-core/src/url_policy.rs:150-172 | A URL is turned away exactly if a page field has no proper value or there are more than four page fields |
| PageFields.UnescapeUndoesEscape | crates/feed-normalizer/src/lib.rs:108-113 | Reading a written query part gives its bytes back, for all bytes |
| PageFields.PercentSigns | crates/feed-core/src/url_policy.rs:129-146 | Bytes may be written with small letters, and a percent sign that starts no byte stands for itself |
| Candidates.CandidateAccumulator.InsertCandidate | crates/feed-discovery/src/lib.rs:937-974 | One insertion drops, merges or adds exactly as the specification function says |
| Candidates.CandidateAccumulator.Finish | crates/feed-discovery/src/lib.rs:976-986 | Returns every candidate once, in key order, pages without their query |
| Candidates.AccumulatorReflectsItsLog | crates/feed-discovery/src/lib.rs:924-974 | After any insertions the accumulator holds the first distinct keys up to its capacity, each with all its observations in order, the greatest confidence and the earliest best URL |
| Candidates.ArrivalOrderDoesNotMatter | crates/feed-discovery/src/lib.rs:937-974 | Below capacity the same insertions in any order give the same keys and confidences and equally good URLs |
| Candidates.SummaryIsBest | crates/feed-discovery/src/lib.rs:1030-1036 | No insertion of a key has a greater confidence, or the same with a preferable URL |
| CandidateLaws.CandidateIsTheFirstBest | crates/feed-discovery/src/lib.rs:937-974 | A candidate is the earliest of the best insertions of its kind and key: surer, else without a query, else with the shorter URL |
| CandidateLaws.ObservationsAreAll | crates/feed-discovery/src/lib.rs:937-974 | Its observations are those of all insertions of its key, in order |
| CandidateLaws.FirstKeysAreHeld | crates/feed-discovery/src/lib.rs:960-966 | A key is held exactly if fewer keys than there is room for arrived before it |
| CandidateLaws.ListedOnceInOrder | crates/feed-discovery/src/lib.rs:976-986 | The list has a row for each candidate in the order of kind names and keys, and only pages lose their query |

## Left out

- HTTP fetching, DNS and address checks, browser control, the S3 client, parsing of HTML and XML, regular expressions, SHA-256 and gzip.
- The HTTP API, dashboards, worker processes, configuration, tracing and the `event_log` table.
- Overflow of 32-bit counters and of timestamps; deletion of jobs, sources, items or recipes, and the foreign keys that react to it.
- Concurrency of two producers of content-crawl jobs (crates/feed-db/src/content_crawling.rs:129-135): the count is not serialized, so nothing is claimed.
- Progress of content attempts after the last lease of their job has expired: no code closes them.
- The trigger and check constraints on raw rows and on text that only forbid blank values; JSON columns are values, and their size limits are not modelled.
- Two activations of one recipe key for different sources at the same time: the advisory lock is per source, and the unique index makes one of them fail.
- The error text that a cancelled recipe run gets, and the metadata of crawl and recipe runs.
- Metadata and times of the last attempt, success and non-empty run that the recipe state stores besides its counters.
- Raw rows that are deleted after a while; `RawRows.RawRowsAreSettled` is about rows that stay.
- Which pending crawls name a recipe: `RecipeTransactions.Database.SupersedeActive` takes that set as a parameter, as job payloads are opaque.
- Trees in which the text of a script or style holds its closing tag, which no parser builds.
- Candidates.CandidateAccumulator.InsertCandidate: confidences are real numbers, so NaN and rounding are not modelled.
- UrlPolicy.SortPairs: stands for the library's sort, of which only the result is the source's.
- Sanitizer.Serializer.SerializeSanitizedNode: starts from an element, text or comment; the branch for a document node is never reached from the root element.
- Rendering of Markdown from the tree, `normalize_text`, `content_policy.rs`, the `news_score` token lists, sitemap dates, selectors, coverage counts and conversions between rows and domain values: long or flat code with little to relate.
- How share classes are merged into one archive key: the key is an arbitrary column of the company.

# Verified model of the scraper service's stateful core

The service crawls municipal web sites for tenants, stores what it finds and tells the tenant about it.
This project models the parts of it that keep state and proves what holds over every input, every run
and every interleaving:

- **Crawl frontier and runner** (`Frontier.dfy`, `FrontierInvariants.dfy`, `BfsCompleteness.dfy`,
  `DeltaFilter.dfy`, `PollLoop.dfy`, `CrawlRunner.dfy`, `CrawlResults.dfy`). The frontier object, the message loop with its
  cancellations, broker errors and crashes, progress flushing, status writes and document persistence.
  Main results: a drained crawl published exactly the URLs reachable within the depth limit, each at its
  shortest distance, *if and only if* the URLs reachable in the link graph are no more than the seeds and
  `max_pages` more (for up to `max_pages` seeds; the condition for more is exact too); the counters are
  conserved; the rows are the first occurrences of new content hashes, and re-running the same documents
  persists nothing; how the message loop ends is a function of the broker's answers, and a job reported done
  is the drained crawl *if and only if* no timeout cut the loop short.
- **Interleavings of the frontier** (`EnqueueProtocol.dfy`). Any number of workers with SADD, INCR and
  PUBLISH as separate steps and arbitrary page answers.
- **Jobs** (`JobCreation.dfy`, `JobStore.dfy`, `StatusLifecycle.dfy`, `Pagination.dfy`). The SET NX /
  sentinel / poll / materialise protocol for any number of clients, the status machine and the claim
  protocol of the runners, and cursor pagination down to decimal printing and base64.
- **Fetching** (`TokenBucket.dfy`, `FetchLoop.dfy`). Both token-bucket implementations, and the redirect
  and streaming loop.
- **Webhooks** (`WebhookWorker.dfy`). The retry worker with its sleeping requeue tasks and dead-letter queue.
- **Smaller cores** (`RateLimit.dfy`, `TextNormalizer.dfy`, `Classifier.dfy`). `Basics.dfy` holds shared
  vocabulary.

Where the source changes state step by step, the model has a class or a looping method proved to take the
steps of a function on an abstract state (`Model()`), and the theorems are about that function. Where
several processes interleave, the model has a `Step` datatype and a function `Next`; a step that is not
enabled changes nothing, so every list of steps is a run and a theorem about `After(init, steps)` is a
theorem about every run.

## Findings

Some expected properties do not hold of the code as it is. Each is stated with its exact condition.

- **Completeness ends at the cap.** A URL whose INCR exceeds the page limit has been marked as visited and
  is never published later; `BfsCompleteness.CompleteIffItFits` says on the link graph when that happens.
- **Seeds past the limit are lost.** Seeding stops after `max_pages` distinct allowed seeds, and up to
  `max_pages` sitemap URLs come before the configured ones. A later seed is not marked as visited: it is
  missed, or found again behind a link at a greater depth, unless some page links to it as a PDF
  (`BfsCompleteness.LateSeedIsLost`). `BfsCompleteness.CompleteWithManySeeds` is the exact condition on the
  link graph when no later seed is linked to both as a PDF and not; `BfsCompleteness.ManySeeds` gives both
  directions without that, and `BfsCompleteness.CrawlIsComplete` the exact condition with it, where the link
  that is taken up first decides.
- **A slow broker ends a job as done.** A poll that times out is handled like an empty queue, and broker
  errors lengthen the same streak. Two timeouts in a row, or a broker error and then a timeout, end the job as
  `done` with messages still queued (`CrawlRunner.DoneWithMessagesQueued`). `PollLoop.DoneEarlyIff` gives the
  exact condition: a timeout right after a poll without a reply, before the replies have reached the number of
  messages of the crawl and before anything else ends the loop; `CrawlResults.DoneEarlyOnGraph` tells that
  number from the link graph. Without timeouts a job reported done has always
  drained its queue, also after a broker error and one empty poll.
- **A cancellation can be overwritten.** `JobStore.update` validates against a status it read in an earlier
  statement. A cancellation is lost if and only if some client validated another status before and has yet to
  write it (`JobStatus.CancellationLostIff`; `JobStatus.CancellationOverwritten` is such a run), and a terminal
  job is revived if and only if that status is a live one (`JobStatus.RevivedIff`). The service's own calls of
  `update` only write `done` and `failed`.
- **A different request body can be given the existing job.** The id is written to the idempotency key
  before the fingerprint is written to its own key; a client that polls in between compares with nothing.
  `JobCreation.MismatchInWindowSucceeds` is such a run, `JobCreation.OneRowForAll` says that a finished
  client is refused exactly when its fingerprint differs and the fingerprint key was written when it read
  it, and `JobCreation.LateMismatchIsRefused` that this includes every client that had not yet read it by
  then.
- **One key can give two jobs.** A loser that uses up its 40 polls creates a row of its own
  (`JobCreation.SlowWinnerGivesTwoRows`); `JobCreation.RowsAreCounted` says that there is exactly one row for
  the winner and one for each such loser, and `JobCreation.TimelyWinnerMakesOneRow` that there is none if the
  key is written before any client's fortieth poll.
- **A rate below one request per second fetches nothing.** The bucket's capacity is the rate itself
  (`TokenBucket.GrantsNeedRateOne`); the configuration accepts rates from 0.1.
- **The request limiter is a fixed window.** Its documentation says sliding. A stretch of one window length
  stays within the limit if and only if what the next window admits before the stretch ends is covered by the
  quota of the first window that was used before the stretch or never (`RateLimit.WithinTheLimitIff`). It never
  admits more than twice the limit (`RateLimit.AtMostTwiceTheLimit`), and that is reached
  (`RateLimit.TwiceTheLimitIsReached`).
- **Four delivery attempts, not three.** The worker's documentation speaks of three attempts; a payload is
  tried once and retried three times (`WebhookWorker.FourAttemptsAreMade`). A fourth attempt is made exactly
  when the first three have failed (`WebhookWorker.FailuresDecide`). Each attempt is one POST
  unless it fails before the request is sent (`WebhookWorker.EveryAttemptIsAPost`).
- **A job can stay in `fetching_sitemap`.** The stored configuration is parsed before the exception handler
  is entered; `CrawlRunner.RunJob` ends in a terminal status exactly when it parses. The status writes
  follow the transition table exactly unless a crash between loop and final write follows a cancellation.

## Model

| member | source | states |
|---|---|---|
| CrawlFrontier.UrlAllowed | app/services/frontier.py:104-141 | the two pattern loops decide exactly the documented filter: domain allowed, no valid exclude pattern matches, and some valid include pattern matches unless there are none or they are skipped |
| CrawlFrontier.SeedFromSitemap | app/services/frontier.py:202-233 | stopping early loses nothing: the result is the first max_pages URLs of the complete one-level expansion |
| CrawlFrontier.FlattenPieces | app/services/frontier.py:212-233 | the expansion goes entry by entry and in order: a page is itself, a nested sitemap its pages if it can be fetched |
| CrawlFrontier.Frontier.Start | app/services/frontier.py:331-370 | seeding takes the abstract seeding step: own cap, visited set, no page counter |
| CrawlFrontier.Frontier.Enqueue | app/services/frontier.py:372-400 | filter, SADD, INCR, cap, publish and counters, as one abstract step with the same result |
| CrawlFrontier.Frontier.ProcessMessage | app/services/frontier.py:402-485 | the whole new state for every answer, a fetch error leaving urls_pending raised |
| CrawlRunner.HandledResults | app/crawl_runner.py:209-231 | after any number of handled messages urls_discovered = urls_fetched + urls_pending, bytes_downloaded is the sum over the fetched pages, every flush meets the bounds of CrawlProgress, the rows are those of the consumed messages, and with nothing queued the state is the drained crawl |
| FrontierInvariants.EnqueueKeeps | app/services/frontier.py:372-400 | an enqueue keeps counters, page budget and at-most-once publication, and does not change queue length plus remaining budget |
| FrontierInvariants.ProcessKeeps | app/services/frontier.py:402-485 | any message keeps the invariant and uses up exactly one unit of queue length plus remaining budget |
| FrontierInvariants.SeedKeeps | app/services/frontier.py:350-368 | seeding establishes the invariant with at most max_pages messages and the page counter at zero |
| FrontierInvariants.Drain | app/crawl_runner.py:340-401 | draining ends, having consumed exactly the seeds plus the INCRs within the cap, at most 2 * max_pages messages; what is pending then is what failed to fetch |
| FrontierInvariants.Crawl | app/crawl_runner.py:318-401 | a whole crawl publishes no normalised URL twice and at most 2 * max_pages messages |
| BfsCompleteness.OneLink | app/services/frontier.py:455-462 | taking up one link covers its target one level down and keeps the queue within two adjacent depths |
| BfsCompleteness.StepKeepsBfs | app/services/frontier.py:402-485 | every processed message keeps the breadth-first invariant while the cap holds |
| BfsCompleteness.SeedingCovers | app/services/frontier.py:350-368 | seeding marks the allowed seeds of a prefix of the list: all of it, or as much as brings the messages to max_pages |
| BfsCompleteness.DrainedIsComplete | app/services/frontier.py:331-400 | with the queue empty, published is exactly reachable within max_depth and non-PDF depths are shortest distances |
| BfsCompleteness.PastCapIsIncomplete | app/services/frontier.py:386-395 | once an INCR exceeds the cap, some reachable URL is marked as visited and never published |
| BfsCompleteness.StartedIsComplete | app/services/frontier.py:331-462 | from the first max_pages distinct allowed seeds a crawl finds everything, at shortest depth, if and only if what they reach in the link graph is no more than those seeds and max_pages URLs |
| BfsCompleteness.CrawlIsComplete | app/services/frontier.py:331-462 | for any seeds, complete with shortest depths if and only if what the started seeds reach fits and every later seed was published as a PDF leaf |
| BfsCompleteness.CompleteIffItFits | app/services/frontier.py:331-462 | with at most max_pages distinct allowed seeds, complete if and only if the reachable URLs are no more than the seeds and max_pages more |
| BfsCompleteness.ManySeeds | app/services/frontier.py:331-462 | for any number of seeds, on the link graph: complete if all fits and every later seed is reachable and linked to as a PDF only; not complete unless all fits and every later seed is reachable and linked to as a PDF somewhere |
| BfsCompleteness.CompleteWithManySeeds | app/services/frontier.py:331-462 | the exact condition on the link graph when no later seed is linked to both as a PDF and not |
| BfsCompleteness.LateSeedIsLost | app/services/frontier.py:350-368 | one seed past the limit that no page links to as a PDF makes the crawl incomplete |
| BfsCompleteness.SeedsPastTheLimitAreLost | app/services/frontier.py:350-368 | more than max_pages distinct allowed seeds, with no page linking to a later one as a PDF: never complete |
| BfsCompleteness.CrawlSize | app/services/frontier.py:331-462 | the number of messages is what the started seeds reach in the link graph, cut at those seeds and max_pages more |
| BfsCompleteness.FoundPdfsAreDeep | app/services/frontier.py:455-462 | a PDF found as a link is put at max_depth, however near it was found |
| DeltaFilter.DocumentStore.Persist | app/crawl_runner.py:138-206 | one document against the known-hash set, with reliable Redis and commits |
| DeltaFilter.PersistAllMeetsSpec | app/crawl_runner.py:148-206 | the rows are the first occurrences of hashes outside the baseline plus hashless documents; the known set is baseline and persisted hashes, which is every hash seen |
| DeltaFilter.RerunPersistsNothing | app/crawl_runner.py:148-206 | a second run over documents whose extractions all carry a hash, as the extractor's do, persists nothing and leaves the known hashes as they were |
| DeltaFilter.RerunPersistsNothingNew | app/crawl_runner.py:148-206 | on any documents a second run persists exactly the hashless ones, so nothing if and only if there are none; the branch for an empty hash is a guard that extraction never reaches |
| CrawlRunner.JobRow.FlushProgress | app/crawl_runner.py:209-231 | counters and status are written if and only if no counter is negative |
| CrawlRunner.HandledIsOnCourse | app/crawl_runner.py:370-401 | after any number of handled messages the run is still on the way to the drained crawl and the rows are those of the consumed messages |
| CrawlRunner.HandledCount | app/crawl_runner.py:370-401 | after k handled messages exactly k are consumed, and one is queued exactly while k is short of the whole crawl |
| PollLoop.LoopFacts | app/crawl_runner.py:337-401 | the loop ends for every environment, after at most three polls per message and three more; cancelled exactly when the last look found a cancellation |
| PollLoop.LoopEndsFirst | app/crawl_runner.py:337-401 | the whole loop told from the broker's answers: it ends at the first poll that ends it, as cancelled, crashed, partial or done by the kind of that poll alone, having handled every reply before it as long as there were messages |
| PollLoop.AnsweredCrawlIsDone | app/crawl_runner.py:340-370 | when every poll is answered and nothing else happens, every message is handled and the job is done after two empty polls |
| PollLoop.DoneEarlyIff | app/crawl_runner.py:346-368 | done with messages queued if and only if a timeout follows a poll without a reply, first of all that ends the loop and before every message had its reply; never without timeouts |
| PollLoop.SlowBrokerLosesEverything | app/crawl_runner.py:346-368 | a timeout or broker error and then a timeout end any crawl as done after two polls with nothing handled |
| CrawlRunner.DoneWithMessagesQueued | app/crawl_runner.py:346-358 | a concrete run: one allowed seed, a broker that always times out, a job reported done with the seed unconsumed |
| CrawlRunner.PollOnce | app/crawl_runner.py:340-401 | one iteration takes the verdict and streak told by cancellation, the poll's answer and whether a message is queued; it handles one message exactly when it goes on with streak zero, counts the documents, writes the counters at every tenth, and that flush is never refused |
| CrawlRunner.MessageLoop | app/crawl_runner.py:337-401 | verdict, polls and handled messages are those of the pure loop on the size of the whole crawl; the row stays crawling unless the loop ended by a cancellation |
| CrawlRunner.RunJob | app/crawl_runner.py:263-453 | without faults the poll that ended the loop decides between cancelled, failed, partial and done, and a broker that answers every poll makes it done two polls after the last message; terminal exactly when the configuration parses; status path along the table unless a crash between loop and final write follows a cancellation; rows those of the consumed messages; done means the drained crawl exactly when no timeout cut it short; final counters conserved; the webhook names failed or completed, the status and the documents so far, for every end but a cancellation |
| CrawlResults.EveryReachablePageIsAccountedFor | app/crawl_runner.py:318-401 | when seeds and reachable URLs fit under the limits, every page reachable within the depth limit is fetched in error, unreadable, in the baseline or among the rows |
| CrawlResults.DoneEarlyOnGraph | app/crawl_runner.py:337-401 | done with messages queued if and only if a timeout cuts the loop short, the number of messages told from the link graph |
| EnqueueProtocol.NormsKept | app/services/frontier.py:352-397 | no step lets two messages or workers speak for the same normalised URL |
| EnqueueProtocol.CountsKept | app/services/frontier.py:352-397 | every step keeps the exact count of published, held and refused URLs |
| EnqueueProtocol.PublishedAtMostOnce | app/services/frontier.py:352-397 | in every interleaving no URL twice, children at most the capped counter and equal to it exactly when nobody is between INCR and PUBLISH, seeds at most max_pages, 2 * max_pages in all |
| EnqueueProtocol.DepthsAreSound | app/services/frontier.py:380-462 | in every interleaving each message has a link chain from a seed no longer than its depth (exactly as long unless a PDF leaf), within max_depth, with no PDF or limit-depth parent |
| EnqueueProtocol.EnqueueIsThreeSteps | app/services/frontier.py:372-400 | uninterrupted, SADD, INCR and PUBLISH are the sequential enqueue |
| EnqueueProtocol.SeedingIsSequential | app/services/frontier.py:350-368 | uninterrupted, the steps of the seeder are the sequential seeding: same marks, same seeds in order, same count |
| JobCreation.NamesKept | app/services/job_store.py:83-134 | a key that is not the sentinel names a committed row, and so does everything a client has read |
| JobCreation.RowsAreCounted | app/services/job_store.py:83-134 | rows committed or in creation are exactly one for the SET NX winner and one per loser that used up its polls |
| JobCreation.OneRowForAll | app/services/job_store.py:83-134 | without exhausted losers there is at most one row, every success returns it, and a duplicate error occurs exactly on a differing fingerprint that was readable |
| JobCreation.LateMismatchIsRefused | app/services/job_store.py:93-99 | once the fingerprint key is written, a client with another fingerprint that has not read it never succeeds |
| JobCreation.NamedKeyIsSeen | app/services/job_store.py:90-104 | once the key names a job, a client with a poll left sees it on its next poll and never uses up its polls |
| JobCreation.TimelyWinnerMakesOneRow | app/services/job_store.py:83-134 | when the key is written while every client still has a poll left there is exactly one row, which every success returns |
| JobCreation.PollsAreCounted | app/services/job_store.py:87-104 | a client polls on exactly as often as it found no job named, and uses up its polls only after the fortieth |
| JobCreation.MismatchInWindowSucceeds | app/services/job_store.py:132-134 | a run in which a client with another fingerprint is given the job between the two key writes |
| JobCreation.SlowWinnerGivesTwoRows | app/services/job_store.py:101-134 | a run in which the loser uses up its 40 polls and both clients return a row of their own |
| JobStore.JobStore.CreateCrawlJob | app/services/job_store.py:68-144 | the client's code, 40 polls included, is a run of the protocol with all other clients let in at every await, and its answer is what the protocol says |
| JobStatus.PathsNeverReturn | app/services/state_machine.py:10-59 | along table transitions a status once left never comes back, a terminal one is never left, and at most five changes happen |
| JobStatus.WhoCanReach | app/services/state_machine.py:10-59 | the transition table by columns: from which statuses each one can be reached |
| JobStatus.JobTable.Update | app/services/job_store.py:218-271 | validated against the status read, written over whatever the other clients have made of the table by then; missing row, rejected transition or written status |
| JobStatus.JobTable.CancelJob | app/services/job_store.py:283-298 | cancellation of a row that is found, whatever the other clients have made of its status |
| JobStatus.TerminalStaysTerminal | app/services/job_store.py:228-296 | after any updates and cancellations that do not overlap, a terminal job is unchanged, or cancelled exactly if one of them was a cancellation |
| JobStatus.RevivedIff | app/services/job_store.py:228-271 | with reads and writes apart, a terminal job can become live again if and only if some client has a validated transition to a live status pending |
| JobStatus.CancellationLostIff | app/services/job_store.py:228-296 | a cancelled job can get another status if and only if some client has one validated and pending |
| JobStatus.CancellationOverwritten | app/services/job_store.py:228-296 | a run in which a cancelled job becomes done |
| ClaimProtocol.StepKeeps | app/crawl_runner.py:69-99 | every step of any number of runners and API writers keeps claims, row locks and slots consistent |
| ClaimProtocol.ClaimedAtMostOnce | app/crawl_runner.py:487-506 | in every run a row is claimed at most once, no two runners hold it, and no runner exceeds its worker limit |
| ClaimProtocol.FirstComeFirstServed | app/crawl_runner.py:69-99 | in every run of any number of runners a claimed job was submitted no later than any job still waiting |
| ClaimProtocol.IdleRunnerClaims | app/crawl_runner.py:487-506 | a runner with room claims the oldest waiting job, and its free slots are the limit less its unfinished tasks |
| ClaimProtocol.FinishMakesRoom | app/crawl_runner.py:487-506 | a task that ends makes room for one more at the next round |
| Cursor.Base64RoundTrip | app/services/job_store.py:334-352 | the lenient decoder returns exactly the bytes that were encoded |
| Cursor.DigitsParse | app/services/job_store.py:334-352 | parsing a printed decimal gives the number back |
| Cursor.CursorRoundTrip | app/services/job_store.py:334-352 | a cursor decodes to the offset it was made from |
| Cursor.CursorOfText | app/services/job_store.py:334-341 | whatever ASCII text a cursor wraps, it stands for the number in it or for the beginning |
| Cursor.SignedCursor | app/services/job_store.py:334-341 | a sign is read, so a negative offset can be asked for |
| Cursor.GarbageCursor | app/services/job_store.py:334-341 | a cursor whose text holds any character that no number has stands for the beginning |
| Pagination.FilterPieces | app/services/job_store.py:327-332 | the filter goes row by row and in order: the type if one is given, the minimal confidence if it is positive |
| Pagination.GetDocuments | app/services/job_store.py:311-381 | expired results, negative offsets, and the page at the cursor's offset with has_more iff offset + limit < total |
| Pagination.WalkShowsEverything | app/services/job_store.py:334-354 | for every limit of at least one the walk ends and concatenates to the filtered rows on full pages |
| TokenBucket.InProcessTokenBucket.Consume | app/services/fetcher.py:106-115 | refill, capacity, decision and the new dictionary, other domains untouched |
| TokenBucket.RedisTokenBucket.Eval | app/services/fetcher.py:121-137 | the script on a hash that may have expired |
| TokenBucket.LuaRefinesInProcess | app/services/fetcher.py:106-137 | on the same nondecreasing timestamps and rate both give the same decisions |
| TokenBucket.RefusedCallsAreInvisible | app/services/fetcher.py:106-115 | deleting any refused calls from a trace leaves every other decision as it was |
| TokenBucket.GrantsAreBounded | app/services/fetcher.py:106-115 | at most rate + rate * (t - s) calls are granted between s and t |
| TokenBucket.RefusalsNeedGrants | app/services/fetcher.py:106-115 | and no less: a call on a fresh bucket is refused only if since some earlier call more than rate - 1 + rate * (time since) calls were granted |
| TokenBucket.BurstIsGranted | app/services/fetcher.py:106-115 | of any number of calls at one instant on a fresh bucket exactly the first rate are granted |
| TokenBucket.UseStaysInRange | app/services/fetcher.py:106-115 | tokens stay between zero and the rate |
| TokenBucket.GrantsNeedRateOne | app/services/fetcher.py:106-115 | something is granted if and only if the rate is at least one, and then every call 1/rate after the previous one is |
| FetchLoop.ReadBody | app/services/fetcher.py:355-369 | the chunk loop yields all bytes, or nothing with the warning exactly for a PDF over the limit, or the connection error |
| FetchLoop.Fetch | app/services/fetcher.py:290-392 | stops at the first hop that does not redirect with the exact visited prefix as chain; budget error iff the first max_redirects + 1 hops all redirect; each URL is requested only after the guard passed it at that hop |
| FetchLoop.StopTells | app/services/fetcher.py:290-392 | told from the requests and their responses alone: each request follows from the location before it; status, type and body are the last response's, the body dropped with the warning exactly for a PDF whose declared or received length exceeds the limit; and each error exactly where its cause is |
| FetchLoop.JoinConcat | app/services/fetcher.py:355-369 | the body is its chunks in order |
| FetchLoop.Finish | app/services/fetcher.py:321-382 | header pre-check and body of the final response |
| FetchLoop.PdfIsWholeOrEmpty | app/services/fetcher.py:329-382 | what a fetch returns is every byte the last server sent and no warning, or for a PDF nothing and the warning; a delivered PDF is within the limit |
| WebhookWorker.Worker.PublishWebhook | app/services/webhooks.py:114-130 | a payload enters the queue with retry count zero, or a publish that raises leaves nothing |
| WebhookWorker.Worker.HandleNext | app/services/webhooks.py:153-250 | one round of the consume loop is receive followed by the outcome's step, delay index in range |
| WebhookWorker.RoundMoves | app/services/webhooks.py:153-250 | the oldest message leaves the queue: dropped, delivered, dead after the fourth failure, or asleep for 5, 25 and 125 seconds with the next retry count |
| WebhookWorker.Worker.Requeue | app/services/webhooks.py:225-236 | a requeue task that wakes puts its message back |
| WebhookWorker.MovesKeepPlaces | app/services/webhooks.py:153-250 | every step moves a payload from one place to another and changes nothing else |
| WebhookWorker.EveryPayloadIsAccountedFor | app/services/webhooks.py:153-250 | in every run each payload is live once or settled once with its published body, retry count 0..3 equal to the deliveries begun before, at most four deliveries each with at most one POST, a POST made if delivered, dead-lettered exactly after the fourth |
| WebhookWorker.EveryAttemptIsAPost | app/services/webhooks.py:156-207 | if no delivery fails before its request is sent, deliveries begun and POSTs made agree for every payload |
| WebhookWorker.FailuresDecide | app/services/webhooks.py:153-250 | in every run attempts are the failed deliveries and the successful one; a fourth is made exactly after three failures, and dead-lettered means four failures |
| WebhookWorker.FourAttemptsAreMade | app/services/webhooks.py:209-250 | a run with four POSTs for one payload, which then is the dead letter |
| WebhookWorker.StepUsesMeasure | app/services/webhooks.py:209-250 | every step but publishing lowers the work left |
| WebhookWorker.WorkerComesToRest | app/services/webhooks.py:153-250 | at most eleven steps per payload, and nothing is left to do exactly when every payload is settled |
| RateLimit.RateLimiter.Dispatch | app/middleware/rate_limit.py:38-81 | counter, expiry, decision and headers of one request |
| RateLimit.CounterCounts | app/middleware/rate_limit.py:42-47 | the window + 1 expiry never drops a counter before its window ends, so it counts every request of the window |
| RateLimit.AdmitsExactlyTheLimit | app/middleware/rate_limit.py:38-81 | per tenant and window exactly min(requests, limit) are admitted |
| RateLimit.ReplyCounts | app/middleware/rate_limit.py:52-81 | decision, remaining, reset and retry-after from the requests made so far |
| RateLimit.RemainingIsLimitLessAdmitted | app/middleware/rate_limit.py:53-80 | the reported remaining is the limit less those admitted |
| RateLimit.StretchIsCounted | app/middleware/rate_limit.py:38-61 | on a clock that does not go back, what any stretch of one window length admits, in request counts alone |
| RateLimit.WithinTheLimitIff | app/middleware/rate_limit.py:38-61 | exactly when a stretch of one window length stays within the limit |
| RateLimit.AtMostTwiceTheLimit | app/middleware/rate_limit.py:38-61 | any stretch of one window length admits at most twice the limit, whatever the clock does |
| RateLimit.TwiceTheLimitIsReached | app/middleware/rate_limit.py:38-61 | for every limit and window there is a burst that reaches it |
| TextNormalizer.FixDiacritics | app/services/extractor.py:88-101 | the four replacements in order are the diacritic map on every character |
| TextNormalizer.NormalizeText | app/services/extractor.py:137-140 | the service's normaliser is the function the two results below are about |
| TextNormalizer.NormalizedText | app/services/extractor.py:137-140 | no cedilla letter, no run of three whitespace characters, clean ends, and the input's visible characters under the diacritic map in order |
| TextNormalizer.RunBetweenTexts | app/services/extractor.py:137-140 | between two texts three or more whitespace characters become exactly one blank line, and fewer are kept |
| TextNormalizer.NormalizeTwice | app/services/extractor.py:137-140 | normalising twice is normalising once |
| Classifier.ScoreIsLength | app/services/classifier.py:71-77 | a score is the length of the found keywords written one after the other |
| Classifier.KeywordScores | app/services/classifier.py:71-77 | each type's score is the total length of its keywords found |
| Classifier.FindUrlMatch | app/services/classifier.py:63-69 | the first URL pattern that occurs, if any |
| Classifier.Rank | app/services/classifier.py:79-80 | a permutation by descending score with ties in enum order |
| Classifier.KeywordsFollowEnum | app/services/classifier.py:31-59 | the keyword table lists all seventeen types in enum order |
| Classifier.ClassifyDocument | app/services/classifier.py:62-100 | text match is the first type with maximal positive score, confidence by case, alternatives are the best two other positive types in rank order with nonincreasing confidence at most 0.5, and with alternatives the primary confidence is at least 0.80 |
| Classifier.Classify | app/services/classifier.py:9-100 | on the service's own tables: Other exactly when nothing matches; a matching text decides on the enum's first best type whatever the URL says; confidence at least 0.80 exactly when the text matches; alternatives are never Other; with one keyword found of each of two types the longer one decides and the other is the alternative, min(0.5, 0.1 * length) sure |

## Left out

- URL parsing: a URL is an abstract value with a normal form, a PDF test and a domain test; completeness assumes only that the links followed from a page depend on its normal form (`https://h/x.pdf/` and `https://h/x.pdf` share one, and only the second is a PDF link).
- Regular expressions: a pattern matches, does not match or is invalid for a URL; a keyword is or is not found in a text.
- Page contents: fetching, rendering, extraction and link extraction are one answer per URL in the sequential crawl and an arbitrary answer per message under interleaving.
- HTML, PDF, DOCX, XLSX and sitemap XML parsing, OCR and browser rendering.
- SSRF address ranges, HMAC signing, hashing and authentication headers: the guards are abstract.
- Broker redelivery, worker crashes between an acknowledgement and a publish, Redis failures and their fail-open paths, key expiry after 24 hours and deletion of jobs during creation.
- What `fetch` does before its loop (scheme, rate limit, robots.txt) and network errors outside the three it converts.
- An unhandled exception in the middle of a message is modelled as raised before the message is taken; such a job ends as failed and nothing else is claimed of it.
- A webhook body that is not a JSON object; the service publishes only serialised payloads.
- Offsets beyond the database's integer range.
- Loading of the client's known hashes happens after the row is committed; the delta results assume it is complete before the job is claimed.
- A cancellation that lands between the runner's check and its next status write and is overwritten by it.
- ClaimProtocol.StepKeeps: an update to `queued` validated before the row was claimed and written after; no caller of `JobStore.update` asks for that status.
- A message that the broker hands to a poll which has just timed out.
- The database gives no order to documents without ORDER BY; the walk is over a fixed row order.
- DecodeCursor: non-ASCII bytes count as unreadable, although Python also reads some non-ASCII decimal digits.
- Token bucket arithmetic is over real numbers, and the Redis server's clock is taken to agree with the caller's.
- Row locks are modelled as exclusive access between SELECT FOR UPDATE and COMMIT.
- Classifier confidences are real numbers; lower-casing of URL and text is part of the abstract match.
- Routers, ORM and API models, metrics, logging, settings, log retention, scrape jobs, field extraction and PII redaction.

# YiMao, modelled and proved in Dafny

YiMao is a Telegram bot that takes film and series requests and hands them to MoviePilot. Between
the bot's I/O and its user interface sit some small state machines that have to be right: locks,
duplicate filters, the polling loop, ledgers, rate limiters and codecs. This project models those,
branch by branch, and proves what they are relied on for. `dafny verify dfyconfig.toml` checks it.

| file | models | main results |
|---|---|---|
| `RequestLocks.dfy` | the reference-counted lock table for approvals | mutual exclusion across deletion and re-creation, who waits for whom, exact counts, draining |
| `Dedup.dfy` | the duplicate filters for Telegram updates and webhook bodies, with their ledger file | pruning is invisible against a log that never forgets; when the file is written and what a crash can lose |
| `Delivery.dfy` | the polling loop and its workers, across crashes | bounded concurrency, at most once per lifetime, the offset passes only handled updates and confirms no others, the fate of an update at a crash, no deadlock |
| `CarpoolKeys.dfy`, `Carpool.dfy` | the carpool ledger and its keys | round trip, memory equals file under any save failures, exactly whom a join, a leave, an arrival and a cancellation concern, what a reload keeps |
| `CommandLimiter.dfy`, `WebhookLimiter.dfy` | the command and webhook limiters | each against the full history, with its bound; when more than four slots can be taken |
| `MiniAppLimiter.dfy`, `MiniAppTraces.dfy`, `MiniAppCallers.dfy` | the Mini App limiter, its locked sections in any order of readings, and its concurrent callers | its bound and its promises, and exactly when the windows of a key stay apart, its cleanups stay invisible and its refusals come true |
| `CallbackCodec.dfy` | the colon form of callback data | round trip exactly when, injectivity |
| `TableText.dfy` | Markdown tables | a written table can be read back |
| `SearchCursor.dfy` | typed search with look-ahead | following the cursor shows every match |
| `ProgressList.dfy` | the merged, paged and grouped progress list | unique, complete, partitioned |
| `ImageCache.dfy` | the size-bounded image cache | the tracked size is the present size, shortest prefix |
| `Fulfillment.dfy` | the statistics ledgers and the estimate | newest samples, latest answers, the median |
| `WashBridge.dfy` | the wash bridge's dispatch ledger, run after run | nothing lost, one call per refusal or death and one more, remembered requests never again |

`Basics`, `Tally`, `Admissions`, `Text` and `Sorting` hold what several of them share: the clock,
counting over sequences, how many admissions an interval can hold, and the string and sort
functions of Go's standard library.

How the model takes the code's form: an object whose methods update its fields is a class, and each
method is proved against a function of the old state, about which the lemmas then speak. Code that
runs in several goroutines is a state machine whose steps are the single mutex, channel and field
operations; the lemmas speak about every interleaving of any number of callers. Instants are
integers in nanoseconds; loops over a Go map take the keys in an arbitrary order. I/O is a
parameter: whether a save succeeds, what the clock reads, what the upstream answers.

## What the code does otherwise than it says

- `CarpoolService.load` (internal/services/carpool.go:144-149) means to rewrite old keys
  `tv:<id>` only, but files every show key that it can parse under season 0. A restart keeps who
  waits for a title (`ReloadKeepsTitles`) and forgets for which season (`ReloadForgetsSeasons`).
  `LoadKeyOfTitle` says which titles are renamed: a season of a show with a positive id. So the
  entries that the service has written survive unchanged exactly if nobody waits for such a season
  (`ReloadByTitles`); among arbitrary keys the old ones `tv:<id>` are renamed too. The total of
  `CountAll` is kept exactly if nobody waited for two seasons (`ReloadCountsOnce`). Which metadata
  record stays may depend on the order of the map; `MetadataOrder` says exactly when.
- The comment at internal/bot/poll.go:114-118 promises that an unfinished update is delivered and
  handled again after a crash. The filter notes an update, and may save it, before its handler
  runs. `CrashVerdict` says what becomes of one that was in hand, over every run of the next
  process: it is handled exactly if the process is asked about it when the file no longer has it
  unexpired; asked before that, the process refuses it and passes it (`CrashLosesUpdate` is a run
  that does). Without a crash, and from an empty ledger, the promise holds
  (`OffsetPassesHandledOnly`).
- `allowSubject` reads the clock before it waits for the lock (internal/miniapp/ratelimit.go:106-107),
  so its locked sections may work with readings in any order; `RunsAreTraces` shows that every order
  happens. A reading older than a full window opens a window of its own (`FullWindowAdmitsIff`), and
  a cleanup with an old reading drops buckets that it takes to be from the future. Callers that get
  the lock in the reverse order of their readings are all admitted, however many
  (`NoBoundForCallers`). What holds of a key, and when:
  - Its windows stay apart exactly if no section opens one with a reading before the end of the
    window before (`WindowsApartIff`). Then the bound holds (`TwiceTheLimit`), evictions or not. A
    section that finds its bucket opens a window early exactly if its reading is older than the
    bucket's window (`EarlyIff`), and exactly then its admissions no longer lie in windows apart
    (`HistoryApartIff`).
  - Cleanups and evictions are invisible exactly if no section misses a bucket whose window is not
    over (`CleanupIsInvisibleIff`), so while no window opens early.
  - What a refusal announces comes true exactly if the key's next window does not open before
    (`RetryKept`), so while no window opens early.
  - With a lifetime not below the window, no window opens early while the key is undisturbed: it is
    not evicted, and no reading is older than what the section goes by, which for a count is the
    start of the bucket's window, for a cleanup the bucket's last use, and without a bucket the last
    cleanup (`UndisturbedNeverEarly`). Readings may be swapped inside a window. Readings that never
    decrease are such readings (`OrderedIsUndisturbed`).
- `allowWebhookUpdate` replaces an expired window together with its in-flight count, so a user can
  occupy more than the four slots of internal/bot/webhook.go:49 (`FiveInFlight`). The record is
  true up to exactly such a replacement (`ExactUnlessReplaced`); without one four is the bound
  (`TrueOccupancy`), and any run with one can be turned into a run above four, while no run
  without one can (`OverflowIffReplaced`).
- The comment at internal/miniapp/server.go:687-690 promises that the cursor never leads to a page
  known to be empty. Results of unknown types are dropped only after the look-ahead, so the cursor of
  a search without a type leads to a page that shows nothing exactly if that page has no result of a
  known type (`CursorShowsNothingIff`; `PeopleShowNothing` is such a search).
- The whitelisted action `start_settings` begins with the prefix that `Parse` strips, so it is the
  one action that never survives `Parse(Format(...))` (`CallbackCodec.RoundTrip`).
- With a lifetime of idle buckets below the window, and only then, cleanups change the answers of an
  undisturbed key (`CleanupOpensEarlyIff`); the defaults are not so.
- The wash bridge does not look again at its memory within a run: a request listed twice is
  dispatched twice (`DispatchedAsOftenAsListed`, `ListedTwice`). YiMao's own ledger is a JSON object
  keyed by request id (internal/services/review.go:118), where that does not happen; the lists that
  the script also accepts (scripts/yimao_wash_bridge.py:21-24) can repeat a request. Where none is
  repeated, `CalledOncePerTrouble` counts the calls exactly. The script cuts the list at 25 before
  it drops what it remembers, so 25 remembered requests at the front starve the rest
  (`StarvesBehindRemembered`).
- A table row without cells is written as a row with one empty cell (`ReadRowLine`).

## Model

| member | source | states |
|---|---|---|
| RequestLocks.InvStep | internal/handlers/review.go:48-72 | every atomic step of any caller keeps the invariant: counts exact, each mutex owned by at most one caller, every live caller on the entry that the table has under its key, no stray entries |
| RequestLocks.MutualExclusion | internal/handlers/review.go:48-72 | in every reachable state at most one caller holds a key, however often its entry was deleted and created again |
| RequestLocks.KeysAreCalled | internal/handlers/review.go:48-72 | over every run the keys of the callers are, in order, the keys of the calls |
| RequestLocks.HoldersCalledApart | internal/handlers/review.go:48-72 | in every run callers that hold at once called with different keys |
| RequestLocks.BlockedByOwnKey | internal/handlers/review.go:48-72 | in every run a caller is blocked iff it waits for a lock that another caller of the same called key holds, or for the table mutex that another caller has in a short section |
| RequestLocks.RefsAreUsers | internal/handlers/review.go:48-87 | the table has an entry for a key iff some caller uses the key, all of them use that entry, its count is the number of callers waiting, holding or not yet uncounted, and is positive while the table mutex is free |
| RequestLocks.DeletedEntryIsFree | internal/handlers/review.go:62-68 | an entry that is no longer in the table is unlocked and counted by nobody |
| RequestLocks.DeletionTestSeesOwnEntry | internal/handlers/review.go:66-68 | whenever a caller tests for deletion, the table has the caller's own entry, so it is deleted iff nobody uses it |
| RequestLocks.CloseOnce | internal/handlers/review.go:59-71 | once a closure has begun, calling it again changes nothing at any later time |
| RequestLocks.ClosureReleases | internal/handlers/review.go:59-62 | the first call of a closure frees the lock at once: nobody holds the key, whoever waits for it can take it, and no other caller has moved |
| RequestLocks.SomebodyCanMove | internal/handlers/review.go:48-72 | the two levels of mutexes never deadlock |
| RequestLocks.Drains | internal/handlers/review.go:48-72 | without new calls the moves left are exactly the work left; the callers get stuck only when it is used up, and then the table is empty and every mutex free |
| RequestLocks.CanDrain | internal/handlers/review.go:48-72 | from every state of the invariant the present callers can empty the table |
| RequestLocks.RequestLockTable.constructor | internal/handlers/review.go:44-46 | a new table is the initial table of the protocol |
| RequestLocks.RequestLockTable.Enter | internal/handlers/review.go:49-56 | the section of `lock` finds or creates the entry and counts the caller, as the protocol's two steps do |
| RequestLocks.RequestLockTable.Leave | internal/handlers/review.go:64-69 | the section of the closure uncounts the caller and deletes the entry iff it is idle and still the table's |
| RequestLocks.RequestLockTable.Count | internal/handlers/review.go:74-78 | the number of entries |
| RequestLocks.RequestLockTable.References | internal/handlers/review.go:80-87 | the count of the key's entry, 0 without one |
| Dedup.AgreeStep | internal/api/router.go:81-104 | one operation of either filter, or a crash, keeps table and file in agreement with a log that never forgets, and the filter refuses iff the log has a recent acceptance |
| Dedup.PruningIsInvisible | internal/bot/poll_dedup.go:98-128 | over every run of questions, sweeps, failed saves and crashes the answers are those of the log that never forgets |
| Dedup.ProcessIsLog | internal/bot/poll_dedup.go:51-128 | every process, started with any file from the past or with none, answers in every run as the log that begins with the entries of that file |
| Dedup.RefusedStep | internal/bot/poll_dedup.go:98-128 | within a process a key is refused exactly before one instant, which only an acceptance moves, to a lifetime later |
| Dedup.AcceptedFor | internal/bot/poll_dedup.go:98-110 | an acceptance refuses its key for exactly the lifetime from its instant, and leaves what is refused of every other key |
| Dedup.SweepDrops | internal/bot/poll_dedup.go:113-128 | a sweep drops exactly the keys accepted more than a lifetime ago |
| Dedup.MarkDrops | internal/api/router.go:92-99 | a new body drops exactly the other bodies marked a lifetime ago or more |
| Dedup.NotWrittenWithin | internal/bot/poll_dedup.go:80-110 | within 30 seconds of the last save an operation that loses no key leaves file and save time alone |
| Dedup.WrittenWhenDue | internal/bot/poll_dedup.go:105-109 | an acceptance 30 seconds after the last save or later, or without one, writes the whole table in whole seconds if its save succeeds |
| Dedup.WrittenWhenDropped | internal/api/router.go:92-103 | an operation that loses a key writes what is left if its save succeeds; one whose save fails writes nothing |
| Dedup.RestartThenWrites | internal/bot/poll_dedup.go:51-110 | the first acceptance of a restarted process writes the file, whenever the last one did |
| Dedup.WritesThrottled | internal/bot/poll_dedup.go:80-128 | over any run that loses no key, any two writes of the file lie at least 30 seconds apart |
| Dedup.LoadDropsExpired | pkg/dedupfile/dedupfile.go:30-36 | filtering on load, at whole seconds, keeps exactly the entries whose lifetime is not over at the nanosecond; all without a lifetime |
| Dedup.DurableRun | internal/bot/poll_dedup.go:80-110 | over every run each remembered key is in the file, rounded down, or newer than the last save; with saves that succeed, newer by less than 30 seconds |
| Dedup.RestartRemembers | internal/bot/poll_dedup.go:61-77 | after a crash a key is refused exactly while the file has it and its lifetime since the noted second is not over |
| Dedup.CrashLosesRecentOnly | internal/bot/poll_dedup.go:61-110 | with saves that succeed, a crash loses no remembered key but ones accepted less than 30 seconds after the last save |
| Dedup.StepKeys | internal/bot/poll_dedup.go:98-128 | no operation adds a key but the one that it asks about, to the table or the file |
| Dedup.SavedSurvives | pkg/dedupfile/dedupfile.go:41-54 | after a successful save and a crash exactly the saved keys are refused, each for its lifetime since the whole second of its acceptance; a failed save makes no difference |
| Dedup.LedgerFile.ReadRecent | pkg/dedupfile/dedupfile.go:20-38 | exactly the entries younger than the lifetime, in whole seconds; all without a lifetime |
| Dedup.UpdateDeduper.constructor | internal/bot/poll_dedup.go:51-78 | a lifetime of ten minutes unless a positive one is given, and the state of a process restarted from the file |
| Dedup.UpdateDeduper.SaveLocked | internal/bot/poll_dedup.go:81-94 | the file becomes the table in whole seconds, or nothing changes |
| Dedup.UpdateDeduper.Accept | internal/bot/poll_dedup.go:98-110 | new iff not remembered, and the state after the step, throttled save included |
| Dedup.UpdateDeduper.Prune | internal/bot/poll_dedup.go:113-128 | the state after the sweep and the number of keys dropped |
| Dedup.WebhookDedup.constructor | internal/api/router.go:50-63 | the state of a process restarted from the file |
| Dedup.WebhookDedup.SaveLocked | internal/api/router.go:66-79 | the file becomes the table in whole seconds, or nothing changes |
| Dedup.WebhookDedup.Mark | internal/api/router.go:81-104 | new iff not marked in the last 24 hours; after a new body every stored entry is inside the window; the state after the step |
| Delivery.InvStep | internal/bot/poll.go:98-141 | every step keeps the invariant: slots and wait group count the workers exactly, and every id considered or in the ledger is handled, inherited or in hand |
| Delivery.BoundedConcurrency | internal/bot/poll_dedup.go:154-193 | in every run, crashes and panics included, at most 20 handlers run at once |
| Delivery.WaitsWhenFull | internal/bot/poll_dedup.go:170-172 | the dispatcher waits for a slot exactly while twenty workers have one |
| Delivery.NothingElseWaits | internal/bot/poll_dedup.go:154-193 | an idle process takes any batch, a handler can end at any time, and the sweep and a crash can come at any time |
| Delivery.OffsetPassesHandledOnly | internal/bot/poll.go:114-140 | from an empty ledger without a crash, every id of a completed batch has a handler that ended, and with a server that returns only ids from the offset on the offset passes no other delivered id |
| Delivery.UnhandledIsInherited | internal/bot/poll.go:114-140 | from any ledger and over crashes, an unhandled id of a completed batch was in the file when the process that had accepted it died, or when the first process began |
| Delivery.OffsetAdvances | internal/bot/poll.go:119-124 | after a batch the offset is just behind an id of the batch, above every positive id in it; it stays iff the batch has no positive id |
| Delivery.OffsetConfirmsPassed | internal/bot/poll.go:114-124 | over every run of a process the offset is 0 or just behind an id of a completed batch, and so confirms no update beyond the completed batches |
| Delivery.PassedIsCompleted | internal/bot/poll.go:114-140 | over every run the passed ids are exactly those of the batches whose completion is among the steps |
| Delivery.InHandAtCrash | internal/bot/poll_dedup.go:98-110 | an update in hand at a crash is refused by the next process exactly while the file has it |
| Delivery.CrashVerdict | internal/bot/poll.go:114-121 | over every run of the next process, when no batch is under way, the handler of an update that was in hand at the crash has ended iff the process was asked about it when the file no longer had it unexpired |
| Delivery.AcceptancesApart | internal/bot/poll_dedup.go:98-110 | over every run of a process the acceptances of an id lie a lifetime apart, and there is one iff the filter was asked at or after the instant until which it refuses |
| Delivery.AtMostOncePerLifetime | internal/bot/poll_dedup.go:154-193 | in one process an id is accepted again only 24 hours later, and gets exactly one worker per acceptance |
| Delivery.LifeHandles | internal/bot/poll_dedup.go:161-192 | in one process exactly the accepted ids are in hand or have ended |
| Delivery.CrashLosesUpdate | internal/bot/poll.go:114-118 | a run in which the offset passes an update whose handler never ended, against the comment |
| Delivery.WorkDecreases | internal/bot/poll_dedup.go:161-192 | every step of a batch uses up work |
| Delivery.BatchNeverStuck | internal/bot/poll_dedup.go:161-192 | until a batch is complete some step can be taken: a full semaphore always has a worker that can free it |
| CarpoolKeys.RoundTrip | internal/services/carpool.go:36-72 | parsing a key gives back the normalised title iff the id is positive and the media type has no colon |
| CarpoolKeys.KeysInjective | internal/services/carpool.go:36-46 | two such titles share a key iff their ids and types are equal, an empty type being a movie, and for a show their seasons are, all below 1 being one |
| CarpoolKeys.LoadKeyTitle | internal/services/carpool.go:144-149 | the key under which `load` files an entry has the same title with a show's season replaced by 0, and filing again changes nothing |
| CarpoolKeys.LoadKeyOfTitle | internal/services/carpool.go:144-149 | a title is filed under its own key iff it is not a season of a show with a positive id |
| Carpool.MergeLists | internal/services/carpool.go:139-157 | the entries that `load` builds, whatever the order of the map |
| Carpool.PickMetadata | internal/services/carpool.go:158-166 | one of the records filed under each key |
| Carpool.CarpoolService.constructor | internal/services/carpool.go:97-168 | memory after loading the file, empty without a readable one |
| Carpool.CarpoolService.SaveLocked | internal/services/carpool.go:171-193 | a successful save makes the file record memory, a failed one changes nothing |
| Carpool.CarpoolService.AddWithMetadataChecked | internal/services/carpool.go:209-244 | keeps memory in agreement with the file; the new state on success; on failure users and metadata are exactly as before, but for a key without users that is dropped |
| Carpool.JoinAdds | internal/services/carpool.go:209-226 | after a join the users of the key are the old ones and the new one, every other key has its users, the record of the key is the given one if it says anything, and every other record stays |
| Carpool.CarpoolService.RemoveChecked | internal/services/carpool.go:265-292 | the same for leaving, including the last user of a key; nothing happens for a user who is not there |
| Carpool.LeaveRemoves | internal/services/carpool.go:265-278 | after leaving, exactly this user no longer waits under exactly this key, and key and record go exactly if nobody is left |
| Carpool.CarpoolService.GetAndClear | internal/services/carpool.go:387-414 | the users of the key, each once, and the key is gone; on failure nobody and nothing |
| Carpool.CarpoolService.ClearKeysLocked | internal/services/carpool.go:418-455 | returns the union of the selected keys, each user once, and drops exactly the ones in use; on failure everything is restored |
| Carpool.ClearRemoves | internal/services/carpool.go:418-440 | a clear empties exactly the given keys with their records |
| Carpool.ListingNamesOnce | internal/services/carpool.go:422-437 | a returned list names exactly the users of the set, each once |
| Carpool.CarpoolService.ArrivalSeasons | internal/services/carpool.go:459-473 | a season and the any-season key, or without a season every key of the title |
| Carpool.CarpoolService.GetArrivalMembers | internal/services/carpool.go:477-498 | the users that a successful `GetAndClearArrival` would return |
| Carpool.CarpoolService.GetAndClearArrival | internal/services/carpool.go:502-513 | empties the season and the any-season key and nothing else, metadata included |
| Carpool.SeasonArrives | internal/services/carpool.go:457-513 | when season s > 0 of a show arrives, exactly those who wait for s or for any season are returned, both keys are empty and every other key keeps its users |
| Carpool.TitleArrives | internal/services/carpool.go:457-513 | an arrival without a season, or of a movie, returns and empties exactly the any-season key |
| Carpool.CarpoolService.ClearArrival | internal/services/carpool.go:517-521 | empties exactly the cancelled keys and returns their users, each once |
| Carpool.SeasonCancelled | internal/services/carpool.go:457-521 | cancelling a season concerns exactly those who wait for it or for any season |
| Carpool.TitleCancelled | internal/services/carpool.go:457-521 | cancelling without a season empties every season of the title, returns whoever waited for one, and leaves every other title alone |
| Carpool.KeyOfTitle | internal/services/carpool.go:351-360 | a key belongs to a title iff it is the key of one of its seasons |
| Carpool.CarpoolService.GetAll | internal/services/carpool.go:351-369 | everybody waiting for any season of the title, each once |
| Carpool.CarpoolService.CountAll | internal/services/carpool.go:372-384 | the number of pairs of a key of the title and a user under it |
| Carpool.MembersSize | internal/services/carpool.go:351-384 | counting pairs and counting users agree iff nobody waits under two of the keys |
| Carpool.ReloadKeepsTitles | internal/services/carpool.go:121-193 | saving and loading keeps everybody who waits for a title |
| Carpool.ReloadForgetsSeasons | internal/services/carpool.go:144-149 | after loading nobody waits for a season of a show and everybody waits for any season |
| Carpool.ReloadCountsOnce | internal/services/carpool.go:144-157 | after loading the total of a show counts each user once, so it is kept iff nobody waited for two seasons |
| Carpool.ReloadIdentity | internal/services/carpool.go:139-157 | of any file, loading gives back the saved entries iff every key is filed under itself, and what was loaded is stable |
| Carpool.ReloadByTitles | internal/services/carpool.go:139-157 | of a file that the service wrote, loading gives back the saved entries iff it has no key of a season of a show |
| Carpool.ReloadAfterRun | internal/services/carpool.go:121-521 | so of every pool that any run of joins, leaves, clears and reloads builds from nothing |
| Carpool.InSyncSurvives | internal/services/carpool.go:121-193 | a service in agreement with its file finds after a restart what it had |
| Carpool.MetadataOrder | internal/services/carpool.go:158-166 | the loaded metadata depends on the order of the map iff two keys filed together have different records |
| Carpool.ReloadIsLoad | internal/services/carpool.go:139-157 | the reload of the run model is what loading a faithful file does |
| Carpool.ReturnedAtMostJoined | internal/services/carpool.go:209-521 | over any run, reloads included, a user is returned by clears no more often than newly added |
| CommandLimiter.Slice.Compact | internal/bot/command.go:172-177 | compacting in place keeps exactly the recent instants, in order |
| CommandLimiter.Slice.Append | internal/bot/command.go:182 | appends, in place or in a larger array |
| CommandLimiter.CommandThrottle.Check | internal/bot/command.go:166-185 | the user's log and the answer are those of one call of the specification, and no other user's log changes |
| CommandLimiter.RefinesHistory | internal/bot/command.go:166-185 | the history is that of the admitted calls in order, the log is exactly its last minute, and a call is refused iff that minute holds 60 |
| CommandLimiter.KeptCount | internal/bot/command.go:170-177 | of every instant the log keeps all admissions if it is less than a minute old and none otherwise |
| CommandLimiter.KeptSorted | internal/bot/command.go:170-177 | what is kept stays in order |
| CommandLimiter.NoMinuteOverLimit | internal/bot/command.go:161-185 | no minute of the full history ever holds more than 60 admissions |
| Admissions.AtMost | internal/bot/command.go:161-164 | in a log in time order an interval that never holds two admissions n apart holds at most n |
| Admissions.TwoWindows | internal/miniapp/ratelimit.go:117-138 | admissions counted by windows that do not overlap: an interval as long as a window holds at most twice the limit |
| MiniAppLimiter.Normalised | internal/miniapp/ratelimit.go:64-92 | the configuration in force is positive throughout and is the given one if that is |
| MiniAppLimiter.NormalisedEach | internal/miniapp/ratelimit.go:12-92 | every setting that is not positive is replaced by its default, 120 reads, 20 writes and 30 failures a minute, ten minutes and 10000 buckets, and every other is kept |
| MiniAppLimiter.UserRateLimiter.constructor | internal/miniapp/ratelimit.go:64-92 | an empty table under the normalised configuration |
| MiniAppLimiter.UserRateLimiter.AllowSubject | internal/miniapp/ratelimit.go:102-139 | answer and table of one call of the specification; the table never has more than the allowed number of buckets |
| MiniAppLimiter.UserRateLimiter.Cleanup | internal/miniapp/ratelimit.go:159-166 | drops exactly the idle buckets |
| MiniAppLimiter.UserRateLimiter.EvictOldest | internal/miniapp/ratelimit.go:168-180 | drops one bucket, one seen longest ago |
| MiniAppTraces.CleanupIsInvisibleIff | internal/miniapp/ratelimit.go:109-124 | over any trace all buckets and answers of a key are as if nothing were ever cleaned up or evicted iff no call of the key misses a bucket whose window is not over |
| MiniAppTraces.CleanupIsInvisible | internal/miniapp/ratelimit.go:109-111 | while no window of a key opens early, it gets the answers it would get without cleanups and evictions |
| MiniAppTraces.CleanupOpensEarlyIff | internal/miniapp/ratelimit.go:109-161 | some trace from the empty table has an undisturbed key whose answers cleanups change iff the lifetime is below the window |
| MiniAppTraces.WindowsApartIff | internal/miniapp/ratelimit.go:117-119 | over any trace, evictions included, the windows that a key opens stay apart iff none opens with a reading before the end of the one before |
| MiniAppTraces.EarlyIff | internal/miniapp/ratelimit.go:113-119 | a call that finds its bucket opens a window early iff its reading is older than the bucket's window; one that does not, iff it is before the end of the window that the bucket had |
| MiniAppTraces.HistoryApartIff | internal/miniapp/ratelimit.go:117-137 | a call that finds its bucket keeps the admissions in windows that do not overlap iff its reading is not older than the bucket's window |
| MiniAppTraces.TwiceTheLimit | internal/miniapp/ratelimit.go:117-138 | while no window of a key opens early, it gets at most its limit per window and at most twice its limit in any interval of a window's length |
| MiniAppTraces.ClassBounds | internal/miniapp/ratelimit.go:117-137 | the same bound with the limit of each class written out |
| MiniAppTraces.RefusedIffFull | internal/miniapp/ratelimit.go:117-137 | while no window opens early a call is refused iff its window is open and has had all the admissions of its class |
| MiniAppTraces.UnclassifiedIsFree | internal/miniapp/ratelimit.go:103-105 | a call without a class is admitted and changes nothing |
| MiniAppTraces.TidiedKeeps | internal/miniapp/ratelimit.go:109-166 | what a cleanup keeps is exactly what was last used less than a lifetime ago and not in the future |
| MiniAppTraces.SeenAtLastCall | internal/miniapp/ratelimit.go:116-138 | over every trace a bucket was last used at the reading of the last call with its key, admitted or refused |
| MiniAppTraces.EvictionIsLastResort | internal/miniapp/ratelimit.go:112-180 | only a new key in a full table evicts, one bucket, and one last used longest ago |
| MiniAppTraces.NoOldBuckets | internal/miniapp/ratelimit.go:109-111 | with readings that never decrease no bucket stays unused for two lifetimes |
| MiniAppTraces.UndisturbedNeverEarly | internal/miniapp/ratelimit.go:109-119 | with a lifetime not below the window, no window of an undisturbed key opens early |
| MiniAppTraces.OrderedIsUndisturbed | internal/miniapp/ratelimit.go:102-139 | with readings that never decrease, a key that is not evicted is undisturbed |
| MiniAppTraces.FullWindowAdmitsIff | internal/miniapp/ratelimit.go:117-137 | a full window that is not over admits a call iff its reading is older than the window, and then opens a new one |
| MiniAppTraces.ReversedAllAdmitted | internal/miniapp/ratelimit.go:106-137 | whatever limit and window, n calls with the readings n down to 1 are all admitted |
| MiniAppCallers.RunsAreTraces | internal/miniapp/ratelimit.go:102-139 | the sequences of locked sections of concurrent callers under a clock that never runs backwards are exactly the traces, with readings in any order |
| MiniAppCallers.CallsWereRead | internal/miniapp/ratelimit.go:106-113 | in every run a locked section works with the key and the reading with which some caller read the clock |
| MiniAppCallers.ReadingsAscend | internal/miniapp/ratelimit.go:106 | the readings never decrease in the order in which they are taken |
| MiniAppCallers.NoBoundForCallers | internal/miniapp/ratelimit.go:106-107 | for every n there is a run in which n callers with readings within n nanoseconds are all admitted |
| MiniAppTraces.RetryBounds | internal/miniapp/ratelimit.go:128-135 | every refusal announces a positive wait of at most a window, whatever the bucket and the reading |
| MiniAppTraces.RetryKept | internal/miniapp/ratelimit.go:128-135 | in every trace from an empty table a refusal announces when the key is admitted again, refused until then and admitted by the first call from then on, iff its next window does not open before; so while none opens early |
| MiniAppTraces.RetryIsHonest | internal/miniapp/ratelimit.go:117-135 | a full window refuses until it is over and then admits iff the key's next window does not open before |
| MiniAppLimiter.RetryAfter | internal/miniapp/ratelimit.go:196-201 | the header is at least one second, and the least number of seconds that covers the wait |
| WebhookLimiter.WebhookThrottle.Allow | internal/bot/webhook.go:73-102 | the answer, and the caller's window after the call; no other user's window changes but idle expired ones that are removed |
| WebhookLimiter.WebhookThrottle.Prune | internal/bot/webhook.go:86-92 | drops exactly the expired windows without updates in flight |
| WebhookLimiter.PruneDrops | internal/bot/webhook.go:86-92 | what a prune drops is over and idle, and everything else stays as it is |
| WebhookLimiter.AnonymousIsFree | internal/bot/webhook.go:73-76 | user 0 is not counted |
| WebhookLimiter.WebhookThrottle.Release | internal/bot/webhook.go:105-114 | one update less in flight in the user's window, never below zero, nobody else touched |
| WebhookLimiter.Bounds | internal/bot/webhook.go:46-114 | over every run of a user's events recorded in-flight is at most 4, at most the count and at most the truth, the count is at most 30, and a minute holds at most 60 admissions |
| WebhookLimiter.RefusedIff | internal/bot/webhook.go:81-98 | a call is refused iff the user's window is open and has had thirty admissions or has four updates in flight |
| WebhookLimiter.WindowOfMinute | internal/bot/webhook.go:78-114 | a window begins with a call and lasts a minute; an admitted update counts once and is in flight until it ends |
| WebhookLimiter.EveryUserRuns | internal/bot/webhook.go:73-114 | every run of the throttle over all users is, for each user, a run of that user's events, with the same window and admissions |
| WebhookLimiter.BoundsOfEveryUser | internal/bot/webhook.go:73-114 | so over every run of the throttle each user's window stays in its bounds and a minute holds at most 60 of the user's admissions |
| WebhookLimiter.PruneIsInvisible | internal/bot/webhook.go:86-92 | over every run, removing idle expired windows changes no answer |
| WebhookLimiter.ExactUnlessReplaced | internal/bot/webhook.go:81-84 | a step keeps the in-flight record true iff it does not replace an expired window that has updates in flight |
| WebhookLimiter.TrueOccupancy | internal/bot/webhook.go:49-101 | as long as no busy window is replaced a user occupies at most four slots |
| WebhookLimiter.BurstOverflowsIff | internal/bot/webhook.go:81-101 | from a state with a true record four calls at once take the user above four slots iff they find a busy window to replace |
| WebhookLimiter.OverflowIffReplaced | internal/bot/webhook.go:81-101 | a run can be turned into one above four slots, by repeating one of its calls on the spot, iff it replaces a busy window |
| WebhookLimiter.FiveInFlight | internal/bot/webhook.go:81-84 | a run with five updates of one user in flight |
| CallbackCodec.Parse | internal/callback/types.go:311-374 | the specified result for every input, errors included |
| CallbackCodec.ParseOutcome | internal/callback/types.go:311-362 | empty data, undecodable JSON and unknown actions are the three errors, each exactly then; the action of the colon form is the first part without `start_` |
| CallbackCodec.LastValueCounts | internal/callback/types.go:364-371 | the value of a parameter is that of the last pair with its key |
| CallbackCodec.ParamsHaveKeys | internal/callback/types.go:364-371 | a parameter is there iff a pair has its key |
| CallbackCodec.LegacyButton | internal/callback/types.go:340-362 | an old button `start_<action>` means the action, and a bare action means itself, except `start_settings` |
| CallbackCodec.BuiltActionsAreValid | internal/callback/types.go:526-580 | the actions for which callback data are built are whitelisted |
| CallbackCodec.PairUp | internal/callback/types.go:364-371 | the parts after the action as alternating keys and values, the last value of a key counting |
| CallbackCodec.FormatColon | internal/callback/types.go:404-421 | the action and the pairs in ascending order of keys, joined by colons |
| CallbackCodec.SortedKeys | internal/callback/types.go:411-415 | the keys of the map, each once, ascending |
| CallbackCodec.LessIff | internal/callback/types.go:410-415 | one key sorts before another iff it is a proper prefix or smaller at the first difference |
| CallbackCodec.FormatsOnce | internal/callback/types.go:410-420 | the formatted data depends on the contents of the map alone |
| CallbackCodec.PlainActions | internal/callback/types.go:60-202 | no whitelisted action is empty, has a colon or looks like JSON, and only `start_settings` has the stripped prefix |
| CallbackCodec.RoundTrip | internal/callback/types.go:311-421 | for a whitelisted action, parsing what was formatted gives action and parameters back iff keys and values have no colon and the action is not `start_settings` |
| CallbackCodec.FormatInjective | internal/callback/types.go:404-421 | on colon-free data equal texts mean equal actions and parameters |
| TableText.EscapeTableCell | internal/richmessage/richmessage.go:66-70 | line breaks become spaces and every special character is escaped |
| TableText.EscapeTableCells | internal/richmessage/richmessage.go:72-78 | the same for every cell of a row |
| TableText.Builder.Table | internal/richmessage/richmessage.go:121-148 | appends the rendered table, nothing without headers |
| TableText.EscapeUnescape | internal/richmessage/richmessage.go:42-64 | dropping the backslashes gives the text back |
| TableText.EscapeEscapesAll | internal/richmessage/richmessage.go:42-64 | no special character is left bare, and one backslash is added for each and nothing else |
| TableText.ReadRowLine | internal/richmessage/richmessage.go:139-144 | splitting a row line at its unescaped bars, dropping the padding and unescaping gives its cells back iff it has a cell |
| TableText.RowIsOneLine | internal/richmessage/richmessage.go:66-70 | a row has no line break inside |
| TableText.TableLines | internal/richmessage/richmessage.go:127-146 | the text is a header line, a rule, one line per row and an empty line |
| TableText.RuleColumns | internal/richmessage/richmessage.go:133-137 | the rule has one column for each header |
| TableText.NoHeadersNoTable | internal/richmessage/richmessage.go:122-126 | the text is empty iff there are no headers |
| TableText.TableReadsBack | internal/richmessage/richmessage.go:121-148 | from the whole text headers and rows can be read back |
| SearchCursor.HandleSearch | internal/miniapp/server.go:655-721 | the response that following the cursor is about: the page's matching results under canonical types, an error iff the page fails, and the cursor of the page |
| SearchCursor.LookAhead | internal/miniapp/server.go:691-719 | finds the first later page with a match over full pages without one, within 3 pages (1 without a type) |
| SearchCursor.FilterSearchResults | internal/miniapp/server.go:808-817 | the items of the type, in order |
| SearchCursor.OnlyKindCount | internal/miniapp/server.go:808-817 | every item of the type is kept as often as it was there, and no other |
| SearchCursor.CanonicalNames | internal/miniapp/server.go:784-793 | the names of the two types, in any case, and that other names have none |
| SearchCursor.BlanksAround | internal/miniapp/server.go:681-786 | white space around a name makes no difference |
| SearchCursor.TypesAreTwo | internal/miniapp/server.go:681-793 | a type is one of two, and the type of a query is a canonical one |
| SearchCursor.NormalizeSearchResultTypes | internal/miniapp/server.go:795-806 | the items of a known type, in order, under its canonical name |
| SearchCursor.NextIsUnique | internal/miniapp/server.go:687-719 | there is one page that a cursor can point to |
| SearchCursor.ResponseShape | internal/miniapp/server.go:667-720 | an error iff the page fails; a cursor only from a full page, to one of the next three; the next page is 0 without one |
| SearchCursor.LooksPastFull | internal/miniapp/server.go:705-716 | the search looks past a page without a match iff that page is full |
| SearchCursor.GivesUpAfterThree | internal/miniapp/server.go:691-719 | the search gives up over exactly three full pages without a match, one without a type |
| SearchCursor.CrawlShowsAll | internal/miniapp/server.go:687-720 | the responses along the cursor together show what is shown of all matching items up to where it ends, in order, none skipped and none repeated |
| SearchCursor.TypedShown | internal/miniapp/server.go:795-817 | of the items of the wanted type every one is shown, in order, under that type |
| SearchCursor.UntypedShown | internal/miniapp/server.go:795-806 | without a type everything is shown iff every item is of a known type, and nothing iff none is |
| SearchCursor.CursorShowsNothingIff | internal/miniapp/server.go:687-720 | the cursor leads to a page that shows nothing iff the search has no type and the page has no item of a known type |
| SearchCursor.PeopleShowNothing | internal/miniapp/server.go:687-720 | a search whose cursor does, against the comment |
| SearchCursor.NoCursor | internal/miniapp/server.go:691-719 | without a cursor nothing is left, or the pages in reach are full and have no match |
| SearchCursor.CrawlComplete | internal/miniapp/server.go:687-720 | from page 1 the client sees every item of the wanted type, or of a known type without one, unless three full pages in a row have no match for the type |
| ProgressList.MergePendingReviews | internal/handlers/menu.go:551-631 | the merged list for every combination of services |
| ProgressList.MarkConfirmed | internal/handlers/menu.go:558-567 | in place, exactly the confirmed items become completed |
| ProgressList.LineGroup | internal/handlers/menu.go:585-606 | where each kind of review lands: completed ones among the finished, rejected or withdrawn washes and failed requests among the problems, all others in progress |
| ProgressList.IssueGroup | internal/handlers/menu.go:621-628 | an issue lands among the finished iff it was fixed or closed, otherwise in progress |
| ProgressList.StateGroups | internal/handlers/menu.go:398-407 | the states of each group |
| ProgressList.AddReviews | internal/handlers/menu.go:577-618 | the lines of the chosen reviews, in order |
| ProgressList.KeyInjective | internal/handlers/menu.go:574-581 | keys tell business, id and season apart |
| ProgressList.ChosenEligible | internal/handlers/menu.go:579-606 | only eligible reviews get a line, and none whose key MoviePilot has |
| ProgressList.ChosenUnique | internal/handlers/menu.go:579-617 | no two local lines have one key |
| ProgressList.ChosenComplete | internal/handlers/menu.go:579-617 | the key of every eligible review has a line |
| ProgressList.MoviePilotIsSuffix | internal/handlers/menu.go:556-630 | MoviePilot's items end the list in their order; with a review service exactly the confirmed ones are shown as completed, and nothing else of any is changed |
| ProgressList.LocalLinesFirst | internal/handlers/menu.go:576-630 | before them come the lines of the chosen reviews and then one line for each issue, in order |
| ProgressList.MoviePilotHas | internal/handlers/menu.go:571-581 | MoviePilot stands for a review iff that is a request for the title and season of one of its items |
| ProgressList.LineShowsReview | internal/handlers/menu.go:607-615 | a line has the title of the review, marked for a wash, and its kind, season and id |
| ProgressList.LineState | internal/handlers/menu.go:584-606 | the state of a line tells approved washes, approved requests, withdrawn, failed and completed reviews apart, each exactly then |
| ProgressList.NoLineFor | internal/handlers/menu.go:581-593 | no line for a request that was handed over, rejected or withdrawn |
| ProgressList.LineForOther | internal/handlers/menu.go:581-617 | a line for every other review, unless its key has one |
| ProgressList.IssueLinesApart | internal/handlers/menu.go:620-628 | the line of an issue tells its number and its title |
| ProgressList.PagesPartition | internal/handlers/menu.go:340-395 | every item is on exactly one page, ten to a page, and no page is empty |
| ProgressList.Clamp | internal/handlers/menu.go:345-350 | a page that there is stays, any other becomes the nearest |
| ProgressList.GroupPage | internal/handlers/menu.go:390-429 | the groups hold exactly the items of the page shown, each in the one group of its state, in order |
| ImageCache.DropExpired | internal/services/image_cache.go:435-460 | tracks exactly the unexpired files with their total and removes the expired ones that it can |
| ImageCache.FirstPassTracks | internal/services/image_cache.go:435-460 | the first pass tracks a readable file as often as it is there iff it is not older than the maximum age, and no directory |
| ImageCache.FirstPassRemoves | internal/services/image_cache.go:444-455 | it removes exactly the older ones that can be removed |
| ImageCache.EvictOldest | internal/services/image_cache.go:464-475 | goes oldest first to the first point where the rest fits, counting only what was removed |
| ImageCache.OldestGoFirst | internal/services/image_cache.go:464-475 | no file that the second pass has gone by is newer than one that it has not |
| ImageCache.Cleanup | internal/services/image_cache.go:416-475 | the directory and tracked size after both passes; the second only over budget and with more than one file |
| ImageCache.ShortestPrefix | internal/services/image_cache.go:462-475 | if removals succeed, the shortest oldest-first prefix whose removal fits the budget is dropped |
| ImageCache.TrackedSizeIsPresent | internal/services/image_cache.go:435-477 | whatever removals fail, the final tracked size is the total of the unexpired files still present |
| Fulfillment.FulfillmentStats.AddSample | internal/services/fulfillment_stats.go:186-202 | appends a valid sample and keeps the newest 400 |
| Fulfillment.SampleTaken | internal/services/fulfillment_stats.go:186-202 | a sample is taken iff it has a type and a duration of at most 180 days, and then is the last of at most 400 |
| Fulfillment.NewestIsEnd | internal/services/fulfillment_stats.go:195-200 | what is kept of a ledger is its end |
| Fulfillment.FulfillmentStats.AddCompletion | internal/services/fulfillment_stats.go:134-150 | appends a valid completion of a new request and keeps the newest 5000 |
| Fulfillment.CompletionTaken | internal/services/fulfillment_stats.go:134-150 | a completion is taken iff it has an id, a title and an instant and its request is not there, and then is the last of at most 5000 |
| Fulfillment.FulfillmentStats.AddWatchFeedbackTitled | internal/services/fulfillment_stats.go:249-274 | overwrites the request's answer or appends it and keeps the newest 500 |
| Fulfillment.AnswerTaken | internal/services/fulfillment_stats.go:249-274 | an answer with an id and a text becomes the answer of its request, with its title unless that is empty |
| Fulfillment.FulfillmentStats.WatchFeedbackCounts | internal/services/fulfillment_stats.go:291-299 | for every answer that occurs, how often |
| Fulfillment.FulfillmentStats.Estimate | internal/services/fulfillment_stats.go:207-232 | the median of the samples of the same age, or of the type, and nothing below three |
| Fulfillment.PickedSamples | internal/services/fulfillment_stats.go:207-226 | three samples of the same age are enough, otherwise all of the type are drawn on |
| Fulfillment.DurationsOfSamples | internal/services/fulfillment_stats.go:207-226 | the durations drawn on are those of the samples of the type, and of the age |
| Fulfillment.MedianIsUnique | internal/services/fulfillment_stats.go:229-230 | there is one such median, so sorting does not matter |
| Fulfillment.SamplesAreNewest | internal/services/fulfillment_stats.go:187-200 | over any history the ledger is the newest 400 of the accepted samples |
| Fulfillment.FeedbackIsLatest | internal/services/fulfillment_stats.go:250-273 | over any history no request is there twice, at most 500 are, and each with its latest answer |
| Fulfillment.CompletionsUnique | internal/services/fulfillment_stats.go:133-148 | over any history no request is in the completion ledger twice, and at most 5000 are |
| Fulfillment.RepeatUntilEvicted | internal/services/fulfillment_stats.go:133-148 | repeating a completion changes nothing until 5000 newer ones have been added, and, if it was not repeated meanwhile, exactly until then |
| Fulfillment.CountsSumToLength | internal/services/fulfillment_stats.go:291-299 | the counts add up to the length of the ledger |
| WashBridge.ListEligible | scripts/yimao_wash_bridge.py:28-36 | the first 25 eligible records, in order |
| WashBridge.EligibleIsMovieWash | scripts/yimao_wash_bridge.py:28-36 | what makes a record eligible, field by field |
| WashBridge.IdsCompose | scripts/yimao_wash_bridge.py:28-36 | which characters an id is made of: two ids with a mark between them are an id iff the mark is one of four or alphanumeric |
| WashBridge.CandidatesAreFirst | scripts/yimao_wash_bridge.py:28-36 | the candidates are the first 25 eligible records |
| WashBridge.Execute | scripts/yimao_wash_bridge.py:74-102 | state file, board and exit code of one run, for every outcome of every dispatch, dying included |
| WashBridge.Scan | scripts/yimao_wash_bridge.py:93-102 | the same for the dispatch loop |
| WashBridge.DeclinedRun | scripts/yimao_wash_bridge.py:74-89 | a run without input, with a damaged file, a bootstrap over a file and an ordinary run without one change nothing |
| WashBridge.RunCallsPending | scripts/yimao_wash_bridge.py:80-102 | a run calls for eligible records of its input that are not remembered, in order, and for all of the first 25 unless it dies |
| WashBridge.NothingLost | scripts/yimao_wash_bridge.py:59-102 | over any runs the state file stays readable, what it remembers has a task or was skipped by the bootstrap, and what was skipped is never dispatched |
| WashBridge.NothingLostFromFresh | scripts/yimao_wash_bridge.py:59-102 | the same from the very first run on |
| WashBridge.CalledOncePerTrouble | scripts/yimao_wash_bridge.py:93-102 | over any runs whose inputs list no request twice, a request is called exactly once for each refusal or death, and once more iff it came to be remembered |
| WashBridge.CalledAtMostOnce | scripts/yimao_wash_bridge.py:59-102 | so from the first run on a request is called at most once, and once more for each refusal or death |
| WashBridge.RememberedOnce | scripts/yimao_wash_bridge.py:93-98 | what is remembered is never dispatched again in any later run |
| WashBridge.DispatchedAsOftenAsListed | scripts/yimao_wash_bridge.py:80-98 | in a run that does not die, a request that is not remembered is dispatched as often as it is listed among the candidates |
| WashBridge.ListedTwice | scripts/yimao_wash_bridge.py:20-98 | any eligible record listed twice is dispatched twice |
| WashBridge.StarvesBehindRemembered | scripts/yimao_wash_bridge.py:80-93 | a run dispatches nothing iff it remembers its first 25 eligible requests |

## Left out

- Telegram, MoviePilot, Emby, TMDB and the task board beyond success and failure, HTTP handlers and JSON: I/O. A file that cannot be read or parsed is the case without a file.
- Clocks that run backwards, in the parts that read the clock under their lock: the branches are modelled, the lemmas over runs assume readings that never decrease. The Mini App limiter reads before it locks, and nothing is assumed of its readings. Overflow of durations is not modelled.
- Integers are unbounded; only `strconv.Atoi` checks its 64-bit range, and the key round trips are for numbers in that range.
- Strings are sequences of characters. The order of keys is by characters, which for UTF-8 is the order by bytes. Case folding of result types covers the letters whose small form is an ASCII letter; no type name has another.
- Ledger keys are the update ids and the fingerprints themselves: their decimal and hexadecimal spelling, and SHA-256, are left out.
- A call without a semaphore, wait group or filter in `dispatchUpdates`, which polling never makes.
- A second call of a closure waits in `sync.Once` until the first has finished; in the model it returns at once, without effect in both.
- SearchCursor.NormalizeSearchResultTypes: on values; the original overwrites its argument in place, which no caller uses afterwards.
- Unstable sorting: where several cache files have one modification time, or several buckets were last seen at one instant, the model allows any order.
- MiniAppTraces.TwiceTheLimit: while no window of the key opens early; without that there is no bound (`ReversedAllAdmitted`). An eviction, which happens only when the table is full, opens one early if the key calls again within its window.
- SearchCursor.CrawlComplete: over an upstream that does not change between requests and does not fail; a changing one can repeat or hide items between pages.
- Rendering of lines, keyboards and cards, and the wishes that follow the merged list.
- The dates, years and ids of progress items, and the records of `GetUserRequests`, which is not part of this model.
- `Get`, `Contains` and `ListForUser` of the carpool ledger, and the title lists and files of the statistics: easy.
- The one clock reading per file in the image cache: the model reads the clock once for the pass.
- The text normalisation, message body and command line of the wash bridge, and a bootstrap whose save fails, which changes nothing.
- `ReviewService`, `QuotaService`, `WishService`, sessions, configuration, HMAC checks and network guards.

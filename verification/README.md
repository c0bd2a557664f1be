# Verified model of the ERP kernel

This project models the stateful core of a multi-tenant ERP kernel and proves what that core promises.
Each component is a state machine over the transactions the code commits, so that every interleaving of
workers, nodes, clients and crashes is a run, and each method of the code that changes state is a Dafny
method proved against the step of that machine it takes. `dafny verify dfyconfig.toml` checks everything.

A transaction is one atomic step. Clocks, random identifiers and the outcome of handlers are parameters.
A property that the code does not meet in full is proved with the exact condition under which it holds,
or with the premise it needs and a concrete run that breaks it without that premise.

## Components

- **Change feed** (`Ordering`, `ChangeFeed`, `FeedReader`, `FeedStore`, `Replica`). Writers take a
  per-tenant lock, draw a feed id, commit later. A reader that follows the returned cursor misses
  nothing; a replica that hydrates from a racy snapshot and then follows the feed converges.
- **Jobs** (`Calendar`, `Cron`, `CronParse`, `Text`, `Jobs`, `Schedules`). The queue with leases,
  retries and dead letters; the calendar search behind cron; schedules advanced by compare-and-set.
- **Automations** (`Automations`, `ExactlyOnce`). Any number of nodes deliver the feed from one stored
  cursor.
- **Money** (`Int64`, `Arith`, `Allocate`, `RatioOverflow`, `Rounding`, `Decimal`). Largest-remainder allocation in
  64-bit integers, exact rounding and conversion, printing and parsing.
- **Event store** (`EventStore`, `Streams`). Optimistic append with command replay; upcasting;
  snapshots.
- **Metadata** (`Schema`, `Evolution`, `Overlay`, `OverlayAgreement`, `OverlayRemoval`, `Sorted`,
  `OverlayStore`, `OverlayRaces`, `RowRepr`).
  Additive schema evolution, stacks of customization layers, and the row that stores a record.
- **Idempotent writes and capabilities** (`Idempotency`, `Capability`). Reserve, execute, finalize;
  the dependency closure and the enabled set.

## Where the code falls short of its comments

The model follows the code. Each of these is a lemma.

- A snapshot page is read before its mark (`internal/app/sync.go:290`, `:296`). A change committed
  between the two is on neither the page nor past the mark, and the caught-up replica stays stale
  (`Replica.TornSnapshotLosesChange`). That happens exactly when a row the page covers has changed by
  the time the mark is read (`Replica.TornExactly`, `Replica.PageStaysCurrent`); otherwise, and in the
  mark-first order always, hydration converges.
- The five-year cron window is said to cover every expression. 29 February crosses an eight-year gap at
  a non-leap century year and is reported as never firing (`Cron.LeapOnlyMissed`,
  `Cron.CenturyGapExample`). The day rule the comment credits to POSIX is taken as `matchesDay` has it.
- A step close to the largest 64-bit integer wraps the loop variable of the field parser, which then
  indexes below zero (`CronParse.HugeStepPanics`, `CronParse.HugeStepExample`).
- `Fail` does not check the lease, so a worker that lost its lease revives a job that another one
  completed (`Jobs.StaleFailRevives`), exactly below the attempt limit (`Jobs.CompletedRevivedExactly`).
  The limit counts recorded failures only: a job whose worker always dies is never dead-lettered
  (`Jobs.CrashLoop`). It bounds attempts exactly when no claim takes a job whose last allowed attempt
  never reported back (`Jobs.AttemptLimitExactly`).
- A schedule upsert on a node whose clock is behind a firing already won can arm it again
  (`Schedules.SlowClockFiresTwice`). The rows stay ahead of what has been won exactly when each upsert
  computes a later firing (`Schedules.RunAheadExactly`); for an expression installed again, exactly when
  the clock is not behind the last firing (`Schedules.PromptExactly`). Two jobs may then be queued under
  one key, for the unique index is per kind and the dead-lettered are out of it
  (`Schedules.SecondJobExactly`, `Schedules.SlowClockTwoJobs`). Re-syncing automations drops a firing that
  is due and not yet ticked (`Schedules.SyncKeepsFiring`), and one expression that never fires loses the
  owner's rows from that one on (`Schedules.SyncLeavesExactly`).
- A lost cursor race is said to double-process one entry. `advanceCursor` does not report the loss, so
  the whole page can be processed twice (`Automations.WholePageTwice`). An entry repeats exactly when a
  pass stands below what has been evaluated already (`ExactlyOnce.RepeatsExactly`); passes that do not
  overlap process each entry once (`ExactlyOnce.OnceEach`). Nothing is skipped.
- Allocation divides by the 64-bit sum of the ratios, which may wrap. Then the call is refused, or panics
  (`Allocate.OverflowingRatios`), or answers with parts that do not sum to the amount, one minor unit
  becoming 2^64 + 1 (`RatioOverflow.OneBecomesMany`). A call conserves exactly when its truncated shares
  leave between 0 and the largest int64 (`Allocate.InsideConservesExactly`, `Allocate.ConservesExactly`),
  and ratios conserve every amount exactly when their sum fits (`RatioOverflow.ConservesAllExactly`). The
  minimum int64 is conserved exactly when one part takes everything (`Allocate.MinimumAmount`).
- The minimum int64 prints with two signs when the currency has decimal places, and cannot be read back
  (`Decimal.PrintParse`, `Decimal.MinimumUnreadable`).
- Command ids are unique across tenants but looked up per tenant: a foreign command is a version
  conflict for good (`EventStore.ForeignCommandConflicts`). An expected version nobody has seen is
  accepted and leaves a gap (`EventStore.FutureVersionLeavesGap`).
- An index that was removed and is declared again is planned and then refused by the database
  (`Evolution.RedeclaredIndexFails`). A recorded version 0 counts as nothing applied and blocks every
  later one (`Evolution.ZeroBlocks`, `Evolution.ZeroBlocksForever`).
- Field names are not checked against the system columns. A core field of such a name is refused by the
  database (`Evolution.GenerateShape`, `Evolution.ApplyExactly`). An overlay field of such a name shares
  what a reader sees with the system value (`RowRepr.SystemKeyShadowed`, `RowRepr.LiveLooksArchived`), and
  the first update that rewrites the blob stores the system value into it, though nobody set it: one
  called updated_at shows the old time until an update names it (`RowRepr.SystemValueFreezes`). When the
  system value is still what a reader sees is `RowRepr.SystemAfterCreate` and `RowRepr.SystemAfterUpdate`.
- Deletions are not checked. One leaves a stack that does not resolve exactly when a layer that stays
  narrows a field the deleted one added (`OverlayStore.DeletionExactly`, `OverlayStore.DeletingBelowBreaks`).
  Two checked saves whose writes interleave leave a stack that resolves exactly when the upper layer takes
  nothing back from the lower one and the lower one still declares what the upper one narrows of the layer
  it replaces (`OverlayRaces.EveryInterleaving`, `OverlayRaces.InterleavedSavesBreak`).
- A handler that writes nothing is shown as 200 but recorded as a failure: its key is freed and a retry
  runs it again (`Idempotency.ShownSuccessKeptExactly`, `Idempotency.SilentHandlerRunsAgain`).
- The reverse-dependency check skips kernel modules, so it is enough exactly when no enabled kernel
  module depends on the one being disabled (`Capability.ImpactIsEnough`, `Capability.KernelCanBreak`).

## Model

| member | source | states |
|---|---|---|
| ChangeFeed.ApplyKeepsFresh | kernel/changefeed/feed.go:71-97 | every step keeps ids below the sequence, staged ids unused by the feed and by other transactions, and staged entries in their transaction's tenant |
| ChangeFeed.ApplyKeepsLocked | kernel/changefeed/order.go:53-63 | with the ordering lock, a transaction that has drawn an id holds its tenant's lock until it ends, whatever keys collide |
| ChangeFeed.SettledStays | kernel/changefeed/order.go:15-63 | a position no open transaction of the tenant can still commit under stays so: nothing is ever committed at or below it, and what is committed never changes |
| ChangeFeed.ApplyKeepsOrdered | kernel/changefeed/order.go:15-63 | with the lock, commit order is id order: every committed position is settled |
| ChangeFeed.ApplyKeepsInv | kernel/changefeed/order.go:15-63 | the feed's invariant survives every step, with and without the lock |
| FeedReader.HighWaterSettled | kernel/changefeed/feed.go:182-199 | the high-water mark is a position below which the tenant's feed cannot change any more |
| FeedReader.PageCovers | internal/app/sync.go:136-172 | a page lists exactly the in-scope entries between the old and the returned cursor, also when a short page jumps to the mark |
| FeedReader.ResumeSettled | internal/app/sync.go:136-172 | the returned cursor is settled, because the mark was read before the page |
| FeedReader.StepKeepsReaderInv | internal/app/sync.go:108-184 | every writer step, mark and poll keeps the reader exact: seen is the committed in-scope feed up to the cursor, once each, ascending |
| FeedReader.NothingStranded | internal/app/sync.go:130-172 | over every interleaving of writers and reads, a reader that follows the cursor has seen each committed in-scope entry up to it exactly once, in ascending id order |
| FeedReader.StartsAreSettled | internal/app/sync.go:260-313 | the two positions a client starts from, 0 and a high-water mark, satisfy the reader's invariant |
| FeedReader.ShortPageCatchesUp | internal/app/sync.go:160-172 | after a short page the reader has seen everything in scope that was committed when the page was read |
| FeedReader.CycleStaysDrained | internal/app/sync.go:108-184 | once everything is seen, the next request finds nothing more |
| FeedReader.PollingDrains | internal/app/sync.go:108-184 | with writers at rest, as many polls as there are unread entries and one more drain the scope, at any legal page size |
| FeedReader.PassedIsGone | internal/app/sync.go:130-172 | an id the cursor has passed without showing is never shown again, which is what makes stranding permanent |
| FeedReader.UnlockedRunStrands | kernel/changefeed/order.go:15-52 | without the lock there is a run in which a committed entry lies at or below the cursor and was never seen |
| FeedReader.OutOfOrderCommit | kernel/changefeed/order.go:15-52 | without the lock the second of two writers can commit its larger id first |
| FeedStore.Store.Append | kernel/changefeed/feed.go:71-97 | takes the tenant's lock, then draws an id and stages exactly the entry under it; waits exactly as the lock says; refuses exactly an empty tenant or an incomplete entry, and then changes nothing |
| FeedStore.Store.Commit | kernel/changefeed/order.go:53-63 | publishes every staged entry and releases the transaction's lock |
| FeedStore.Store.Rollback | kernel/changefeed/order.go:53-63 | drops the staged entries and the lock; the feed is untouched |
| FeedStore.Store.ReadHighWater | kernel/changefeed/feed.go:182-199 | the newest committed position of the tenant, 0 for none |
| FeedStore.Store.Read | kernel/changefeed/feed.go:114-173 | the first `limit` changes of the tenant after the cursor that carry one of the scope's keys, ascending, as stored and none left out; a bad request exactly for an empty tenant or a limit below 1 |
| FeedStore.FirstRows | kernel/changefeed/feed.go:114-173 | the row loop returns the page that the specification `IsPage` names, each row with its own entry |
| FeedStore.RefsOfExact | internal/app/sync.go:204-248 | the ids collected for an object are exactly those its pointers name, each once |
| FeedStore.GroupPointers | internal/app/sync.go:204-248 | the loop groups every pointer under its object, and has no entry for an object without one |
| Replica.Resolve | kernel/metadata/crud.go:375-418 | a change page's ids resolve to the current rows, archived ones included, none that no pointer names and none of them left out |
| Replica.ServeKeepsInv | kernel/metadata/audit.go:20-55 | a row write and its pointer are always in one transaction, in every reachable server state |
| Replica.ServeKeepsTracks | kernel/metadata/audit.go:20-55 | a server step never makes a copy of a row stale without a pointer to it past a settled cursor |
| Replica.StepKeepsReplicaInv | internal/app/sync.go:204-313 | every client and server step keeps each hydrated row current or still owed a pointer, but for reading the mark of a first page that is no longer current |
| Replica.HydrationTracks | internal/app/sync.go:204-313 | over every run in which no first page's mark is read after a row on it has changed, at every step each hydrated row equals the server's or a pointer to it is pending past the cursor; in the mark-first order over every run |
| Replica.TornExactly | internal/app/sync.go:290-296 | reading the mark of a first page keeps hydration repaired if and only if every row the page covers is still as the page has it; a covered row that is not is stale and owed nothing |
| Replica.FirstPageCurrent | internal/app/sync.go:290-296 | a first page is current when it is read |
| Replica.PageStaysCurrent | internal/app/sync.go:290-296 | a current page stays current under a server step if and only if that is no commit giving a covered row another state; other tenants, other objects and rows outside the page are harmless |
| Replica.FreshClientInv | internal/app/sync.go:260-313 | a client that has fetched nothing satisfies the invariant |
| Replica.CaughtUpEqualsLive | internal/app/sync.go:204-313 | a fully hydrated client that is owed nothing holds exactly the live rows |
| Replica.QuiescentReplicaEqualsLive | internal/app/sync.go:108-248 | with writers at rest, one short page of changes makes a hydrated replica equal the live rows |
| Replica.RoundsConverge | internal/app/sync.go:108-248 | with writers at rest, a hydrated replica equals the live rows after as many rounds of changes as there are pending entries and one more, at any legal page size |
| Replica.PagingEnds | internal/app/sync.go:260-313 | with writers at rest, as many snapshot pages as there are live rows and one more hydrate the client, in either order of mark and page |
| Replica.TornSnapshotLosesChange | internal/app/sync.go:290-296 | in the code's order there is a run after which the client is hydrated, owed nothing, and differs from the live rows |
| Calendar.NumberRoundTrip | kernel/jobs/cron.go:142-158 | a date survives counting its days and naming the date again |
| Calendar.DateOfNumber | kernel/jobs/cron.go:142-158 | a day number survives naming its date and counting again |
| Calendar.WeekdayModulo | kernel/jobs/cron.go:160-173 | weekdays repeat every seven days from a Monday |
| Calendar.YearStartFormula | kernel/jobs/cron.go:142-158 | the days before a year are those of the Gregorian rule in closed form |
| Calendar.ShortGap | kernel/jobs/cron.go:130-134 | consecutive leap days four years apart are 1461 days apart |
| Calendar.LongGap | kernel/jobs/cron.go:130-134 | across a non-leap century year they are eight years and 2921 days apart |
| Cron.NextUnique | kernel/jobs/cron.go:142-158 | the least matching minute after an instant within the window is unique, and so is its absence |
| Cron.DayRule | kernel/jobs/cron.go:160-173 | a day matches if and only if its month is named and every restricted day field names it, or one of them when both are restricted |
| Cron.TimeRule | kernel/jobs/cron.go:142-158 | a time of day matches if and only if its day does and its hour and minute are named |
| Cron.Next | kernel/jobs/cron.go:142-158 | the day-skipping search returns the least matching minute strictly after `after` within the window, and none exactly when there is none |
| Cron.NextAt | kernel/jobs/cron.go:142-158 | the search as a function: the least matching minute in the window, or none |
| Cron.NextStable | kernel/jobs/cron.go:142-158 | asking again at any instant before the firing gives the same firing |
| Cron.OrdinaryAlwaysFires | kernel/jobs/cron.go:130-158 | an expression some date satisfies, not tied to 29 February alone, fires from every instant |
| Cron.NeverFires | kernel/jobs/cron.go:142-158 | an expression no date satisfies never fires |
| Cron.LeapOnlyMissed | kernel/jobs/cron.go:130-158 | an expression tied to 29 February is missed exactly in the gap around a non-leap century year |
| Cron.NextFires | kernel/jobs/cron.go:130-158 | for every parsed expression and instant: no firing is found if and only if no date satisfies it or it is 29 February alone across a century gap |
| Cron.CenturyGapExample | kernel/jobs/cron.go:130-134 | from 29 February 2096 midnight the expression finds nothing, though it fires in 2104 |
| Cron.LeapMidnightExists | kernel/jobs/cron.go:56-81 | an expression tied to midnight of 29 February exists |
| CronParse.StepOver | kernel/jobs/cron.go:83-128 | between two values of the stepping variable the span names nothing |
| CronParse.MarkSpan | kernel/jobs/cron.go:83-128 | the stepping loop marks exactly the values of the span and keeps earlier marks, or panics exactly when the variable overflows |
| CronParse.ParseField | kernel/jobs/cron.go:83-128 | a field is refused, panics or is accepted as its first failing element says, and marks exactly the named values; however it is written from numbers, ranges, steps and commas, it is accepted exactly when every element is in range and in order, and marks exactly what the elements include |
| CronParse.AtoiExactly | kernel/jobs/cron.go:83-128 | a number is read if and only if it is written as an optional sign and digits and fits 64 bits |
| CronParse.WrittenField | kernel/jobs/cron.go:83-128 | a list of written elements is split, read and joined as it was meant: accepted if and only if all are legal, crashing if and only if the first that fails overflows, and naming v if and only if some element includes v |
| CronParse.ShownNumber | kernel/jobs/cron.go:83-128 | a written number names itself alone |
| CronParse.ShownRange | kernel/jobs/cron.go:83-128 | a-b/k names exactly every k-th value from a to b |
| CronParse.ShownStar | kernel/jobs/cron.go:83-128 | a star with a step names exactly every k-th value of the range |
| CronParse.ParsedFieldNames | kernel/jobs/cron.go:83-128 | an accepted field names at least one value and all of them lie in its range |
| CronParse.ParseCron | kernel/jobs/cron.go:56-81 | five parts give the five fields they name, with the star flags; written parts parse exactly when every element is legal, and each field holds exactly what its elements include; any other count is refused; which of success, refusal and crash happens is exact |
| CronParse.HugeStepPanics | kernel/jobs/cron.go:83-128 | a field crashes the parser if and only if an element whose start and step together pass the int range comes before any that is refused |
| CronParse.HugeStepExample | kernel/jobs/cron.go:120-128 | a step of the largest int64 from 1 wraps below zero |
| Jobs.Backoff | kernel/jobs/store.go:343-352 | the retry delay is positive and at most five minutes |
| Jobs.BackoffLoop | kernel/jobs/store.go:343-352 | the doubling loop computes the capped power of two |
| Jobs.ApplyKeepsConserved | kernel/jobs/store.go:94-340 | every step keeps each issued id in exactly one of queue and dead letters, and at most one dead letter per job |
| Jobs.ApplyKeepsRows | kernel/jobs/store.go:94-340 | every step keeps leases with exactly the running jobs, one job per kind and dedupe key, and dead letters only after the attempt limit |
| Jobs.RunKeepsInv | kernel/jobs/store.go:94-340 | conservation, deduplication and the lease discipline hold over every interleaving of enqueue, claim, complete and fail, stale workers included |
| Jobs.RunKeepsIssued | kernel/jobs/store.go:291-340 | nothing issued is ever lost and a dead letter is never withdrawn |
| Jobs.LeaseExclusive | kernel/jobs/store.go:169-260 | two successful claims of one job with no `Fail` of it between them have clocks a whole lease apart, whatever others do |
| Jobs.CompletedStaysDone | kernel/jobs/store.go:263-275 | a completed job is never claimed again unless somebody fails it |
| Jobs.FailRevivesExactly | kernel/jobs/store.go:291-340 | a recorded failure makes a job claimable again if and only if it was tried fewer times than the limit, whatever its status |
| Jobs.CompletedRevivedExactly | kernel/jobs/store.go:263-340 | over every run, a completed job becomes claimable at some point if and only if somebody fails it and it was below the attempt limit when completed |
| Jobs.StaleFailRevives | kernel/jobs/store.go:291-340 | a worker that lost its lease can fail a completed job back into the queue |
| Jobs.AttemptLimitExactly | kernel/jobs/store.go:291-340 | over every run, the limit bounds the attempts of every job and dead letter if and only if no claim takes a job whose last allowed attempt never reported back |
| Jobs.PendingClaimsLimited | kernel/jobs/store.go:169-340 | so every run whose claims all find their job pending stays within the limit, and each dead letter was tried exactly that often |
| Jobs.CrashLoop | kernel/jobs/store.go:169-260 | for every n there is a run that claims a job n times and never dead-letters it, because only leases expire |
| Jobs.HeadExists | kernel/jobs/store.go:140-141 | while anything is due, some due job comes first in the claim order |
| Jobs.HeadIsEarliest | kernel/jobs/store.go:140-141 | the head is due and no due job has an earlier run time, nor the same with a smaller id |
| Jobs.ClaimAttempt | kernel/jobs/store.go:169-260 | one attempt claims a picked job that is due, in the state it finds, or changes nothing; it returns nothing while jobs are due only if every pick lost its race |
| Jobs.WithoutResetDoubleDelivers | kernel/jobs/store.go:174-182 | without resetting the captured job, a rerun callback hands out a job another worker holds |
| Jobs.JobStore.Add | kernel/jobs/store.go:94-134 | adds exactly the described row under a fresh id if and only if the kind is named and no queued job has that kind and key, and otherwise returns that job unchanged; refuses an empty kind |
| Jobs.JobStore.Claim | kernel/jobs/store.go:169-260 | whatever aborted attempts saw, the returned job is the one the committed attempt leased, as enqueued field by field; it was due and waiting or its lease was over, and only its row changes, to running under a new lease one attempt further; the head of the queue is claimed when the subquery sees it |
| Jobs.JobStore.Finish | kernel/jobs/store.go:263-275 | takes exactly the completion step |
| Jobs.JobStore.FailJob | kernel/jobs/store.go:291-340 | takes exactly the failure step, retry or dead letter, and reports whether the job existed |
| Jobs.JobStore.RunNext | kernel/jobs/runner.go:108-123 | claims in the state others left, runs, and records the handler's outcome in the state others left meanwhile |
| Jobs.JobStore.Drain | kernel/jobs/runner.go:87-104 | the drain of a pass: at most its bound of jobs, the state of its recorded runs, an end only when its picks found nothing due, and no job twice unless another worker failed it |
| Jobs.RestsThroughRun | kernel/jobs/runner.go:83-123 | a job not claimable at a clock, or just run at it, is not claimable at it after the run, unless another worker fails it |
| Jobs.RecordRests | kernel/jobs/store.go:313-352 | recording an outcome never makes a job claimable at the same clock |
| Schedules.DueWhenBegun | kernel/jobs/schedules.go:153-192 | a stored firing is due exactly when its minute has begun, microseconds against nanoseconds |
| Schedules.FiringUnit | kernel/jobs/store.go:73-75 | a firing is stored as whole minutes in microseconds |
| Schedules.CenturyIsLater | kernel/jobs/schedules.go:169-174 | a parked firing is later than now |
| Schedules.ParkedDate | kernel/jobs/schedules.go:169-174 | a parked row waits for the same date and time a hundred years on, 1 March for a 29 February that year does not have |
| Schedules.AfterIsLater | kernel/jobs/schedules.go:153-192 | a tick always moves a row past the clock, parked or not |
| Schedules.RunWinsOnce | kernel/jobs/schedules.go:153-254 | over every interleaving of ticks, upserts and deletions each (schedule, firing) is won at most once and the next firing strictly climbs, as long as no upsert's clock is behind a firing already won |
| Schedules.StepAheadExactly | kernel/jobs/schedules.go:38-80 | a step keeps every row ahead of what has been won for it if and only if the firing an upsert computes, of the same expression or another, is later than every firing won |
| Schedules.TickClimbsExactly | kernel/jobs/schedules.go:160-239 | being ahead is what ticks need: wins keep climbing whichever row is ticked at any clock if and only if every row is ahead |
| Schedules.RunAheadExactly | kernel/jobs/schedules.go:38-80 | over every run the rows stay ahead throughout if and only if each upsert's firing is later than those won before it, and then no firing is won twice |
| Schedules.PromptExactly | kernel/jobs/schedules.go:38-80 | installing an expression again keeps its row ahead if and only if the clock is not behind the last firing won, where that firing is one of the expression's within the lookahead |
| Schedules.SlowClockFiresTwice | kernel/jobs/schedules.go:38-80 | the premise is needed: a slower node's upsert makes one firing win twice |
| Schedules.MissedWindowFiresOnce | kernel/jobs/schedules.go:153-254 | any number of ticks by any number of nodes at one clock win at most one firing of a schedule, however many it missed, and then it is not due |
| Schedules.RunKeepsQueue | kernel/jobs/schedules.go:153-192 | handing firings over keeps the queue's invariant: conservation, leases, one job per kind and key |
| Schedules.KeyInjective | kernel/jobs/schedules.go:178 | different firings have different dedupe keys, even when a schedule id contains the separator |
| Schedules.OneJobPerFiring | kernel/jobs/schedules.go:153-254 | over every such run at most one job is ever inserted for a (schedule, firing), whether it is queued, done or dead |
| Schedules.OneQueuedPerKey | kernel/jobs/schedules.go:178 | so, where nobody else enqueues under a firing's key, the queue never holds two jobs under it, of any kinds |
| Schedules.SecondJobExactly | kernel/jobs/store.go:94-134 | without the premise on clocks, handing over another win of a firing inserts a second job if and only if every earlier one is of another kind or dead-lettered |
| Schedules.SlowClockTwoJobs | kernel/jobs/schedules.go:38-80 | such a run exists: a slow node's upsert renames the kind, and two jobs are queued under one firing's key |
| Schedules.SyncKeepsFiring | kernel/automations/runner.go:349-380 | a sync leaves an unchanged row's next firing as it was if and only if it is not due; a due firing is dropped without being won |
| Schedules.SyncLeavesExactly | kernel/automations/runner.go:349-380 | after a sync an automation has a row, armed from its own expression, if and only if it comes before the first expression that never fires; the only other row under its id is one of another owner |
| Schedules.ApplyArms | kernel/jobs/schedules.go:38-254 | upserts, deletions and ticks keep every row's firing the one its expression gives at some earlier clock |
| Schedules.TickWinsEach | kernel/jobs/schedules.go:153-192 | undisturbed, a tick wins each scanned firing exactly once and moves exactly those rows |
| Schedules.TickClearsDue | kernel/jobs/schedules.go:153-192 | after a tick that scanned every due row, nothing is due at its clock |
| Schedules.ScheduleTable.UpsertSchedule | kernel/jobs/schedules.go:38-80 | replaces exactly the named row with its next firing recomputed; refused exactly for an empty id, kind or owner or an expression with no firing |
| Schedules.ScheduleTable.DeleteSchedulesByOwner | kernel/jobs/schedules.go:83-97 | removes exactly the owner's rows |
| Schedules.ScheduleTable.AdvanceSchedule | kernel/jobs/schedules.go:232-254 | wins exactly when the stored firing is still the one read |
| Schedules.ScheduleTable.HandOverJob | kernel/jobs/schedules.go:176-190 | enqueues the job of a won firing with its kind, payload and run time under that firing's key |
| Schedules.ScheduleTable.TickRow | kernel/jobs/schedules.go:166-190 | advances a row and enqueues only when the advance was won; a row whose expression no longer parses is left alone |
| Schedules.ScheduleTable.TickSchedules | kernel/jobs/schedules.go:153-192 | the scan loop counts exactly the rows it won, whatever other nodes do between them, and skips those that no longer parse |
| Schedules.ScheduleTable.RunOnce | kernel/jobs/runner.go:83-105 | a whole pass: the schedules as the tick leaves them, the queue with the tick's jobs drained in recorded order, at most its bound, and no job twice unless another worker failed it |
| Schedules.ScheduleTable.SyncSchedules | kernel/automations/runner.go:349-380 | deletes the owner's rows, then upserts in order up to the first expression that never fires, and reports success exactly when there is none |
| Automations.RestContiguous | kernel/automations/runner.go:106-143 | the rest of a fetched page continues the feed from its first entry without a gap |
| Automations.StepKeepsDelivery | kernel/automations/runner.go:106-175 | every step of every node, saver and writer keeps the stored cursor covered by evaluations |
| Automations.WonAdvanceCovers | kernel/automations/store.go:266-282 | an advance that wins keeps every entry up to the new cursor evaluated |
| Automations.NothingSkipped | kernel/automations/runner.go:106-175 | with any number of runners, crashes, saves and writers on one cursor, every entry between the creation mark and the stored cursor has been evaluated by some pass |
| Automations.NeverMovesBack | kernel/automations/store.go:237-282 | until the automation is deleted its cursor never moves back and keeps its mark |
| Automations.PassEvaluatesPage | kernel/automations/runner.go:106-143 | a pass evaluates its page entry by entry whether or not its advances win |
| Automations.WholePageTwice | kernel/automations/store.go:270-282 | two nodes that start together both evaluate every entry of the page |
| ExactlyOnce.RunGapless | kernel/automations/runner.go:106-175 | over every run of one cursor the evaluated entries have no gap: everything past the creation mark, up to any pass and any evaluated entry, has been evaluated |
| ExactlyOnce.BehindRepeats | kernel/automations/runner.go:106-143 | a pass evaluates an entry again if and only if it stands below an entry that has been evaluated already |
| ExactlyOnce.RepeatsExactly | kernel/automations/store.go:266-282 | over every run of one cursor some entry is evaluated twice if and only if some pass evaluates while standing there |
| ExactlyOnce.OnceEach | kernel/automations/runner.go:106-175 | when passes do not overlap and none is given up between evaluating and advancing, every entry between the creation mark and the cursor is evaluated exactly once |
| Automations.AutomationStore.SeedCursor | kernel/automations/store.go:75-114 | seeds the cursor at a mark read earlier, unless there is one |
| Automations.AutomationStore.DeleteCursor | kernel/automations/store.go:212-234 | removes the cursor |
| Automations.AutomationStore.ReadCursor | kernel/automations/store.go:237-264 | returns the stored position, seeded at the high-water mark when there is none |
| Automations.AutomationStore.ReadPage | kernel/automations/runner.go:106-125 | reads at most one batch of the feed after the local position |
| Automations.AutomationStore.AdvanceCursor | kernel/automations/store.go:266-282 | moves the stored cursor only if it is where the pass left it; the pass goes on either way |
| Automations.AutomationStore.Fire | kernel/automations/runner.go:146-175 | evaluates the current entry, with any outcome, and marks it handled |
| Automations.AutomationStore.DeliverOne | kernel/automations/runner.go:126-143 | one entry is evaluated and then advanced over, with others stepping in between |
| Automations.AutomationStore.DeliverPage | kernel/automations/runner.go:126-143 | the loop does so for each entry of the page in order and ends with none left |
| Automations.AutomationStore.Deliver | kernel/automations/runner.go:106-143 | a pass is the run of its script: cursor, page, then entry by entry, at most one batch |
| Allocate.LeftoverInBounds | kernel/money/allocate.go:53-63 | the leftover after flooring is at least 0 and less than the number of parts |
| Allocate.WholeShareExact | kernel/money/allocate.go:42-63 | a part whose exact share is whole gets exactly that |
| Allocate.FloorOrCeiling | kernel/money/allocate.go:42-63 | each part is within one minor unit of its exact share |
| Allocate.ZeroRatioNothing | kernel/money/allocate.go:42-63 | a zero ratio gets exactly nothing |
| Allocate.LargerRatioNotLess | kernel/money/allocate.go:54-63 | a larger ratio never gets a smaller magnitude |
| Allocate.AllocationUnique | kernel/money/allocate.go:17-71 | conservation and largest-remainder service leave only one allocation |
| Allocate.SliceStable | kernel/money/allocate.go:54-60 | sorting the indices gives the order by remainder, ties by position |
| Allocate.RaiseServes | kernel/money/allocate.go:61-63 | handing units to the first indices of that order serves the largest remainders |
| Allocate.Total | kernel/money/allocate.go:21-31 | sums the ratios in 64 bits and refuses exactly when one is negative |
| Allocate.FloorEach | kernel/money/allocate.go:42-50 | fills each part with its truncated share and each remainder, and sums what was distributed, in 64 bits |
| Allocate.HandOut | kernel/money/allocate.go:61-63 | raises the first `leftover` parts of the order by one, and panics exactly when there are fewer |
| Allocate.Negate | kernel/money/allocate.go:65-69 | negates every part in place, in 64 bits |
| Allocate.Divide | kernel/money/allocate.go:42-63 | floors, sorts and hands out: the parts are the settled ones for some correct order, or the loop panics exactly when the leftover exceeds the parts |
| Allocate.Allocate | kernel/money/allocate.go:17-71 | refused exactly for no ratios, a negative one or a zero sum; panics exactly when the wrapped leftover exceeds the parts; otherwise the parts are the settled ones of an order by remainder with the sign applied, which sum to the amount exactly when the shares leave between 0 and the largest int64, provided no share is at an end of int64; for ratios whose sum fits, the parts sum to the amount and are served by largest remainder, the minimum int64 apart |
| Allocate.ConservesExactly | kernel/money/allocate.go:42-71 | whatever the ratios, an accepted call conserves the amount if and only if the units it hands out, corrected for the parts that wrap, are those the truncated shares leave |
| Allocate.InsideConservesExactly | kernel/money/allocate.go:42-71 | with no share at an end of int64, if and only if the shares leave between 0 and the largest int64 |
| Allocate.MinimumAmount | kernel/money/allocate.go:32-37 | the minimum int64 is conserved if and only if one part takes everything |
| Allocate.NegationCommutes | kernel/money/allocate.go:65-69 | negating the amount negates every part |
| Allocate.OverflowingRatios | kernel/money/allocate.go:21-31 | instances: ratios whose exact sum leaves the int64 range may wrap to zero and be refused, or to a negative sum that overruns the parts |
| RatioOverflow.OwnSumLost | kernel/money/allocate.go:21-63 | ratios whose sum leaves int64, the smallest wrapped sum apart, lose the amount that equals the wrapped sum |
| RatioOverflow.LargestLost | kernel/money/allocate.go:21-63 | where the sum wraps to the smallest int64, they lose the largest amount |
| RatioOverflow.ConservesAllExactly | kernel/money/allocate.go:21-63 | accepted ratios lose no minor unit of any amount above the minimum int64 if and only if their exact sum fits int64 |
| RatioOverflow.OneBecomesMany | kernel/money/allocate.go:21-63 | an accepted call on amount 1 and three ratios whose parts sum to 2^64 + 1 |
| Allocate.EqualShares | kernel/money/allocate.go:75-84 | equal ratios give every part the quotient, and one more to the first ones |
| Allocate.AllocateEqual | kernel/money/allocate.go:75-84 | n equal parts are the equal split, in order, and sum to the amount; the minimum int64 is conserved exactly for a single part |
| Rounding.RoundsToNearest | kernel/money/round.go:23-53 | the result is nearest, ties by the declared rule |
| Rounding.NearestUnique | kernel/money/round.go:23-53 | the rule leaves one result |
| Rounding.OddSymmetric | kernel/money/round.go:23-53 | rounding commutes with negation |
| Rounding.SameValueRoundsSame | kernel/money/round.go:23-53 | only the value counts, not how the fraction is written |
| Rounding.ThereAndBack | kernel/money/convert.go:16-44 | two nearest results at inverse scales are exact when the scale is at least 1 and otherwise off by at most 1/(2s) + 1/2 |
| Rounding.ConvertRoundTrip | kernel/money/convert.go:16-44 | converting there and back at a rate and its exact inverse, when both results fit, restores the currency and is off by at most half a unit and half the inverse of what a source unit is worth, nothing when it is worth at least one |
| Rounding.ConvertExact | kernel/money/convert.go:16-44 | the integer nearest to amount times rate times ten to the target's digits over ten to the source's is the result, refused exactly when it does not fit int64 |
| Rounding.ConvertRefuses | kernel/money/convert.go:16-27 | an unknown currency comes first, then a rate that is not positive, each exactly |
| Decimal.Pow10Int | kernel/money/money.go:183-189 | the loop computes the power of ten, and it fits |
| Decimal.ParseExact | kernel/money/money.go:47-65 | a plain literal parses to an amount if and only if it is that whole number of minor units within int64 |
| Decimal.LiteralExactly | kernel/money/money.go:47-65 | a text reads as a literal if and only if it is written as an optional sign and digits on at least one side of an optional point |
| Decimal.ParseRefuses | kernel/money/money.go:47-65 | it is too precise if and only if it is no whole number of minor units, and an overflow if and only if it is one outside int64 |
| Decimal.PaddedDigits | kernel/money/money.go:140-155 | zero padding fills the width with digits and keeps the value |
| Decimal.PrintedExactly | kernel/money/money.go:140-155 | an amount prints as its sign, its major units in shortest form, and exactly the currency's places, the minimum int64 apart |
| Decimal.PrintParse | kernel/money/money.go:140-155 | parsing what was printed gives the amount back if and only if it is not the minimum int64 with decimal places |
| Decimal.MinimumUnreadable | kernel/money/money.go:140-155 | the minimum int64 with decimal places prints as no literal at all |
| EventStore.ApplyKeepsUnique | kernel/storage/migrate/migrations/0010_events.postgres.sql:19-25 | every step keeps (stream, version) and command ids unique and never changes a stored event |
| EventStore.ApplyKeepsHonest | kernel/eventstore/eventstore.go:94-198 | every step keeps each returned event a stored event of the caller's tenant and command |
| EventStore.RunKeeps | kernel/eventstore/eventstore.go:94-198 | uniqueness and honest answers hold over every interleaving of calls, crashes included |
| EventStore.RunStoresRequests | kernel/eventstore/eventstore.go:94-160 | over every run each stored event carries, field by field, the contents of one acceptable request that some call started |
| EventStore.RetryReturnsSame | kernel/eventstore/eventstore.go:94-198 | over every run any two calls with one command id that return an event return the same event |
| EventStore.ConflictExactly | kernel/eventstore/eventstore.go:182-194 | a call that passed its check ends in a version conflict if and only if its insert met a taken version or command and its second lookup, after anything others commit in between, finds no event of its tenant for the command |
| EventStore.ForeignCommandConflicts | kernel/eventstore/eventstore.go:125-130 | a command id used by another tenant conflicts whatever the version |
| EventStore.MaxVersion | kernel/eventstore/eventstore.go:64-84 | the largest version of the stream, none exactly for an empty stream |
| EventStore.AppendGapless | kernel/eventstore/eventstore.go:113-154 | a successful append leaves a gapless stream gapless if and only if its expected version is between 0 and the current one |
| EventStore.VersionsGapless | kernel/eventstore/eventstore.go:94-198 | when every call's expected version was once current, the versions of the stream are exactly 1..n in every reachable state |
| EventStore.FutureVersionLeavesGap | kernel/eventstore/eventstore.go:113-130 | an expected version nobody has seen is accepted on an empty stream and leaves a gap |
| EventStore.Store.LookUpFirst | kernel/eventstore/eventstore.go:94-130 | refuses a malformed request, or returns the command's event, or goes on |
| EventStore.Store.TryInsert | kernel/eventstore/eventstore.go:132-198 | appends exactly the request's event, field by field, when version and command are free, and otherwise returns the command's event or conflicts, exactly when there is none |
| EventStore.Store.Append | kernel/eventstore/eventstore.go:94-198 | a whole call is a run of its steps among others'; refused exactly when a name is missing; a command already there is replayed unchanged; otherwise, when neither its version nor its command is taken, exactly one event is appended with the request's tenant, stream, next version, kind, schema, payload, actor and command, and when one is, none; it then conflicts exactly if its tenant has no event of the command by the second lookup |
| Streams.ApplyUpcasters | kernel/eventstore/upcast.go:44-63 | the upcasting loop terminates and computes the chain of upcasters |
| Streams.UpcastChain | kernel/eventstore/upcast.go:44-63 | an event comes out with the last payload of its chain of upcasters and the version that ends it, or fails when the upcaster there does |
| Streams.UpcastSettles | kernel/eventstore/upcast.go:44-63 | it ends at a version with no upcaster, changes only payload and schema version, and is idempotent |
| Streams.RowsSplit | kernel/eventstore/feed.go:68-114 | the rows up to a version followed by those after it are all rows |
| Streams.SelectRows | kernel/eventstore/feed.go:68-114 | exactly the stream's events after a version, in version order |
| Streams.SnapshotFoldsSame | kernel/eventstore/feed.go:68-114 | folding an honest snapshot and the later upcast events equals folding the whole upcast stream, and one load fails exactly when the other does |
| Streams.CoveredRowsExactly | kernel/eventstore/snapshot.go:31-48 | however many events are appended, the rows a snapshot covers stay if and only if none of the new ones falls among them |
| Streams.GaplessAppendIsLater | kernel/eventstore/snapshot.go:31-48 | in a gapless stream every append comes after any version up to the current one |
| Streams.FollowGapless | kernel/eventstore/eventstore.go:113-154 | over every run of appends based on versions that were current, to this stream or others, a gapless stream stays so and each of its new events is later than any version it had |
| Streams.SnapshotStaysHonest | kernel/eventstore/feed.go:68-114 | over every such run after a snapshot is saved, folding it with the later events equals folding the whole stream, and one load fails exactly when the other does |
| Streams.StreamStore.SaveSnapshot | kernel/eventstore/snapshot.go:31-48 | one snapshot per stream, overwritten by each save; refused exactly without a tenant or a stream |
| Streams.StreamStore.LoadStream | kernel/eventstore/feed.go:68-114 | the snapshot as first read and, from the events as they are by then, every one after its version in order, upcast; a failure exactly when an upcast fails or the names are empty |
| Evolution.CoreFieldMap | kernel/metadata/evolve.go:172-181 | the core fields by name, overlay fields left out |
| Evolution.PlanEvolution | kernel/metadata/evolve.go:73-140 | the planning loop returns the plan the specification names |
| Evolution.PlanExactly | kernel/metadata/evolve.go:73-140 | a plan exists if and only if the version advances and no core field is dropped, narrowed, newly required or added as required |
| Evolution.AcceptedTransitive | kernel/metadata/evolve.go:58-140 | two accepted evolutions in a row could have been one |
| Evolution.StepwiseImpliesDirect | kernel/metadata/evolve.go:58-140 | along any chain of accepted steps, every later schema could follow the first directly |
| Evolution.ExecField | kernel/metadata/evolve.go:146-169 | a field's statements fail exactly when its column or its planned index exists already, and otherwise leave its column as declared |
| Evolution.ExecFields | kernel/metadata/evolve.go:146-169 | a whole plan executes exactly when nothing clashes, and then changes exactly the planned columns and indexes |
| Evolution.GenerateShape | kernel/metadata/ddl.go:63-99 | a first schema is created exactly when every core field has a column type and no system column's name, and then has its shape |
| Evolution.ApplyExactly | kernel/metadata/ddl.go:117-173 | a later version is recorded if and only if it advances the last, destroys nothing and collides with no system column and no index ever made |
| Evolution.RecordedShape | kernel/metadata/ddl.go:117-173 | recording a version leaves the table in the shape of its schema |
| Evolution.ColumnsAsDeclared | kernel/metadata/ddl.go:28-50 | in every reachable database each core field has the column type of its declared type and none other, NOT NULL exactly when required |
| Evolution.ApplyKeepsInv | kernel/metadata/ddl.go:117-173 | every attempt keeps columns equal to the last recorded schema's and one index per field ever indexed |
| Evolution.RunKeepsInv | kernel/metadata/ddl.go:117-197 | over every sequence of attempted versions, accepted or not, columns and indexes are those of the recorded schemas |
| Evolution.RunGrows | kernel/metadata/evolve.go:58-169 | over every sequence no column is dropped, retyped other than to text, or made required |
| Evolution.ReapplyUnchanged | kernel/metadata/ddl.go:117-131 | applying a version again, whatever happened since, changes nothing |
| Evolution.ZeroBlocks | kernel/metadata/ddl.go:127-137 | a last recorded version of 0 counts as nothing applied, so any other version is refused |
| Evolution.ZeroBlocksForever | kernel/metadata/ddl.go:127-137 | and the object never evolves again, over every later run |
| Evolution.RedeclaredIndexFails | kernel/metadata/evolve.go:125-140 | an index declared again after it was removed is refused by the database |
| Evolution.MigrationTable.ApplyDDL | kernel/metadata/ddl.go:117-173 | takes exactly the specified step, all or nothing |
| Schema.ValidateOptions | kernel/metadata/schema.go:233-256 | only an enum has options, at least one, none empty, padded or repeated |
| Schema.ValidateField | kernel/metadata/schema.go:200-229 | the checks in order accept exactly the valid definitions |
| Schema.ValidateObject | kernel/metadata/schema.go:175-196 | an object is accepted exactly when it is named, has fields, and each is valid under a name of its own |
| Overlay.Missing | kernel/metadata/overlay.go:181-193 | empty exactly for a subset |
| Overlay.AddAll | kernel/metadata/overlay.go:79-100 | adds the layer's fields after the others, marked as overlay, or refuses a name already there |
| Overlay.FieldIndex | kernel/metadata/overlay.go:159-166 | the first field of a name, below zero exactly when there is none |
| Overlay.Narrow | kernel/metadata/overlay.go:124-157 | replaces exactly the named enum options, and is refused exactly when one names no enum field, is empty or is not a subset, in whatever order the names are visited |
| Overlay.Merge | kernel/metadata/overlay.go:79-119 | merges the layers in order, and what it returns is sound with respect to core |
| Overlay.MergeOneSound | kernel/metadata/overlay.go:79-119 | one more layer keeps names unique, core fields in order and type with options only narrowed and non-empty, and roles only grown |
| Overlay.MergedSound | kernel/metadata/overlay.go:79-119 | every stack that merges is sound with respect to core |
| Overlay.PrefixMerges | kernel/metadata/overlay.go:79-119 | any prefix of a stack that merges, merges |
| Overlay.EffectiveLegalIsCoreLegal | kernel/metadata/value.go:220-230 | a value legal for a core field in any effective schema is legal in core, whatever the other rules |
| OverlayAgreement.MergeOneExactly | kernel/metadata/overlay.go:79-157 | a layer merges onto a merged stack if and only if its fields are valid and fresh, it keeps core's roles, it narrows only what core, a layer below or itself declares, and it agrees with every layer below |
| OverlayAgreement.MergesExactly | kernel/metadata/overlay.go:79-157 | a stack merges if and only if core is valid and every layer stands so on those below it; the fields, options and roles of the result are those the layers say |
| OverlayRemoval.AddedExactly | kernel/metadata/overlay.go:79-100 | a layer's fields are added if and only if they are valid, new and distinct, and then come last |
| OverlayRemoval.KeptLayer | kernel/metadata/overlay.go:79-157 | on a stack without some layers, a layer that merged on the full one merges if and only if it narrows no field they added |
| OverlayRemoval.RemovalExactly | kernel/metadata/overlay.go:79-157 | taking layers out of a stack that merges leaves one that merges if and only if no layer that stays narrows a field that a layer below it, taken out, had added |
| OverlayRemoval.AddedOnce | kernel/metadata/overlay.go:79-100 | in a stack that merges no name is added twice, nor one of core |
| OverlayStore.InOrderIsOrder | kernel/metadata/tenant_overlay.go:332-348 | the merge order lists exactly the stored layers, ascending by layer and source |
| OverlayStore.OrderUnique | kernel/metadata/tenant_overlay.go:332-348 | there is only one such order |
| OverlayStore.RemovingKeepsOrder | kernel/metadata/tenant_overlay.go:332-348 | deleting layers leaves the others in the order they had |
| OverlayStore.DeletionExactly | kernel/metadata/tenant_overlay.go:237-266 | deleting any layers from a stack that resolves leaves one that resolves if and only if no layer that stays narrows a field that a deleted one below it had added |
| OverlayStore.RemovingTop | kernel/metadata/tenant_overlay.go:237-266 | deleting only layers merged after every one that stays is always safe |
| OverlayStore.ApplyResolves | kernel/metadata/tenant_overlay.go:101-266 | from a stack that resolves, an operation leaves one that resolves if and only if it is a save or such a deletion |
| OverlayStore.RunResolves | kernel/metadata/tenant_overlay.go:101-285 | after any run of saves and such deletions the stack resolves and is sound with respect to core |
| OverlayStore.DeletingBelowBreaks | kernel/metadata/tenant_overlay.go:237-266 | an instance: deleting a plugin layer whose field the tenant layer narrows leaves a stack that does not resolve |
| OverlayStore.SortOverlays | kernel/metadata/tenant_overlay.go:332-348 | sorts the rows into merge order, the same rows |
| OverlayStore.ReplaceLayer | kernel/metadata/tenant_overlay.go:353-364 | the list checked is the merge order of the stack about to be stored |
| OverlayStore.OverlayTable.LoadOverlays | kernel/metadata/tenant_overlay.go:157-193 | the stored rows, in whatever order they are read, come back in merge order |
| OverlayStore.OverlayTable.CheckOverlay | kernel/metadata/tenant_overlay.go:101-122 | allowed exactly when the layer names this object, no layer of the stack with it is empty and they merge in order |
| OverlayStore.OverlayTable.StoreOverlay | kernel/metadata/tenant_overlay.go:126-153 | the write sets its slot without checking |
| OverlayStore.OverlayTable.SaveOverlay | kernel/metadata/tenant_overlay.go:81-92 | a refused save changes nothing, and an undisturbed one keeps the stack resolving |
| OverlayStore.OverlayTable.DeleteOverlay | kernel/metadata/tenant_overlay.go:237-249 | removes its slot, and keeps a stack that resolves resolving if and only if no layer above narrows a field it added |
| OverlayStore.OverlayTable.DeleteOverlaysBySource | kernel/metadata/tenant_overlay.go:259-266 | removes every layer of the source, and keeps a stack that resolves resolving if and only if no layer that stays narrows a field one of them added |
| OverlayRaces.ResolvesExactly | kernel/metadata/tenant_overlay.go:101-122 | a stored stack resolves if and only if core is valid, each layer changes something and narrows only what is declared at or below it, and each agrees with every layer below it |
| OverlayRaces.InterleavedExactly | kernel/metadata/tenant_overlay.go:81-153 | two saves, each legal on the stack it was checked against, leave one that resolves if and only if the upper layer agrees with the lower one and no layer loses a field it narrows |
| OverlayRaces.InterleavedNew | kernel/metadata/tenant_overlay.go:81-153 | where neither slot was taken, if and only if the two layers agree: no common name, no role lost, options only narrowed |
| OverlayRaces.InterleavedSaves | kernel/metadata/tenant_overlay.go:81-153 | on a stack that resolves, if and only if they agree and the lower layer still declares what the upper one narrows of the layer it replaces |
| OverlayRaces.EveryInterleaving | kernel/metadata/tenant_overlay.go:81-153 | the same for any two slots and either order of the writes; two saves of one slot always leave a stack that resolves |
| OverlayRaces.SameNameBreaks | kernel/metadata/tenant_overlay.go:81-153 | whatever the rest of the stack, two stored layers that add one name never resolve together |
| OverlayRaces.InterleavedSavesBreak | kernel/metadata/tenant_overlay.go:81-153 | an instance: two plugins add one field, each save legal on the empty stack, and the stack does not resolve |
| RowRepr.CleanTwice | kernel/metadata/localized.go:126-163 | dropping empty texts and fields is idempotent |
| RowRepr.StoredTexts | kernel/metadata/localized.go:126-163 | what is stored of translations is exactly the texts that are not empty, and nothing at all when there is none |
| RowRepr.ValidFieldsProper | kernel/metadata/schema.go:200-229 | valid fields with distinct names meet what the row laws need |
| RowRepr.GetAfterCreate | kernel/metadata/crud.go:174-272 | after a create every field reads as given, absent as nil, up to what its column or the blob does to a value; an overlay field the record does not name reads the system value of its name, where it has one |
| RowRepr.TranslationsAfterCreate | kernel/metadata/localized.go:126-163 | after a create the read has a text for a field and locale if and only if one was given and is not empty, and then that text; a field is there exactly when it has one |
| RowRepr.SystemAfterCreate | kernel/metadata/crud.go:174-272 | after a create a system key reads as the create set it if and only if the record sets no overlay field of that name to something else |
| RowRepr.GetAfterUpdate | kernel/metadata/crud.go:464-593 | after an update the changed fields read as given and every other field as before, but for an overlay field the blob does not hold: it reads the system value of its name, the one before the update when that rewrites the blob |
| RowRepr.TranslationsAfterUpdate | kernel/metadata/crud.go:464-593 | an update without translations leaves them alone, also when it rewrites the blob; one with translations leaves exactly the texts given that are not empty |
| RowRepr.SystemAfterUpdate | kernel/metadata/crud.go:464-593 | only the updated time moves under the system keys if and only if no overlay field bears the key or the value it ends up with is that one: the given, else the blob's, else, when the blob is rewritten, the system value before |
| RowRepr.ChangedEntry | kernel/metadata/crud.go:511-550 | a rewritten blob holds the changed overlay values and the untouched ones |
| RowRepr.NewRowWellFormed | kernel/metadata/crud.go:205-225 | a new row keeps translations and overlay values apart in the blob |
| RowRepr.ChangedBlobWellFormed | kernel/metadata/crud.go:511-550 | a rewritten blob keeps translations and overlay values apart |
| RowRepr.SystemKeyShadowed | kernel/metadata/crud.go:668-738 | a read under a system key gives the value of an overlay field of that name where the blob holds one, and the system's otherwise |
| RowRepr.SystemValueFreezes | kernel/metadata/crud.go:511-550 | an unset overlay field named like a system key takes the system value at the first update that rewrites the blob and shows it after every later run of updates that do not name it |
| RowRepr.LiveLooksArchived | kernel/metadata/crud.go:668-738 | so a set overlay field called archived_at makes a live record look archived |
| RowRepr.Validate | kernel/metadata/crud.go:83-138 | accepted exactly when the values conform, in one loop over the fields, and then each value is the normalized one |
| RowRepr.ConformsExactly | kernel/metadata/crud.go:83-138 | values conform if and only if each names a field or is the id, each required field has a value that is neither nil nor empty, on an update only when touched, and each other value meets its field's rule |
| RowRepr.NormalizedExactly | kernel/metadata/value.go:78-92 | what is stored for a field is what its rule made of the value, and nil or an empty text untouched |
| RowRepr.RouteRecord | kernel/metadata/crud.go:205-225 | routes each core value to its column and each overlay value to the blob |
| RowRepr.BuildRow | kernel/metadata/crud.go:200-230 | builds the row the read laws are about |
| RowRepr.RouteChanges | kernel/metadata/crud.go:511-550 | sets exactly the touched columns and blob entries and says whether the blob was touched |
| RowRepr.BuildChange | kernel/metadata/crud.go:505-560 | builds the changed row the read laws are about, rewriting the blob only when touched |
| RowRepr.Crud.Prepare | kernel/metadata/crud.go:83-106 | invalid before not localized before done; not localized exactly when a translation names no localized field; done returns normalized values |
| RowRepr.Crud.Create | kernel/metadata/crud.go:174-272 | which outcome is exact; done inserts exactly one row under a free id, anything else changes nothing |
| RowRepr.Crud.Get | kernel/metadata/crud.go:275-309 | the tenant's record, archived or not, and none of another tenant's |
| RowRepr.Crud.Update | kernel/metadata/crud.go:464-593 | which outcome is exact; done changes exactly that row, anything else changes nothing |
| RowRepr.Crud.SoftDelete | kernel/metadata/crud.go:597-635 | sets exactly the archived and updated times of the tenant's row |
| Idempotency.ApplyKeepsOwned | kernel/api/idempotency.go:62-91 | every step keeps each reservation held by one request, with its own pending row |
| Idempotency.ExecuteKeeps | kernel/api/gateway.go:594-656 | a handler's run under a reservation keeps at most one success per key and every row truthful |
| Idempotency.ApplyKeepsInv | kernel/api/idempotency.go:62-160 | every step keeps: at most one success per key, its row kept, and rows and replays reporting a real execution of the same fingerprint |
| Idempotency.RunKeepsInv | kernel/api/idempotency.go:62-160 | every run from the empty table keeps that, crashes included |
| Idempotency.SucceededKeyNeverRuns | kernel/api/gateway.go:594-656 | after a success under a key no request executes under it; a later one is answered with that execution's status and stored body if and only if the row is finalized and the fingerprint is the execution's, else with a conflict |
| Idempotency.FinalRowStays | kernel/api/idempotency.go:133-160 | over every run a finalized row stays as it is |
| Idempotency.RecordedSuccessReplays | kernel/api/gateway.go:594-656 | once a 2xx has been recorded, whatever follows, every request with that key that looks it up is answered with the recorded status and body if and only if it has the same fingerprint, and with a conflict otherwise; a credentialed route records no body |
| Idempotency.OnlyFailureFrees | kernel/api/idempotency.go:149-160 | a key is freed only by a request of that key whose captured status is not 2xx |
| Idempotency.ShownSuccessKeptExactly | kernel/api/gateway.go:682-714 | a client shown success has its key kept if and only if the handler wrote something |
| Idempotency.SilentHandlerRunsAgain | kernel/api/gateway.go:682-714 | a handler that writes nothing is shown as 200 and leaves the key free to run again |
| Idempotency.KeyStaysFree | kernel/api/idempotency.go:62-91 | a free key stays free as long as no request reserves it |
| Idempotency.KeyTable.LookUp | kernel/api/idempotency.go:62-130 | an existing row is replayed, with its status and body, exactly when it is finalized and has the request's fingerprint, and is a conflict otherwise; without a row the request goes on to reserve |
| Idempotency.KeyTable.InsertPending | kernel/api/idempotency.go:62-91 | reserves a free key with a pending row, or loses the race |
| Idempotency.KeyTable.LookUpAgain | kernel/api/idempotency.go:80-107 | the loser gets the winner's status and body exactly when that row is finalized and has its fingerprint, and a conflict otherwise, also when the row is gone |
| Idempotency.KeyTable.ReserveOrDecide | kernel/api/idempotency.go:69-90 | executes if and only if the key is free when it reserves, and otherwise is answered from the winner's row as by then, among others' steps |
| Idempotency.KeyTable.Begin | kernel/api/idempotency.go:62-107 | takes exactly the lookup, and where that found nothing the reservation and at most the second lookup, among others' steps; executes if and only if the key is free both times, and is otherwise replayed or refused as the row says |
| Idempotency.KeyTable.Finalize | kernel/api/idempotency.go:133-145 | sets the status and body of the row, if it is still there |
| Idempotency.KeyTable.Discard | kernel/api/idempotency.go:149-160 | removes exactly that row |
| Idempotency.KeyTable.RunHandler | kernel/api/gateway.go:594-656 | an arbitrary status and body is one execution under the reserved key |
| Idempotency.KeyTable.Record | kernel/api/gateway.go:630-656 | finalizes a 2xx, discards anything else, then answers |
| Idempotency.KeyTable.ExecuteReserved | kernel/api/gateway.go:594-656 | the handler's run and the record of it among others' steps; after a 2xx the key holds that status and stored body, otherwise it is free, and when recording fails it stays pending |
| Idempotency.KeyTable.HandleWrite | kernel/api/gateway.go:594-656 | a whole write is exactly such a run among others' steps; refused exactly without a key; a key with a row is answered with its status and body if and only if it is finalized and of the request's fingerprint, else a conflict; without one it executes if and only if the key is still free when it reserves, else it is answered so from the winner's row; what it leaves under the key follows from the status |
| Capability.AddOwned | kernel/capability/registry.go:64-85 | registers exactly the given names for their owner, or refuses exactly when one is taken or given twice |
| Capability.Add | kernel/capability/registry.go:64-85 | adds the module exactly when its name, its capabilities and its objects are all new, and keeps one provider per capability and one owner per object |
| Capability.NextFits | kernel/capability/registry.go:64-85 | a manifest can be added exactly when it clashes with none before it |
| Capability.Load | kernel/capability/registry.go:31-99 | there is a catalog if and only if no two manifests share a module, capability or object and every requirement is offered by one of them; it holds exactly the listed manifests |
| Capability.Closure | kernel/capability/solver.go:18-56 | the worklist terminates with the least set that holds the seeds and the kernel and is closed under requirements; nothing exactly for an unknown seed |
| Capability.Visit | kernel/capability/solver.go:30-56 | one turn of the worklist keeps that progress and shrinks the queue or the modules left |
| Capability.ClosureUnique | kernel/capability/solver.go:18-56 | the closure is unique |
| Capability.DisableImpact | kernel/capability/solver.go:104-135 | exactly the enabled modules, kernel apart, that would lose a requirement |
| Capability.DisableKeepsClosed | kernel/capability/solver.go:104-135 | disabling a module keeps the rest closed if and only if no enabled module requires what it provides |
| Capability.ImpactIsEnough | kernel/capability/solver.go:104-135 | with no impact reported, disabling keeps the set sound if and only if no enabled kernel module requires what the module provides |
| Capability.SelfContainedKernel | kernel/capability/solver.go:104-135 | disabling without impact keeps the set sound when kernel modules require only kernel capabilities |
| Capability.KernelCanBreak | kernel/capability/solver.go:104-135 | without that premise a catalog exists whose kernel loses a requirement |
| Capability.ModuleState.Enable | kernel/capability/state.go:81-110 | turns on the least sound set that holds the old one and the module, and reports exactly what changed; an unknown module changes nothing |
| Capability.ModuleState.Disable | kernel/capability/state.go:115-140 | turns off exactly the module, or nothing; refused for a kernel module and exactly when another enabled module would lose a requirement; the set stays sound |
| Capability.ModuleState.ApplyProfile | kernel/capability/state.go:144-168 | adds the closure of the profile; a pending or unknown profile changes nothing; the set stays sound |

## Left out

- SQL text, drivers and dialects: tables are maps and sequences that keep uniqueness, order, compare-and-set guards and atomicity. Reserved words, identifier length and index names that clash across objects are not modelled.
- Database errors and cancelled contexts: a step commits or does nothing. A crash between steps is modelled in the queue, in delivery, in append and in idempotent writes; a failed finalize or discard as well.
- Schema evolution on SQLite: widening and relaxing columns is not executed there.
- Other sequence users and other tenants' writers are steps of the feed model; the event table's own feed is not covered, because its ids are drawn before the lock is taken.
- Feed references, job ids, overlay sources and snapshot row ids are numbers in the order of the identifiers they stand for.
- Authorization, sync hooks, plugins, CEL conditions and what job handlers do: taken as allowed, or as an arbitrary success, failure or crash.
- Which error is reported when several apply, except where the outcome is stated exactly.
- Enqueue with a zero run time: the default of now is the caller's argument here. Two enqueues of one new dedupe key that race in two transactions, one of which then fails on the unique index, are one after the other here.
- Instants before year 1, and instants whose window passes the range of the clock type.
- CronParse.ParseCron: starts from the five parts; splitting the expression at white space is not modelled. Digits are ASCII, and numbers beyond int64 are refused as the library refuses them.
- Decimal.ParseExact: reads plain decimal literals; exponents, fractions and the other forms of the rational parser are one `NotPlain` outcome, and trimming white space is not modelled.
- Decimal.PrintParse: digit counts up to 18, the most whose power of ten is an int64; ISO 4217 (minor unit column of table A.1) uses at most 4.
- Allocate.Allocate: the low 64 bits stand for a quotient that leaves the int64 range, which the library leaves undefined.
- Rounding.RoundsToNearest: an undeclared rounding mode truncates in the code and is left out of the law. The exchange-rate table and its history are not modelled.
- Schedules.RunWinsOnce: speaks of the firings won; jobs are `Schedules.OneJobPerFiring`. A node that dies between winning a firing and enqueuing its job loses it, as in the code.
- Schedules.ScheduleTable.RunOnce: what other nodes do to the schedule rows while the queue drains is not in the method; what they do to the queue is.
- Streams.SnapshotFoldsSame: the fold is any function of state and upcast event; that a saved snapshot was computed by it is its premise, as the code does not check it.
- RowRepr.GetAfterCreate: what a column or the JSON blob does to a value is a parameter with three laws (nil stays nil in both, the blob's effect is idempotent); a driver that refuses a value is not modelled. Field rules other than enums are parameters too.
- RowRepr.Crud.Create: the caller's id has passed its format check, and conditions on grants are taken as met. The audit row and its feed entry are in `Replica`.
- Listing with sorting, filtering and search (`ListPage` by id is in `Replica`); child rows (`Rows` fields) and links between objects.
- Idempotency.SucceededKeyNeverRuns: the fingerprint is compared, not computed, and stored bodies are kept or dropped by route as a parameter.
- The list of profiles and the two that are pending: a profile is a list of names and a flag.
- Rate limiting, sessions, devices, secrets, invoice numbering, PDF, exports and the HTTP surface: single-step behaviour, or arithmetic or isolation that the repository does not fix.

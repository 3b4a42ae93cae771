# Attenda API: verified models

Attenda is a multi-tenant Express and Prisma API for attendance, scheduling, time tracking and
payroll. This project models, in Dafny, the parts of it whose correctness spans several
statements, requests or pages, and proves what they promise over every input and every run.

| file | models |
|---|---|
| `TaskGraph.dfy` | project task dependencies: the depth-first cycle check and the graph it protects |
| `RequestFeed.dfy` | the merged "my requests" feed: keyset streams, composite cursor, failing sources |
| `IdempotencyProtocol.dfy` | the life of one idempotency key under concurrent requests |
| `StableSort.dfy`, `CanonicalRequest.dfy` | the canonical form behind the request hash |
| `TimeEntries.dfy` | time entries and timers under a lock that not every writer takes |
| `RuleTimeline.dfy`, `RuleRace.dfy` | effective-dated compliance rules, and two updates at once |
| `StatutorySets.dfy` | activation of statutory parameter sets and the drafts it makes stale |
| `EmergencyShift.dfy` | emergency shift offers: overnight intervals, rest, concurrent claims |
| `CalendarClock.dfy`, `IcsText.dfy` | local time to UTC, and text escaping for calendar feeds |
| `JobLease.dfy` | the token lease of scheduled jobs |
| `PayrollRun.dfy`, `PayrollGap.dfy`, `PayrollStale.dfy`, `PayrollRecall.dfy` | generating, finalizing and recalling the payroll of a period |
| `LaborCost.dfy` | planned labor cost, overtime exposure and budgets |
| `Optional.dfy` | the option type |

Conventions. A database transaction, a conditional `updateMany` and a Redis command are each one
step; the steps of different requests interleave freely, and what a request read earlier may be
out of date when it writes. Where a handler reads before the lock or transaction that writes, the
two are separate steps. Loops and in-place updates are methods proved against a specification;
protocols are state machines whose invariants hold in every run. Ids, hashes and tokens are
opaque: hashes are injective and tokens and ids are never reused. Clocks, random values, failing
statements and crashes are parameters or steps.

## What the code does not do

Nine expectations a reader may bring to the code do not hold of it. Each is shown on a concrete
input and bounded by the exact condition under which the code behaves.

- *The cursor is withheld while requests remain.* When every source that answered is exhausted and
  a failed one still has rows, the response says `has_more` but carries no `next_cursor`
  (`CursorWithheldExample`, exactly then by `CursorWithheldIff`).
- *The hash can depend on key order.* Keys are sorted with `localeCompare`, which ties canonically
  equivalent strings, such as the two spellings of an accented letter: a body with both hashes
  differently in its two orders (`AccentExample`). The canonical form ignores order exactly when no
  two keys of one object that are both not array indices are tied (`CanonicalIff`; JavaScript lists
  array indices first and by number, so ties with them do no harm), and the hash identifies equal
  requests exactly when no query parameters are tied either (`HashIsExactIff`). An array body is
  hashed as the object with its indices as keys (`ArrayBodyCollides`).
- *Numbers beyond the range of doubles are hashed as `null`.* `JSON.parse` reads `1e400` as Infinity
  and `JSON.stringify` writes it as `null` (`OverflowExample`); a request shares its hash with such a
  twin exactly when its hashed body holds a `null` or such a number (`OverflowCollidesIff`).
- *Some drafts keep a statutory set they no longer have.* In any calendar an open-ended set cut off
  by a one-day set leaves the next month without a set and its drafts unmarked
  (`OutlastingExample`), and so does a switch of country (`CountrySwitchExample`); the periods
  concerned are characterized by `UnmarkedChangeIff` and `CountrySwitchIff`.
- *Rest between emergency shifts is only checked one day around.* It is guaranteed against all dates
  exactly while shift length plus rest is at most 1441 minutes, with a breaking roster for every
  pair above the bound (`RestGuaranteedIff`).
- *A recalled payroll record cannot be processed again.* The comment at src/routes/payroll.ts:566-568
  says it can; finalization only moves drafts and nothing turns `recalled` back into `draft`. A
  recalled record is generated anew and reported as failed (`RecallThenFailed`); from any state a
  record can be or become processed if and only if it has not been recalled (`ProcessableIff`).
- *An incomplete payroll record can be processed.* Process-full counts incomplete records before it
  lists the records, and finalization does not look again; the cron takes no period lease. A record
  it creates with rate 0 in between is processed (`CronGapExample`), and a record that a run moves
  is incomplete if and only if it was created so, there (`MovedIncompleteIff`). Such a record then
  makes every later process-full of the period refuse until it is recalled (`IncompleteBlocks`).
- *Two rule updates at once can leave two versions in force.* `PUT /rules` reads the versions in force
  before it updates the organisation row, the only lock it takes. An update for day 10 that read
  before an update for day 5 committed reopens days 5 to 9 of the old version (`RaceExample`). A
  write is the update its request would make alone exactly when nothing came into force on its
  start day since it read, and what it read and left that day ends the day before
  (`LateIsSerialIff`).
- *Calendar events around a skipped hour have wrong lengths.* A 02:30 to 03:00 shift in New York
  becomes 23.5 hours (`SkippedStartExample`) and a 23:45 to 00:30 shift in Beirut ends before it
  starts (`SkippedEndExample`). `EventTimes` states from the readings and the instant of the change
  exactly when the end moves to the next day against its clock time, stays against it, or lies
  before the start: a reading has to be skipped, so if all readings exist none of this happens
  (`EventByReadings`, `EventIsWallClock`).

## Model

| member | source | states |
|---|---|---|
| `TaskGraph.CycleSearch.ReachesTask` | src/routes/projects.ts:328-333 | the recursive search terminates on every finite graph; true means a real path to the task; false leaves a visited set that is closed except for nodes still on the stack |
| `TaskGraph.BuildGraph` | src/routes/projects.ts:326-327 | the adjacency map holds exactly the rows read |
| `TaskGraph.WouldCreateCycle` | src/routes/projects.ts:334-336 | the guard is true exactly when some new dependency reaches the edited task, on cyclic graphs too |
| `TaskGraph.ReplacementAcyclicIff` | src/routes/projects.ts:305-336 | replacing a task's rows keeps an acyclic graph acyclic if and only if no new dependency reaches the task without the task's own rows |
| `TaskGraph.GuardIsExact` | src/routes/projects.ts:318-336 | reading only the project's rows loses nothing: the guard refuses exactly the edits that would close a cycle |
| `TaskGraph.FreshTaskKeepsAcyclic` | src/routes/projects.ts:208-217 | rows of a newly created task never close a cycle |
| `TaskGraph.StepKeepsInvariant` | src/routes/projects.ts:192-343 | early checks, creates, edits and project deletion keep rows inside one project, acyclic, and naming existing tasks |
| `TaskGraph.EveryRunStaysAcyclic` | src/routes/projects.ts:286-343 | in every interleaving of early checks and writes the graph of each project stays acyclic |
| `TaskGraph.RunIsHistory` | src/routes/projects.ts:192-343 | after any run the tasks are those created in projects not deleted since, and a task's rows are exactly the dependencies last written for it |
| `TaskGraph.EditGoesThroughIff` | src/routes/projects.ts:286-343 | an undisturbed edit goes through if and only if the task exists, its dependencies are in its project, and the graph with its rows exchanged is acyclic |
| `TaskGraph.CreationGoesThroughIff` | src/routes/projects.ts:192-217 | an undisturbed creation adds exactly the new task's rows, if and only if the id is new and the dependencies are in the project |
| `TaskGraph.TaskStore.ReplaceDependencies` | src/routes/projects.ts:305-343 | the transaction succeeds exactly when the task and its dependencies exist and the new graph is acyclic; then exactly the task's own rows are exchanged, otherwise nothing changes |
| `RequestFeed.CoverGivesTake` | src/routes/my-requests.ts:85-88 | a sample in which every missing item has n fetched items before it has the same first n items as the whole |
| `RequestFeed.FetchedCovers` | src/routes/my-requests.ts:66-75 | `limit + 1` rows per source decide both the page and whether more items exist |
| `RequestFeed.AdvanceConsumes` | src/routes/my-requests.ts:89 | after the positions are overwritten exactly the page's items stop matching the keyset condition |
| `RequestFeed.PageConsumes` | src/routes/my-requests.ts:80-89 | a page removes from the pending items what it shows and nothing else, and positions of failed sources do not move |
| `RequestFeed.Collect` | src/routes/my-requests.ts:81-86 | the merged list holds the rows of the sources that answered, each once, and the failed sources are listed |
| `RequestFeed.SortMerged` | src/routes/my-requests.ts:87 | the list is ordered by time descending, type, id descending, with the same items |
| `RequestFeed.Overwrite` | src/routes/my-requests.ts:89 | the new cursor is the old one advanced by the page in order |
| `RequestFeed.MergePage` | src/routes/my-requests.ts:77-93 | the page is the cut of the sorted available items, with the right cursor and `has_more` |
| `RequestFeed.FollowIsSorted` | src/routes/my-requests.ts:58-95 | following `next_cursor` from any position yields the pending items, sorted |
| `RequestFeed.PageShows` | src/routes/my-requests.ts:58-93 | a page holds rows beyond the cursor of sources that answered, newest first, as many as fit, and leaves out none that would come before one shown |
| `RequestFeed.FollowShowsEverythingOnce` | src/routes/my-requests.ts:58-95 | from the start every matching request appears exactly once, by time descending, type, and id descending, for any limit |
| `RequestFeed.HasMoreIsExact` | src/routes/my-requests.ts:90-93 | with all sources up `has_more` is true exactly when items remain, and then a cursor is sent |
| `RequestFeed.FailuresLoseNothing` | src/routes/my-requests.ts:77-93 | whatever fails on whatever page, shown and pending items split the starting set: no repeats, nothing skipped |
| `RequestFeed.EachSourceInOrder` | src/routes/my-requests.ts:77-93 | each source is shown in its own order and before all it still has pending, across failures |
| `RequestFeed.CursorWithheldIff` | src/routes/my-requests.ts:90-93 | items remain and no cursor is sent exactly when the sources that answered are exhausted and something is pending |
| `RequestFeed.CursorWithheldExample` | src/routes/my-requests.ts:90-93 | one failed source with a row and an empty one: `has_more` without a cursor |
| `IdempotencyProtocol.StepKeepsInv` | src/middleware/idempotency.ts:74-155 | every statement keeps records faithful to the history of their claim and keeps unexpired, unreleased claims stored |
| `IdempotencyProtocol.OneRunPerClaim` | src/middleware/idempotency.ts:97-112 | each stored claim admits exactly one handler run |
| `IdempotencyProtocol.NoSecondRun` | src/middleware/idempotency.ts:74-155 | while a claim is neither expired nor given up by its own run, no other handler is admitted in any run |
| `IdempotencyProtocol.AnsweredBlocksUntilExpiry` | src/middleware/idempotency.ts:117-153 | after a 2xx or 5xx answer no handler starts until the record expires |
| `IdempotencyProtocol.ReplayIsTheOwnersAnswer` | src/middleware/idempotency.ts:87-112 | a replay is the successful answer of the run that owns the record and goes only to a request with the same hash |
| `IdempotencyProtocol.RecordMoves` | src/middleware/idempotency.ts:76-153 | allowed moves: processing to completed, unknown or deleted, unknown to completed; completed is final until expiry; only expiry or the owner's refusal deletes |
| `IdempotencyProtocol.RetryOutcome` | src/middleware/idempotency.ts:74-95 | a retry that finds an unexpired record does not run: it is replayed if completed with the same hash, and told of the reused key, the unknown outcome or the running request otherwise; a run silent for five minutes becomes unknown |
| `IdempotencyProtocol.AnswerThenRetry` | src/middleware/idempotency.ts:74-153 | after a 2xx or 5xx answer and any later run before expiry, a retry of the same request gets the stored success, or the conflict of an unknown outcome; another request is told that the key is used |
| `IdempotencyProtocol.FailedStoreIsUnknown` | src/middleware/idempotency.ts:144-150 | a success that could not be stored is reported as an unknown outcome once marked |
| `IdempotencyProtocol.LostRaceOutcome` | src/middleware/idempotency.ts:97-112 | a request that loses the race to create the record is told what a retry would be told |
| `IdempotencyProtocol.ExpiredIsReplaced` | src/middleware/idempotency.ts:72-98 | a request that finds an expired record deletes it and runs under a new claim for 24 hours |
| `IdempotencyProtocol.RefusalFreesKey` | src/middleware/idempotency.ts:74-153 | after an answer below 200 or from 300 to 499 to a claim still processing the next request runs under a new claim for 24 hours |
| `StableSort.SortIsCanonical` | src/middleware/idempotency.ts:14-15 | without ties, lists with the same elements sort to the same list |
| `StableSort.SortKeepsFirstTied` | src/middleware/idempotency.ts:14-15 | the sort is stable: the first of a group of ties stays first, also under a coarser comparison |
| `StableSort.SortTwice` | src/middleware/idempotency.ts:13-16 | sorting by key and then stably by index is one sort with ties broken by key |
| `CanonicalRequest.StableObject` | src/middleware/idempotency.ts:13-17 | sorting with `localeCompare` and rebuilding the object, which lists array indices first, is one sort by index and then key |
| `CanonicalRequest.StableKeepsMeaning` | src/middleware/idempotency.ts:10-20 | canonicalization changes only key order: the meaning as nested maps is kept, and the result is an object JavaScript can list |
| `CanonicalRequest.StableIsIdempotent` | src/middleware/idempotency.ts:10-20 | canonicalizing twice changes nothing, ties included |
| `CanonicalRequest.CanonicalIff` | src/middleware/idempotency.ts:10-20 | canonical forms agree exactly on equal meanings if and only if no object has two tied keys that are both not array indices |
| `CanonicalRequest.TiedKeysLeak` | src/middleware/idempotency.ts:14-16 | tied keys at any depth, neither an array index, give an equal value with another canonical form |
| `CanonicalRequest.PayloadWellFormed` | src/middleware/idempotency.ts:26-28 | the hashed body means the body without the two dropped fields, arrays read by index |
| `CanonicalRequest.SameBodyIff` | src/middleware/idempotency.ts:26-28 | two object bodies are the same to the hash exactly if they agree on every field but `offline` and `idempotency_key` |
| `CanonicalRequest.QueryTieFreeIff` | src/middleware/idempotency.ts:30-31 | query parameters are tied exactly if both key and value are |
| `CanonicalRequest.CanonicalOrder` | src/middleware/idempotency.ts:13-16 | canonical objects list array indices by number and then the other keys by collation; the query by key and value |
| `CanonicalRequest.IndexIff` | src/middleware/idempotency.ts:13-16 | array indices are the decimal numbers up to 4294967294 |
| `CanonicalRequest.SameHashIff` | src/middleware/idempotency.ts:22-41 | two requests without ties hash alike exactly when they agree as written JSON up to key order, query order as a multiset, and the dropped fields |
| `CanonicalRequest.SameHashIsSound` | src/middleware/idempotency.ts:22-41 | equal hashes mean requests that are equal as written JSON, whatever the collation |
| `CanonicalRequest.OverflowCollidesIff` | src/middleware/idempotency.ts:40-41 | a request shares its hash with one that has a non-finite number for a `null`, or the other way round, exactly when its hashed body holds a `null` or such a number |
| `CanonicalRequest.OverflowExample` | src/middleware/idempotency.ts:40-41 | `1e400` and `null` in one field hash alike |
| `CanonicalRequest.HashIsExactIff` | src/middleware/idempotency.ts:22-41 | the hash identifies exactly the requests that are equal as written JSON if and only if nothing in the request is tied |
| `CanonicalRequest.TiesSplitRequests` | src/middleware/idempotency.ts:26-40 | with such a tie in body or query an equal request exists that hashes differently |
| `CanonicalRequest.AccentExample` | src/middleware/idempotency.ts:14-15 | a body with an accented key in both spellings hashes differently in its two orders |
| `CanonicalRequest.ArrayBodyCollides` | src/middleware/idempotency.ts:26-28 | an array body hashes like the object with its indices as keys |
| `TimeEntries.ShrinkingIsSafe` | src/routes/attendance.ts:1742-1754 | ending a timer or changing a status, at any moment and without the lock, keeps entries disjoint and pending checks true |
| `TimeEntries.StartIsClear` | src/routes/time-tracking.ts:98-115 | the check against the earlier clock reading covers the entry that starts at the later one |
| `TimeEntries.WriteKeepsInv` | src/routes/time-tracking.ts:101-210 | what was checked under the lock is still true when it is written |
| `TimeEntries.StopEndsTimer` | src/routes/time-tracking.ts:131-142 | after a stop the timer is not running; if it was still running it ends at the stop time with its rounded minutes, at least one |
| `TimeEntries.StartIff` | src/routes/time-tracking.ts:93-115 | a timer is stored open exactly if every entry has ended by the time of the check |
| `TimeEntries.StopIff` | src/routes/time-tracking.ts:131-142 | stop and checkout end a running timer with the nearest minute of its time, at least one |
| `TimeEntries.AddIff` | src/routes/time-tracking.ts:168-182 | an entry is stored with its times and nearest minutes exactly if it is forward, at most 1440 minutes, and shares no instant with another |
| `TimeEntries.EditIff` | src/routes/time-tracking.ts:189-208 | an edit is stored as a draft with its times and nearest minutes exactly if the entry is a completed draft or returned one and the time is free, forward and at most a day |
| `TimeEntries.SubmitIff` | src/routes/time-tracking.ts:239-253 | a submission exactly if no timer of the week runs; it moves the completed drafts and returned entries of the week and no others |
| `TimeEntries.ReviewMoves` | src/services/approval-workflows.ts:458-462 | a review locks or returns exactly the submitted entries of the week |
| `TimeEntries.FrozenStays` | src/routes/time-tracking.ts:191-208 | in any run submitted entries keep times and minutes unless a review returns them, and locked entries never change |
| `TimeEntries.SubmittedWeekIsFrozen` | src/routes/time-tracking.ts:243-253 | a submission freezes every entry that started in its week, through any later run without a returning review |
| `TimeEntries.EveryRunIsDisjoint` | src/routes/time-tracking.ts:23-31 | in every interleaving no two entries overlap, at most one timer runs, and a running timer is a draft |
| `TimeEntries.TimeFitsWindow` | src/routes/time-tracking.ts:23-31 | well-formed disjoint entries inside a window sum to at most its length |
| `TimeEntries.EveryRunCountsNearest` | src/routes/time-tracking.ts:136-200 | after any run an ended entry counts its duration to the nearest minute, or one if it is shorter than half a minute, and a running timer nothing |
| `TimeEntries.SheetFitsWeek` | src/routes/time-tracking.ts:216-234 | after any run the minutes of a timesheet exceed the time from the start of its week to the end of its last entry by at most one minute per entry, and fall short of the work by at most half a minute per entry |
| `TimeEntries.ShortTimersCount` | src/routes/time-tracking.ts:131-137 | a run in which a timer of one millisecond counts as a minute |
| `RuleTimeline.ValidIffOneInForce` | src/routes/compliance.ts:43 | non-empty versions are apart exactly when the as-of read returns at most one version per code |
| `RuleTimeline.RuleStore.CloseActive` | src/routes/compliance.ts:82-86 | the first loop deletes same-day versions of retired codes and ends the other versions in force the day before |
| `RuleTimeline.RuleStore.FindNext` | src/routes/compliance.ts:92 | the earliest later version of the code is found |
| `RuleTimeline.RuleStore.Install` | src/routes/compliance.ts:87-97 | a same-day version is rewritten in place, otherwise a version up to the next one is created |
| `RuleTimeline.SizeTellsRepeats` | src/routes/compliance.ts:70 | comparing the number of codes with the number of rules detects exactly the repeated codes |
| `RuleTimeline.RuleStore.PutRules` | src/routes/compliance.ts:76-97 | the transaction performs the update on the table, or refuses a repeated code and changes nothing |
| `RuleTimeline.UpdateIsValid` | src/routes/compliance.ts:76-97 | versions of a code stay non-empty and disjoint |
| `RuleTimeline.RetiredAnswers` | src/routes/compliance.ts:83-86 | a code left out has no rule from the start day to its next version and keeps every other answer |
| `RuleTimeline.PayloadAnswers` | src/routes/compliance.ts:87-97 | a code of the payload answers with the new rule from the start day to the next version (the days of the same-day version, if there was one) and keeps every other answer |
| `RuleTimeline.PastIsKept` | src/routes/compliance.ts:76-97 | as-of answers before the start day never change |
| `RuleTimeline.RunKeepsTimeline` | src/routes/compliance.ts:64-111 | over any sequence of updates versions stay disjoint, one version of a code is in force on a day, and days before all starts keep their answers |
| `RuleRace.LateIsSerialIff` | src/routes/compliance.ts:79-97 | a write driven by an earlier read is the update of the table as it now is if and only if its start day has not moved since |
| `RuleRace.QuietRunKeepsTimeline` | src/routes/compliance.ts:76-111 | interleavings in which no start day moves under a request keep versions disjoint |
| `RuleRace.RaceExample` | src/routes/compliance.ts:79-97 | a run of two updates after which two versions of a code are in force |
| `StatutorySets.MeetsIffSharedDay` | src/routes/payroll.ts:149-151 | the two comparisons skip exactly the sets that share no day with the new one |
| `StatutorySets.CloseRivals` | src/routes/payroll.ts:148-156 | the loop fails exactly if a set starting on or after the new one meets it; otherwise earlier ones end the day before; the "cannot be closed" branch is unreachable |
| `StatutorySets.ActivationIsValid` | src/routes/payroll.ts:148-157 | active sets of a country stay disjoint and non-empty |
| `StatutorySets.GovernedAfter` | src/routes/payroll.ts:148-157 | day by day, which set governs after the activation |
| `StatutorySets.DaysBeforeKept` | src/routes/payroll.ts:153-155 | days before the new start keep their set |
| `StatutorySets.FilterIsPlain` | src/routes/payroll.ts:130-142 | the three-case filter is the comparison of months |
| `StatutorySets.UnmarkedChangeIff` | src/routes/payroll.ts:134-159 | a draft whose governing set changes stays unmarked exactly when a truncated set governed a period after the new set's last month |
| `StatutorySets.OutlastingExample` | src/routes/payroll.ts:153-159 | in any calendar an open-ended set cut by a one-day set leaves an unmarked month without a set |
| `StatutorySets.CountrySwitchIff` | src/routes/payroll.ts:158-159 | when activation switches country, which unmarked periods change |
| `StatutorySets.CountrySwitchExample` | src/routes/payroll.ts:158-159 | in any calendar a switch of country can leave an unmarked month without a set |
| `StatutorySets.ParamStore.Activate` | src/routes/payroll.ts:125-161 | for a request nothing interferes with: each refusal with its condition, and the whole new table or no change |
| `StatutorySets.StaleActivationIsHarmless` | src/routes/payroll.ts:125-157 | an activation that read its set before another request activated it is refused or changes nothing |
| `StatutorySets.ActivationGoesThroughIff` | src/routes/payroll.ts:120-161 | an undisturbed activation goes through if and only if the set is a draft of somebody else and no active set of the country that starts on its first day or later shares a day; it then governs its days and leaves earlier ones alone |
| `StatutorySets.DraftIsPending` | src/routes/payroll.ts:104-117 | a drafted set governs no day, and somebody else can activate it |
| `StatutorySets.RunStaysDisjoint` | src/routes/payroll.ts:104-161 | in every interleaving of drafting, early reads and activating transactions, active sets stay disjoint, at most one governs a day, and stale activations are refused or change nothing |
| `EmergencyShift.TimeToMinsIsClock` | src/routes/shift-field-ops.ts:28-32 | the accepted strings are exactly the 1440 clock readings, each read as its minute |
| `EmergencyShift.ConflictsIsNotRested` | src/routes/shift-field-ops.ts:249-252 | the three-part conflict condition is the absence of the required rest |
| `EmergencyShift.ClaimNeverOverlaps` | src/routes/shift-field-ops.ts:232-255 | a claim that passes overlaps no assignment on any date |
| `EmergencyShift.ClaimKeepsRest` | src/routes/shift-field-ops.ts:241-255 | rest holds against the day around a claim by the check alone, and against a date two or more days away if the earlier shift and the rest fit into 1441 minutes |
| `EmergencyShift.RestGuaranteedIff` | src/routes/shift-field-ops.ts:241-255 | inspecting one day around guarantees rest exactly up to that bound |
| `EmergencyShift.ClosedIsNeverClaimed` | src/routes/shift-field-ops.ts:213-264 | an offer that is not open is never claimed again in any run |
| `EmergencyShift.SweptIsNeverClaimed` | src/routes/shift-field-ops.ts:113-116 | after a sweep only offers that were open with time left are claimed in any later run |
| `EmergencyShift.RunKeepsInv` | src/routes/shift-field-ops.ts:110-289 | in every run a claimed offer is no longer open, and no offer returns to open |
| `EmergencyShift.AtMostOneAssignment` | src/routes/shift-field-ops.ts:213-264 | in every interleaving an offer yields at most one assignment |
| `EmergencyShift.ClaimIff` | src/routes/shift-field-ops.ts:205-255 | in any reachable state a claim takes effect if and only if the offer is open, unexpired and not past its day, the employee is fit and free that day, and rested against the days around |
| `EmergencyShift.MadeInTime` | src/routes/shift-field-ops.ts:213-264 | every assignment made in any run stems from a claim of that offer by that fit employee before its expiry |
| `EmergencyShift.ExpiredClaimExample` | src/routes/shift-field-ops.ts:209-218 | a late claim of an offer nobody has swept changes nothing |
| `EmergencyShift.EveryClaimIsClear` | src/routes/shift-field-ops.ts:213-264 | a successful claim in any run is clear of the claimer's assignments, closes the offer and adds exactly its shift |
| `EmergencyShift.ClaimedCanBecomeCancelled` | src/routes/shift-field-ops.ts:287-289 | the unconditional cancel can land on an offer claimed in the meantime |
| `CalendarClock.LocalToUtc` | src/routes/calendar-feed.ts:14-24 | the loop with its early stop computes three corrections |
| `CalendarClock.ThreeRoundsSuffice` | src/routes/calendar-feed.ts:11-25 | with two offsets in reach the result reads as the requested time exactly when some instant does, and otherwise misses by the size of the change |
| `CalendarClock.OneRoundMisses` | src/routes/calendar-feed.ts:17-23 | one correction is not enough |
| `CalendarClock.EventTimes` | src/routes/calendar-feed.ts:54-56 | the length of an event is the clock difference less the change of offset; around a clock change, from the readings and the instant of the change: exactly when the end moves to or stays off the next day against its clock time, and when the event has positive length |
| `CalendarClock.SkippedIff` | src/routes/calendar-feed.ts:14-24 | a reading is skipped exactly if no instant reads so |
| `CalendarClock.CrossesIff` | src/routes/calendar-feed.ts:14-24 | of two readings the later is resolved no later exactly if they are closer than a jump forward, one of them is skipped, and they fall on its two sides |
| `CalendarClock.EventByReadings` | src/routes/calendar-feed.ts:54-56 | for a zone with one clock change, the three conditions without reference to the lookups |
| `CalendarClock.ChosenIs` | src/routes/calendar-feed.ts:14-24 | the first offset looked up is kept unless it reads wrong and the other reads right |
| `CalendarClock.EventIsWallClock` | src/routes/calendar-feed.ts:54-56 | in a zone with a clock change, if the readings of a shift exist the end is on the next day exactly when its clock time is not later, the event has positive length and both instants read as written |
| `CalendarClock.SkippedStartExample` | src/routes/calendar-feed.ts:54-56 | a half-hour shift that starts in a skipped hour lasts 23.5 hours |
| `CalendarClock.SkippedEndExample` | src/routes/calendar-feed.ts:54-56 | a shift that ends in an hour skipped at midnight ends before it starts |
| `IcsText.ChainIsEncode` | src/routes/projects.ts:478 | escaping the backslash first makes the order of the other replacements irrelevant |
| `IcsText.FeedIsEncode` | src/routes/calendar-feed.ts:7-9 | the feed escapes the text with CRLF read as LF |
| `IcsText.FeedRoundTrip` | src/routes/calendar-feed.ts:7-9 | decoding by section 3.3.11 of RFC 5545 gives the text back with CRLF as LF; no raw line feed is left |
| `IcsText.CopiesRoundTrip` | src/routes/shift-planning.ts:295 | the other two copies agree and decode to the unchanged text |
| `IcsText.SeparatorsAreEscaped` | src/routes/calendar-feed.ts:7-9 | in what any copy writes, every comma and semicolon follows a backslash and no line feed is left |
| `IcsText.CopiesAgreeIff` | src/routes/calendar-feed.ts:7-9 | the three copies agree exactly on texts without CRLF |
| `JobLease.LapsedStays` | src/jobs/scheduler.ts:62-80 | in any run a lapsed holder never regains the lease, and no renewal or release of it changes the key |
| `JobLease.HeldForTtl` | src/jobs/scheduler.ts:57-73 | acquiring or renewing holds the lease for 15 minutes through any run in which the holder does not release it |
| `JobLease.FreeAfterTtl` | src/jobs/scheduler.ts:57-62 | without a renewal the next firing starts after that time |
| `JobLease.CrashKeepsLease` | src/jobs/scheduler.ts:57-106 | after a crash the lease blocks the next firing until it runs out |
| `JobLease.ReleaseFrees` | src/jobs/scheduler.ts:74-80 | a release by the holder lets the next firing start |
| `JobLease.FiringLeavesFree` | src/jobs/scheduler.ts:57-106 | a firing that gets the lease, works and finishes leaves it free |
| `JobLease.OverlapNeedsLapse` | src/jobs/scheduler.ts:57-106 | two handlers run together only if one has let its lease lapse |
| `JobLease.TimelyRenewalsExclude` | src/jobs/scheduler.ts:57-106 | if renewals land within the TTL at most one handler of a job runs |
| `JobLease.MissedRenewalOverlaps` | src/jobs/scheduler.ts:57-106 | after a missed renewal two handlers can run |
| `PayrollRun.GenerateAll` | src/routes/payroll.ts:219-307 | every user without a processed record gets one made by the actor, keeping an existing status; processed ones are skipped and reported |
| `PayrollRun.ProcessKeepsInv` | src/routes/payroll.ts:671-790 | finalizing one record keeps maker and checker apart, moves unique, events matched and the report exact |
| `PayrollRun.StepKeepsInv` | src/routes/payroll.ts:197-816 | every step of generate, of process with its two counts and its listing, of cron, recall and staleness marking keeps the invariant |
| `PayrollRun.StepKeepsGap` | src/routes/payroll.ts:624-722 | every step keeps what a process run knows of incomplete records: those created since its count, and no others |
| `PayrollRun.EveryRunIsChecked` | src/routes/payroll.ts:633-739 | in every run processed records have different maker and checker, no stale draft moved, each processed record has exactly one payslip event, and it is incomplete exactly if it was created so after its run's count |
| `PayrollGap.MovedIncompleteIff` | src/routes/payroll.ts:624-722 | a record moved by a process run is incomplete if and only if the cron created it, incomplete, between the run's count and its listing |
| `PayrollGap.GapIs` | src/jobs/scheduler.ts:706-768 | the incomplete records a run lists are those the cron was first to create, incomplete, in its window |
| `PayrollGap.CronGapExample` | src/jobs/scheduler.ts:761-768 | a run that processes an incomplete record |
| `PayrollGap.IncompleteBlocks` | src/routes/payroll.ts:624-627 | until it is recalled a processed incomplete record keeps every process run from starting, whatever is generated |
| `PayrollStale.MarkedIsNotProcessed` | src/routes/payroll.ts:628-722 | after a mark on a draft, through any run that does not generate it again, it is not processed, gets no event, and no process run gets past its count |
| `PayrollStale.MarkedEarlyExample` | src/routes/payroll.ts:628-631 | a run in which the count of stale drafts refuses |
| `PayrollStale.MarkedLateExample` | src/routes/payroll.ts:717-740 | a run in which a mark after the listing makes the record fail |
| `PayrollStale.MakerNeverChecks` | src/routes/payroll.ts:638-645 | through any run that does not generate the record again, its maker does not process it |
| `PayrollStale.ProcessStartsIff` | src/routes/payroll.ts:624-646 | an undisturbed process run starts exactly if nothing is incomplete, no draft is stale, and the unprocessed records, at least one, are none of the actor's making |
| `PayrollStale.GenerateOne` | src/routes/payroll.ts:219-307 | generating a record names the maker, clears the mark and keeps the status |
| `PayrollStale.ProcessIff` | src/routes/payroll.ts:715-740 | a listed record is processed, with one event, exactly if its payslip was made and it is an unmarked draft |
| `PayrollRun.ProcessReportIsExact` | src/routes/payroll.ts:671-790 | every listed record is reported as exactly one of processed and failed, and those reported processed are the ones the run moved, in order |
| `PayrollRun.RecalledIsFinal` | src/routes/payroll.ts:582-586 | a recalled record is never processed again and gets no further event |
| `PayrollRecall.ProcessNow` | src/routes/payroll.ts:197-790 | from any state a run exists that processes a given record, unless it is recalled; it recalls what blocks the period first |
| `PayrollRecall.ProcessableIff` | src/routes/payroll.ts:569-790 | from any state a record is or can become processed if and only if it has not been recalled |
| `PayrollRecall.RecallThenFailed` | src/routes/payroll.ts:569-790 | a run that recalls a record, generates it anew and reports it failed |
| `PayrollRun.ProcessFull` | src/routes/payroll.ts:653-790 | the loop's counters, failure list and outbox agree with its results and cover the list |
| `PayrollRun.ProcessAllIsRun` | src/routes/payroll.ts:653-790 | the uninterrupted loop is one of the runs, so what holds of every run holds of it |
| `PayrollRun.NoPayslipFails` | src/routes/payroll.ts:757-789 | a record whose payslip could not be produced is reported as failed |
| `LaborCost.EffectiveRate` | src/routes/shift-planning.ts:182 | the first listed rate in force on the day, or none if none is |
| `LaborCost.RateIsPay` | src/routes/shift-planning.ts:182-186 | an hour pays the hourly amount, an eighth of the daily one, or an eighth of one of the monthly divisor's days, of the first rate in force, and the employee's hourly rate only without one |
| `LaborCost.WeekPay` | src/routes/shift-planning.ts:171-189 | an employee's week costs the minutes at the pay of an hour, and those beyond 48 hours at the overtime factor |
| `LaborCost.MonthlyExample` | src/routes/shift-planning.ts:182-189 | 26000 a month over 26 days pays 1000 for an eight-hour day |
| `LaborCost.ClockDistance` | src/routes/shift-planning.ts:26-31 | a shift lasts the way around the clock from start to end, less unpaid breaks, never negative |
| `LaborCost.OneBreak` | src/routes/shift-planning.ts:27-31 | unpaid breaks add up in any order and paid ones count for nothing |
| `LaborCost.Accumulate` | src/routes/shift-planning.ts:166-201 | the loop computes the fold of its turns over the list, at the prices pinned by `WeekPay` |
| `LaborCost.OvertimeKept` | src/routes/shift-planning.ts:174-179 | one assignment's increment keeps the running overtime equal to the sum of all excesses |
| `LaborCost.TotalsAddUp` | src/routes/shift-planning.ts:172-200 | minutes per employee, overtime as the sum of max(0, minutes - 2880), and projected = published + draft |
| `LaborCost.RowsAddUp` | src/routes/shift-planning.ts:193-198 | the day, department and location rows sum to the same totals |
| `LaborCost.RowsAreExact` | src/routes/shift-planning.ts:193-198 | a row exists exactly if it has an assignment, and holds the minutes and the projected, published and draft cost of exactly its assignments |
| `LaborCost.KeyIsInjective` | src/routes/shift-planning.ts:193 | rows are not mixed up: equal keys mean equal day, department and location |
| `LaborCost.BudgetSeesItsAssignments` | src/routes/shift-planning.ts:203-207 | the spend a budget is compared with is the cost of exactly its assignments |
| `LaborCost.OvertimeIgnoresOrder` | src/routes/shift-planning.ts:172-179 | reordering the assignments changes no employee's minutes and no overtime |

## Left out

- Express routing, request validation schemas, permissions, rate limits and error texts: no property that spans steps.
- Notifications, mail, storage, PDF content and AI providers: only the payslip outbox row is modelled.
- SHA-256, HMAC cursors, encryption of stored responses: taken as injective and reversible; the cursor is modelled as the position map it carries.
- Emergency claims by one employee for neighbouring days take no common lock in the code; each claim is one step here, so what two of them do to each other inside their transactions is not modelled. Set activations are ordered by their advisory lock, rule updates by the organisation row.
- Databases set to another isolation level than read committed.
- A lapsed payroll lease: period leases are assumed exclusive, which `JobLease` proves for the same Redis commands as long as renewals land in time.
- `PUT /payroll/:id/adjust`: it checks a record read before the lease and changes amounts only; amounts are not modelled.
- Deleting users: no route does it, so the references `generated_by` and `processed_by` are never cleared.
- Pay amounts, tax and statutory calculation, rounding and `toFixed`: amounts are exact or absent.
- The default `effective_from` of compliance rules, which carries a time of day: days are integers.
- Calendar data of IANA zones and seconds in old offsets: a zone is an offset function in minutes.
- Timesheet rows: the status checks of submission and review only restrict the steps modelled here.
- Availability and leave checks of an emergency claim, and `eligibleEmployees`: a single yes or no; availability compares an overnight shift's second part with the same day's rule.
- The eligibility listing of open shifts, budget variance rounding and the rest of the attendance routes: single-branch computations.
- In the request feed, database and merge compare ids by one order, which UUIDs of one format satisfy.

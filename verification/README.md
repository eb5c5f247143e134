# fineco-helper: a verified model

A Dafny model of the parts of fineco-helper whose correctness depends on more than one function: the two-process
login governor, the calendar and its timestamp strings, the per-area refresh lock, the circuit breakers, the
scanners and printers, and the loops over bank data. `dafny verify dfyconfig.toml` checks it all.

## What is modelled

- **Login governor** (`Wire`, `MarketWorker`, `LoginLedger`, `Governor`, `Admission`, `LoginTimes`). The
  controller keeps a permit, a predicted reuse window and a deque of debited logins; the worker, in another
  process, keeps the real session. `LoginLedger.LiveLoginState` and `MarketWorker.FinecoWorker` are the two
  objects as written, each method tied to a function on values; the same holds of `JobRuns.JobStore` and
  `Breaker.MarketCircuitState` below. Most of these methods are one step each and mirror their function, so the
  table lists only those with a loop or a sequence of steps. `Governor` composes those functions into one state
  machine: requests wait in a first-in-first-out queue, replies can be lost after the request was written,
  writes can fail, permits can be dropped, the worker can restart, the reaper ticks at any time (also in the
  middle of a read), the clock advances, and the bank picks every login and read result and the moment it sees
  the login. A read's timestamp is taken before its admission and may be older than the clock. The reuse
  time-to-live is any value, not only 180 s. A run is any sequence of events; an event that is not enabled
  changes nothing.
- **Calendar and timestamps** (`Calendar`, `Text`, `Timestamps`, `DateRange`). Both copies of the day count,
  with Rust's truncating division written out, against a calendar that only knows the next day and where day 0
  lies (`EpochIsDayZero`); the ISO-8601 printer and parser over whole strings; their string order; the movements
  look-back window.
- **Refresh lock** (`JobRuns`, `Refresh`, `RefreshRows`). The `job_runs` table with its partial unique index and
  its two `ORDER BY` queries, stale reclaim, the pre-flight gate and every run of both under a clock that may
  jump in either direction, with crashed jobs and late finishes.
- **Circuit breakers** (`Breaker`). One specification over the full history of attempts; the market counter and
  the row-derived refresh breaker are both shown to be it. `LoginFailureCountsIff` spells out which refused
  logins reach it as upstream failures.
- **Scanners and printers** (`InnerText`, `ShareableCsv`, `JsonLike`, `JsonDocuments`), **loops over data**
  (`MovementPages`, `Dividends`, `DividendLabels`).

Strings are sequences of characters. The timestamp parser tests bytes; a field that is not all ASCII digits is
refused, so the two views agree. SQLite and `BTreeMap` compare UTF-8 bytes, which is the order of the code
points.

Lemmas carry `{:induction false}` wherever Dafny would otherwise try an induction of its own, so that every
proof is the one written down.

## Where the code does not do what is said of it

- The comment at `crates/fineco-helper/src/controller.rs:145-150` says the predicted window and the held session
  agree except across a worker restart. While the clock is inside the window they do (`PredictedSessionIsHeld`),
  with one exception that cannot be observed: between the moment a read is served and the moment its reply is
  delivered or lost, the slot may already differ from the old window, which nothing consults while the permit is
  taken; it then agrees with the window the reply is about to open. A read that was *admitted* as a reuse can
  still log in afresh without any restart, when the reaper ticks at or after the window's end before the worker
  takes the request: `ReaperCanBeatAReuse` is such a run and `ReuseIsServedWithoutLogin` gives the exact
  condition, `TimelyReuseNeedsNoLogin` one by the clock. The login is still debited and still within the cap.
- The comment at `crates/fineco-helper/src/controller.rs:209-215` calls the hourly budget a hard cap on fresh
  logins. It is one on logins counted under the timestamps of their reads (`MarketLoginsAreCapped`). By the
  clock it is not: a request whose reply was given up on stays queued at the worker and still logs in when its
  turn comes, so reads stamped an hour apart can log in together. `ThirteenInOneSecond` is such a run, with no
  dropped permit and no restart. `EveryRunIsCappedIff` gives the exact condition: twelve logins per stretch of
  the clock hold in all runs whose logins come at most `wait` seconds after their reads' timestamps iff the
  stretch and `wait` together are at most 3600 seconds.
- The circuit breakers space probes by the cooldown under any wall clock, from the n-th failure of a run on. An
  earlier failure of the run is cleared by that wait exactly when it is no later than the newest one
  (`EarlyFailureIsClearedIff`, at the market counter `CounterClearsIff`); `EarlyFailuresNeedTheOrder` is a
  sequence of reads on a clock that jumped back in which one is not.
- The comment at `crates/fineco-refresh/src/lib.rs:440-442` says a running row is always the latest row. On a
  clock that jumps back that fails without a cooldown: in the run of `BackwardsRunHidesTheRunningRow` the latest
  row is a completed one. It holds over all runs iff the area has a positive cooldown or a daily budget of zero
  (`RunningIsLatestIff`). The agreement of the pre-flight with the lock fails on the same run
  (`BackwardsRunDisagrees`) and has the same exact condition (`LockFollowsPreflightIff`). The shipped limits
  meet it (`DefaultsAreCooling`).

## Model

| member | source | states |
|---|---|---|
| Governor.PredictedSessionIsHeld | crates/fineco-helper/src/controller.rs:145-150 | over every run, while the clock is before the predicted expiry the worker holds a session with exactly that expiry, unless it restarted, and then it holds none; while a served reply is undelivered the expiry meant is the one the reply opens, not the old one |
| Governor.ReuseIsServedWithoutLogin | crates/fineco-helper/src/controller.rs:193-199 | over every run, a read admitted as a reuse is first served on the held session iff neither a restart nor a reaper tick at or past the window's end came since the slot was last set |
| Governor.TimelyReuseNeedsNoLogin | crates/fineco-helper/src/controller.rs:193-199 | over every run without a restart since, a reuse taken up before the window ends is served on the held session |
| Governor.ReaperCanBeatAReuse | crates/fineco-worker/src/lib.rs:1903-1913 | a concrete run without any restart in which a read admitted as a reuse makes a fresh login |
| Governor.MarketLoginsAreCapped | crates/fineco-helper/src/controller.rs:221-226 | over every run, restarts included, any hour of read timestamps holds at most 12 worker login attempts for market reads, plus one per permit dropped unfinished |
| LoginTimes.EveryRunIsCappedIff | crates/fineco-helper/src/controller.rs:209-215 | all runs without a drop, whose logins come at most `wait` seconds after their reads' timestamps, hold at most 12 logins in any `span` seconds of the clock iff `wait + span` is at most 3600 or `span` is 0 |
| LoginTimes.LoginTimesAreCapped | crates/fineco-helper/src/controller.rs:209-215 | the cap by login time in every run, drops counted, for any stretch that fits into the hour together with the longest wait |
| LoginTimes.ThirteenLogins | crates/fineco-live/src/lib.rs:400-406 | for every wait of up to an hour, a run without drop or restart with thirteen logins between the end of the wait and one hour |
| LoginTimes.ThirteenInOneSecond | crates/fineco-helper/src/controller.rs:209-215 | a run without drop or restart in which thirteen reads log in within one second |
| LoginTimes.EveryRunIsTimed | crates/fineco-worker/src/lib.rs:338-349 | over every run each login has a time, never before its read's timestamp |
| Governor.EveryLoginIsPaidFor | crates/fineco-helper/src/controller.rs:253-265 | over every run, all logins ever made are at most all debits plus all drops, plus one for a served reply still on its way |
| Governor.AdmissionsSeeTheWholeHour | crates/fineco-helper/src/controller.rs:193-230 | at every granted admission the front-pruned deque is the full debit history filtered to the last hour, it has room, and a read admitted as a fresh login is at least 60 s after every earlier debit |
| Admission.ReadIsAdmittedIff | crates/fineco-helper/src/controller.rs:188-230 | over every run with the permit free, a read is admitted iff its timestamp reads, the window is open or every debit is 60 s old, and fewer than 12 debits are under an hour old; inside the window the cooldown does not count; the answer is the reuse prediction or the refusal code |
| Admission.BusyPermitRefuses | crates/fineco-helper/src/controller.rs:175-192 | over every run, while the permit is taken a read and a refresh are refused with their codes and the ledger is untouched |
| Admission.RefreshIsAdmittedIff | crates/fineco-helper/src/controller.rs:175-186 | over every run a refresh is admitted iff nothing is in flight; it closes the window and touches no debit |
| Admission.PermitComesFree | crates/fineco-helper/src/controller.rs:316-405 | over every run whatever holds the permit can end and free it, debiting a lost reply and neither a failed write nor a refresh |
| Governor.ReadsUseTheNewestLogin | crates/fineco-worker/src/lib.rs:521-538 | over every run no closure call, the one after a repair included, is given a cookie older than the newest login of any kind; at most one login and two closure calls per read |
| Governor.EveryRunKeepsInvariant | crates/fineco-helper/src/controller.rs:138-265 | the composed invariant (permit and queue, window agreement, debit history) holds after every sequence of events |
| Governor.EveryRunIsAccounted | crates/fineco-helper/src/controller.rs:253-265 | over every run and for any window, logins made plus requests still owed never exceed debits plus drops plus the undelivered read; for any hour, debits plus the read in flight never exceed the budget |
| Governor.ReplyDescribesSlot | crates/fineco-helper/src/controller.rs:327-361 | whenever a reply makes the controller open its window, the worker's slot has the same expiry or was reaped at or after it, whatever the bank answered |
| Governor.ReplyAccountsForLogin | crates/fineco-helper/src/controller.rs:327-346 | a delivered reply debits a login iff the worker attempted one, for all login and read results |
| Governor.AgreementKept | crates/fineco-live/src/lib.rs:407-426 | every event, lost replies and failed writes included, keeps the window agreement |
| Governor.ShapeKept | crates/fineco-live/src/lib.rs:314-330 | every event keeps the in-flight request the youngest of the queue, the pending timestamp that of the read in flight, and the held cookie the newest |
| Governor.HistoryKept | crates/fineco-helper/src/controller.rs:209-220 | every event keeps the deque a suffix of the full debit history whose missing part is at least an hour old |
| Governor.AccountsKept | crates/fineco-helper/src/controller.rs:316-405 | every event keeps the login accounts of every window |
| Governor.BudgetKept | crates/fineco-helper/src/controller.rs:221-226 | every event keeps every hour of debits, with the read in flight, within 12 |
| Governor.AdmissionCases | crates/fineco-helper/src/controller.rs:188-230 | admission at a clock string either denies, changing at most the pruned deque, or grants the permit for that instant with the reuse prediction and room in the budget; when it must grant is `Admission.ReadIsAdmittedIff` |
| Governor.PrunedDequeIsLastHour | crates/fineco-helper/src/controller.rs:216-220 | front pops on the kept suffix leave the last hour of the whole history |
| Governor.OwedWhenAbandoned | crates/fineco-live/src/lib.rs:400-406 | a reply given up on turns exactly its own request into one the worker may still log in for |
| LoginLedger.PruneIsRecent | crates/fineco-helper/src/controller.rs:216-220 | on an ordered deque popping from the front equals filtering by age |
| LoginLedger.PruneKeepsSuffix | crates/fineco-helper/src/controller.rs:216-220 | pruning keeps a suffix, drops only entries an hour old or older, and stops at the first younger one |
| LoginLedger.CountInHour | crates/fineco-helper/src/controller.rs:221-226 | the debits of any hour containing an admission are among the entries the deque check counts |
| LoginLedger.CallEndsAs | crates/fineco-helper/src/controller.rs:327-361 | the whole ledger after a call, for each way it can end: a failed write debits nothing, a lost reply is debited, a reply is debited by its facts or, without any, by its code; only an answer or an asset not found opens the window |
| LoginLedger.PermitEndsAs | crates/fineco-helper/src/controller.rs:232-245 | a permit that ends without a market finish closes the window and debits its pending timestamp only when asked |
| LoginLedger.LiveLoginState.AdmitMarketOperation | crates/fineco-helper/src/controller.rs:188-230 | the in-place admission with its pop loop computes the admission function for every timestamp string |
| MarketWorker.ReadLimits | crates/fineco-worker/src/lib.rs:338-449 | any market read makes at most one login and two closure calls, each on the newest login's cookie of its moment, the second only after a repair login, and leaves in the slot only the newest login's cookie |
| MarketWorker.ReuseIsRepairedOnce | crates/fineco-worker/src/lib.rs:366-424 | a held session inside its window is reused; a 401 on it causes exactly one login and, if that succeeds, one more read with the new cookie; every reply and its facts |
| MarketWorker.FreshReadLogsInOnce | crates/fineco-worker/src/lib.rs:453-489 | every other read logs in exactly once, answers iff login and read succeed, and tries nothing again; every reply and its facts |
| MarketWorker.SlotAfterRead | crates/fineco-worker/src/lib.rs:496-519 | which session is held after any read: re-stored after an answer or an asset not found, dropped after a refused login or a last 401, otherwise left as the reaper left it |
| MarketWorker.MarksAfterRead | crates/fineco-worker/src/lib.rs:338-449 | after any read, the last reaper tick that could have taken the session it left, and the newest login that succeeded |
| MarketWorker.FinecoWorker.RunMarketRead | crates/fineco-worker/src/lib.rs:338-449 | the step-by-step read with its repair and the reaper ticks in between ends in the state, reply and closure-call cookies of the read function |
| Calendar.DaysRoundTrip | crates/fineco-core/src/freshness.rs:148-166 | every day count, negative ones included, converts to a real date whose day count it is |
| Calendar.DateRoundTrip | crates/fineco-core/src/freshness.rs:136-166 | every real date of every year comes back from its day count |
| Calendar.NextDayCount | crates/fineco-core/src/freshness.rs:148-166 | one more day is the next calendar day, for every day count |
| Calendar.DayCountOrdersDates | crates/fineco-core/src/freshness.rs:136-146 | day counts order dates exactly as year, month, day do |
| Calendar.WorkerCopyAgrees | crates/fineco-worker/src/lib.rs:1844-1891 | the worker's checked copy accepts exactly the real dates of 1970..9999 and gives core's epoch on all of them |
| Calendar.YearOfEraBrackets | crates/fineco-core/src/freshness.rs:153-157 | the year formula finds the one March-based year that contains the day, for all 146097 days of an era |
| Calendar.EraIsFloor | crates/fineco-core/src/freshness.rs:140 | the adjusted truncating quotient is the quotient rounded down |
| Timestamps.TimestampOrder | crates/fineco-store/src/jobs.rs:181 | for years 0000..9999 the printed strings sort exactly as the instants do, and are equal only for equal instants |
| Timestamps.ParseOfPrinted | crates/fineco-core/src/freshness.rs:67-80 | a printed instant, with any fraction of a second put before its Z, parses back to the instant |
| Timestamps.PrintedOfParse | crates/fineco-core/src/freshness.rs:64-120 | every accepted string is the printed form of its instant with at most a fraction added |
| Timestamps.RoundTripBothWays | crates/fineco-core/src/freshness.rs:168-185 | for strings without a point, parsing to an instant is the same as being its printed form |
| Timestamps.ClockStringsParse | crates/fineco-core/src/freshness.rs:168-173 | for every epoch at all, the clock's string parses back exactly inside years 0000..9999 and is refused outside |
| Timestamps.PrintedFields | crates/fineco-core/src/freshness.rs:177-185 | character by character: year, month, day, hour, minute and second stand in their places between their marks |
| Timestamps.RangeIsFourDigitYears | crates/fineco-core/src/freshness.rs:184 | the four-digit years are exactly the day counts -719528..2932896 |
| Timestamps.IndexOfAt | crates/fineco-core/src/freshness.rs:68 | splitting at a separator absent from the first part returns the two parts |
| DateRange.WindowSpansDays | crates/fineco-core/src/lib.rs:542-558 | for every accepted timestamp the window ends on its date and spans exactly the asked days, and the worker's check accepts it iff days is at most 90 and the window starts no earlier than year 0000 |
| DateRange.RangeIsAcceptedIff | crates/fineco-core/src/lib.rs:542-558 | for any two strings the range is accepted iff both are dates, in order and at most 90 days apart; otherwise the first failing test is the answer |
| DateRange.DateIsADay | crates/fineco-core/src/lib.rs:578-590 | a string is taken as a date iff it is the ten-character print of a midnight, which is its value |
| DateRange.DatePrefixIsMidnight | crates/fineco-core/src/lib.rs:578-590 | the date prefix of an instant parses to the midnight that opens its day |
| RefreshRows.RunsAreOrderedAndBudgeted | crates/fineco-refresh/src/lib.rs:438-490 | over every run, under any limits and any clock, no UTC day sees more rows of an area start than its daily budget and no two of them are running; with a positive cooldown of any two the later inserted starts later, at least min(cooldown, 901) s, the earlier is finished and is not the latest |
| RefreshRows.ShippedLimitsHold | crates/fineco-helper/src/controller.rs:82-124 | under the shipped limits, in numbers: at most 6 starts a day for orders, tax and movements and 4 for the rest, at least 600 s apart for orders, 900 s for movements and 901 s for the rest |
| RefreshRows.CountIsOfRows | crates/fineco-store/src/jobs.rs:215-223 | the number compared with the budget is the number of the area's rows with that date |
| Refresh.EveryRunIsLimited | crates/fineco-store/src/jobs.rs:61-64 | by induction over every run: the unique running row and the counted budget of every date, with no cooldown and no order of the start times; what is counted is `RefreshRows.CountIsOfRows` |
| Refresh.RunningIsLatestIff | crates/fineco-refresh/src/lib.rs:440-442 | over all runs a running row is always the area's latest row iff the area has a positive cooldown or a zero daily budget |
| Refresh.BackwardsRunHidesTheRunningRow | crates/fineco-refresh/src/lib.rs:440-442 | without a cooldown, a concrete run whose latest row is completed while an older-stamped row is running |
| Refresh.PreflightOpensTheLock | crates/fineco-store/src/jobs.rs:73-88 | over every run, whatever the pre-flight lets through takes the lock at the same instant |
| Refresh.LockFollowsPreflightIff | crates/fineco-refresh/src/lib.rs:440-473 | that holds over all runs iff the area has a positive cooldown or a zero daily budget |
| Refresh.BackwardsRunDisagrees | crates/fineco-refresh/src/lib.rs:470 | without a cooldown, a concrete run whose pre-flight says yes and whose lock says no |
| Refresh.CrashedJobReleasesTheArea | crates/fineco-refresh/src/lib.rs:452-472 | with a running newest row the pre-flight passes iff the row is over 900 s old, the date has budget and the breaker is closed |
| RefreshRows.PreflightAnswers | crates/fineco-refresh/src/lib.rs:432-491 | over every run of an area with a positive cooldown: which of the six answers the pre-flight gives, by the newest row, the rows that started on the day, and the codes and ages of the last terminal rows |
| RefreshRows.UnreadableTimesStopTheRefresh | crates/fineco-refresh/src/lib.rs:524-534 | a stored start time that cannot be read never lets a refresh through |
| Refresh.PreflightExactly | crates/fineco-refresh/src/lib.rs:432-491 | on an ordered area the pre-flight says yes iff the clock is in range, the newest row is old enough, the date has budget and the history does not trip the breaker |
| Refresh.LateFinishIsRefused | crates/fineco-store/src/jobs.rs:150-170 | under any limits, a finished or reclaimed row never changes again and a late finish reports false and changes no row |
| Refresh.EveryRunKeepsAreas | crates/fineco-store/src/jobs.rs:61-88 | the area invariant holds after every sequence of begins and finishes |
| Refresh.BeginAppends | crates/fineco-store/src/jobs.rs:73-148 | an allowed begin closes at most the dead job, appends one running row and returns its id |
| Refresh.BeginOverDeadJob | crates/fineco-store/src/jobs.rs:112-148 | over a job more than 900 s old the lock marks exactly that row failed/stale and retries the insert |
| RefreshRows.BeginDecides | crates/fineco-store/src/jobs.rs:73-148 | over every run, under any limits and any clock: a begin appends when nothing of its area runs, closes a job over 900 s old as failed and stale and appends, and otherwise changes nothing |
| RefreshRows.FinishStoresOutcome | crates/fineco-store/src/jobs.rs:157-170 | over every run a finish of a running row leaves exactly its status, time and code in that row and changes no other |
| Refresh.CircuitIsTheBreaker | crates/fineco-refresh/src/lib.rs:500-531 | the breaker read from the newest n terminal rows equals the specification over the whole terminal history |
| Refresh.RefreshProbesAreThrottled | crates/fineco-refresh/src/lib.rs:493-499 | over every run of an area with a positive cooldown, jobs of an unbroken run of upstream failures start one circuit cooldown apart one by one from the n-th failure on, and one cooldown after the failures before that |
| Refresh.LatestIsLast | crates/fineco-store/src/jobs.rs:176-187 | on an ordered area the newest row by start string and id is the last one inserted |
| JobRuns.NewestFirstSorts | crates/fineco-store/src/jobs.rs:176-187 | the query order holds all rows, latest start first and the larger id first among equal starts |
| Refresh.OrderedIsReversed | crates/fineco-store/src/jobs.rs:233-253 | sorting an ordered area by start string and id, newest first, reverses the insertion order |
| Refresh.DatePrefixIsDay | crates/fineco-store/src/jobs.rs:215-223 | two instants share their first ten characters iff they fall on the same UTC day |
| Breaker.FailingRunIsThrottled | crates/fineco-refresh/src/lib.rs:411-418 | for any history let through by the breaker, under any clock, the attempts of a failing run from the n-th failure on are a full cooldown apart one by one, so k attempts span k - 1 cooldowns |
| Breaker.EarlyFailureIsClearedIff | crates/fineco-helper/src/controller.rs:284-287 | waiting out a tripped breaker clears any given earlier attempt iff that attempt is no later than the newest one |
| Breaker.CounterClearsIff | crates/fineco-helper/src/controller.rs:275-289 | at the counter: every read let through starts 600 s after an earlier failure iff that failure is no later than the newest one, or no clock string is 600 s after the newest one |
| Breaker.EarlyFailuresAreCleared | crates/fineco-refresh/src/lib.rs:411-418 | inside a let-through failing run each probe is a cooldown after every earlier failure that is no later than the newest one |
| Breaker.EarlyFailuresNeedTheOrder | crates/fineco-helper/src/controller.rs:275-306 | a concrete sequence of reads let through by the counter, on a clock that jumped back, whose fourth read is before its first failure |
| Breaker.MarketCircuitIsTheBreaker | crates/fineco-helper/src/controller.rs:274-306 | the in-place counter refuses a read iff the full outcome history trips the specification |
| Breaker.CircuitOpenIff | crates/fineco-helper/src/controller.rs:274-306 | the circuit is open iff the last three reads all failed with one of the three upstream codes, the last less than 600 s ago |
| Breaker.CounterIsTrailingRun | crates/fineco-helper/src/controller.rs:291-306 | the counter is the length of the trailing run of upstream failures, saturated, with the newest failure's time |
| Breaker.MarketProbesAreThrottled | crates/fineco-helper/src/controller.rs:54-60 | market reads let through by the circuit, under any clock: from the third failure of a failing run on they are 600 s apart one by one |
| Breaker.MarketBurstsAreShort | crates/fineco-helper/src/controller.rs:54-60 | market reads let through by the circuit: each probe of a failing run is 600 s after every earlier failure that is no later than the newest one |
| InnerText.InnerTextOfTree | crates/fineco-market/src/etf_enrichment.rs:176-218 | for every well-nested tree of text, elements, void and self-closing tags and comments, the scan of its rendering up to its closing tag is the tree's text with one space per tag or comment, whatever follows |
| InnerText.ScanForest | crates/fineco-market/src/etf_enrichment.rs:183-216 | at any depth, a rendered forest contributes its own text and leaves depth and rest as they were |
| InnerText.ScanElement | crates/fineco-market/src/etf_enrichment.rs:203-214 | an element opens and closes one level |
| InnerText.SkipComment | crates/fineco-market/src/etf_enrichment.rs:186-197 | a comment is skipped to its first `-->` and yields one space, even with tags inside |
| InnerText.CollectInnerText | crates/fineco-market/src/etf_enrichment.rs:180-218 | the one-pass loop computes the text function |
| InnerText.VoidByName | crates/fineco-market/src/etf_enrichment.rs:285-309 | a tag is void iff its lower-cased name is, whatever attributes or slash follow |
| InnerText.OpensIff | crates/fineco-market/src/etf_enrichment.rs:203-214 | a tag opens a level iff it does not end in `/>` and its name in lower case is none of the fourteen written out |
| InnerText.CutOffMarkup | crates/fineco-market/src/etf_enrichment.rs:186-198 | after any tree, a tag that never ends is dropped and a comment that never ends leaves its space |
| ShareableCsv.ReportReadsBack | crates/fineco-store/src/report.rs:103-120 | an RFC 4180 section 2 reader (line feed ends) gets the header and one 8-field record per row, each field the neutralized text or the number |
| ShareableCsv.ReadCell | crates/fineco-store/src/report.rs:163-170 | any value at all, with commas, quotes or line ends in it, survives quoting |
| ShareableCsv.NoTextCellIsAFormula | crates/fineco-store/src/report.rs:144-161 | no text field a reader gets starts with one of the nine characters written out; a value that did gets one apostrophe in front, any other is untouched |
| ShareableCsv.NumbersAreAsPrinted | crates/fineco-store/src/report.rs:126-131 | the seventh and eighth fields are the numbers' own texts, empty when absent |
| ShareableCsv.ShareableRowsToCsv | crates/fineco-store/src/report.rs:103-120 | the buffer loop prints the report function |
| JsonLike.NoBareLeft | crates/fineco-market/src/state.rs:60-114 | the output holds no bare undefined token outside strings, and a second pass changes nothing |
| JsonDocuments.DocumentIsNormalized | crates/fineco-market/src/state.rs:60-114 | cut into string literals, words and other characters, a text changes only in the words that are exactly `undefined`, which become `null` |
| JsonDocuments.EveryTextIsADocument | crates/fineco-market/src/state.rs:60-114 | every text at all can be cut so, ending possibly in a literal that is never closed |
| JsonDocuments.LiteralIsCopied | crates/fineco-market/src/state.rs:71-82 | a literal body of plain characters and escape pairs is copied whole, and the scanner is outside again after its quote |
| JsonLike.UnchangedIffNoBare | crates/fineco-market/src/state.rs:60-114 | the scanner is the identity iff the input had no such token |
| JsonLike.LiteralsUntouched | crates/fineco-market/src/state.rs:71-82 | every character of every string literal is left as it was, in order |
| JsonLike.RewritesLeftmost | crates/fineco-market/src/state.rs:91-111 | only the first bare token is replaced, by null, and the rest is rewritten the same way |
| JsonLike.NormalizeJsonLike | crates/fineco-market/src/state.rs:60-114 | the flag-driven loop computes the rewriting function |
| MovementPages.FetchIsWholeOrError | crates/fineco-worker/src/lib.rs:816-880 | against an honest endpoint a fetch is exactly the identifiable rows, once each and in order, with the first page's summary, or an error |
| MovementPages.FetchSucceedsIff | crates/fineco-worker/src/lib.rs:827-879 | against any endpoint a fetch succeeds iff one of the first 400 requests is reached and ends the walk completely |
| MovementPages.FetchFailsIff | crates/fineco-worker/src/lib.rs:827-879 | against any endpoint a fetch fails with a code iff a request made fails with it or brings an incomplete page, or the page cap is reached |
| MovementPages.RawAreIdentifiable | crates/fineco-worker/src/lib.rs:856-858 | the rows kept of any page are those with an id that is not blank, each once, in order, with its id and details |
| MovementPages.OffsetsStayInside | crates/fineco-worker/src/lib.rs:867-875 | on an honest endpoint each offset is the rows received so far, so none saturates and each request advances |
| MovementPages.ShortStatementsAlwaysArrive | crates/fineco-worker/src/lib.rs:867-873 | however short the pages, fewer than 400 rows are always read whole when no request fails |
| MovementPages.FullPagesAlwaysArrive | crates/fineco-worker/src/lib.rs:827-879 | with full pages up to the last, 399 pages of rows are always read whole when no request fails |
| MovementPages.FetchMovementPages | crates/fineco-worker/src/lib.rs:816-880 | the bounded loop computes the walk function |
| Dividends.EventsIgnoreOrder | crates/fineco-query/src/dividends.rs:167-173 | any permutation of the rows gives the same event list in the same order |
| Dividends.EventIsItsLegs | crates/fineco-query/src/dividends.rs:233-273 | an event's sides are the signed sums of its legs, absent when one is unreadable, its net their difference, its unpaired mark the missing leg |
| Dividends.EventsConserveLegs | crates/fineco-query/src/dividends.rs:176-231 | over the whole event list the legs add up, in number and in cents, to the coded legs of the input |
| Dividends.UnlabelledStandsAlone | crates/fineco-query/src/dividends.rs:189-196 | an unlabelled leg, wherever it stands, never shares an event unless another row has its id or carries it as a label |
| Dividends.GroupIsItsLegs | crates/fineco-query/src/dividends.rs:198-230 | each accumulator holds exactly the flags and sums of the rows with its key |
| Dividends.AscendingIsUnique | crates/fineco-query/src/dividends.rs:170-174 | the key order determines the event order |
| Dividends.PairDividends | crates/fineco-query/src/dividends.rs:173-274 | the grouping loop and the ordered traversal list every group once, in key order; which rows share a group is `DividendLabels.LegsMeetIff` |
| DividendLabels.LegsShareOneEvent | crates/fineco-query/src/dividends.rs:189-231 | a gross and a withholding leg of one label, date and kind, codes and prefixes written out, meet in one event that carries the label and the date and misses no leg |
| DividendLabels.LegsMeetIff | crates/fineco-query/src/dividends.rs:189-198 | two labelled legs share an event iff they agree on date, kind and label |
| DividendLabels.OneDividend | crates/fineco-query/src/dividends.rs:173-274 | a dividend and its withholding alone give exactly one event, with their label, date and difference |
| DividendLabels.CodesAre | crates/fineco-query/src/dividends.rs:79-108 | the five codes in any letter case, with their leg, kind and prefix; every other code is ignored |
| DividendLabels.LabelIsRead | crates/fineco-query/src/dividends.rs:116-133 | prefix in any letter case, white space anywhere around, then the label: the label alone is read |
| DividendLabels.NoLabelWithout | crates/fineco-query/src/dividends.rs:116-133 | without the prefix, or with nothing behind it, there is no label |
| DividendLabels.EventIsNamed | crates/fineco-query/src/dividends.rs:200-205 | an event has its key's kind, its date if a row has one, and its label iff a row has one |
| DividendLabels.EventsAreOrdered | crates/fineco-query/src/dividends.rs:170-174 | events come by date, then dividends before portfolio interest, then by label or row id |
| Dividends.TotalsOfPairing | crates/fineco-query/src/lib.rs:216-232 | for any rows the reported net is the sum of the event nets, and included plus excluded events are all events |
| Dividends.TotalsAreTheLegs | crates/fineco-query/src/lib.rs:216-232 | each total by itself is the signed sum of that side's legs over the events that have a net, and the rest are counted as excluded |

## Left out

- Sockets, TLS, HTTP, SQLite, mutex poisoning and panics are steps or absent. A dropped permit is a step; it debits nothing, as in the code, so the login cap counts drops.
- The governor's clock and the timestamps of its reads never step back. The breakers and the refresh lock are treated under any clock; the hourly login cap and the window agreement are not promised under one that steps back.
- A restart of the controller process: its ledger lives in memory and starts empty.
- The market circuit is not part of the composed run: it can only refuse reads before admission, and `Breaker` treats it on its own.
- Bodies of replies, cookie strings and cookie lifetimes; a cookie is the serial number of its login attempt.
- Steps inside one market read are not interleaved with controller steps, only with reaper ticks: the two processes share no memory, so a controller step during a read commutes with it.
- A request the worker cannot decode is the same as one it refuses before touching the session.
- `RefreshController` permits as objects with a destructor; finishing and dropping are methods and events.
- Overflow of i64 day counts near the ends of the range, of the i32 nesting depth, and of i64 cent sums: integers are unbounded there. Saturating, checked and truncating operations are written out where the code uses them.
- The conversion of float amounts to cents and of floats to text; numbers arrive as integer cents or as text made of digits, sign and point.
- `decode_entities`, `sanitize_text`, the full owner report, DTO mapping, policy and capability checks, gateway routing, audit lines.
- `record_job_start`, which nothing on the refresh path calls, and the capture tables.
- The retry decorator `with_retry`: the controller does not wrap its live client in it.

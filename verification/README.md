# Verified kernels of the personal dashboard

A Dafny model of the stateful and arithmetic kernels of the personal dashboard
backend and of its MCP session registry, with proofs of what they promise.

| file | models |
|---|---|
| `Calendar.dfy` | Gregorian dates, clamped month addition, the catch-up search for the next billing date |
| `Habits.dfy`, `HabitLaws.dfy` | the streak window query, the backward day walk it equals, and how log writes and weekday masks move it |
| `TodayQuery.dfy` | the lateral copy of the streak query inside the today read, over sets of rows |
| `HabitStore.dfy` | the log handlers, the streak read and the today read on the tables |
| `Buckets.dfy`, `BucketLaws.dfy` | one map of the rate limiter: pruning, lockout, eviction; its refinement of the unbounded history |
| `LoginFlow.dfy` | login attempts between the limiter's check and its record |
| `TokenMint.dfy` | reservations of token mints: reserve, commit, drop, interleaved |
| `RateLimiter.dfy` | the limiter and reservation objects, updated in place |
| `Subscriptions.dfy` | subscription lifecycle and the Pay transaction as atomic steps, and the handlers on mutable tables |
| `PayLocks.dfy` | concurrent Pays, creates, patches and deletes: one row lock at a time, with rollback |
| `Assets.dfy` | asset creation, valuations, the currency guard and net worth under interleaved row-locked transactions, with rollback |
| `Sessions.dfy`, `SessionLaws.dfy` | the session registry with re-entrant close callbacks, and its laws over runs |
| `ClientKey.dfy` | trusted address blocks and the right-to-left walk over the forwarded-for header |

Conventions. Instants are integers of a monotone clock. A calendar day in the
habit and asset models is a day number; `Calendar.DayNumber` numbers dates and
`Calendar.Weekday` is what `EXTRACT(DOW ...)` returns. Money is counted in
cents. Generated ids (rows, sessions) are parameters and are never reused.
Where the code may choose (which of several equally old keys to evict, which
transaction runs next), the choice is part of the event, and the theorems hold
for every choice. A transaction's writes become visible when it commits.

Code and documentation disagree in four places, and the model follows the
code. The module documentation of `assets.rs` says that there is no PATCH
(line 14), while the file has one, with the currency guard modelled here. The
limiter calls itself fixed-window (`rate_limit.rs` line 37), while its window
slides with every use.
It says that a lockout is the true remaining window (`rate_limit.rs` lines
393-395), while the announced duration counts from the oldest entry, and a
bucket that concurrent failures pushed past its limit stays locked longer:
`BucketLaws.AnnouncedLockoutFallsShort` gives an instance and
`BucketLaws.AnnouncedExactlyWhen` says exactly when the announcement is true.
And the module documentation of `habits.rs` says that masked-out weekdays are
ignored and that a missing unmasked day breaks the streak (lines 39-40). The
query filters rows only and counts in calendar days, so a weekday outside the
mask ends the run like any missing day: `HabitLaws.WeekendBreaksTheRun` gives
the smallest instance and `HabitLaws.MaskBridgesExactlyWhen` says exactly when
the two readings agree.

## Model

| member | source | states |
|---|---|---|
| Calendar.OrderIsDayNumber | backend/src/finance/dates.rs:70-73 | the calendar order that the billing code compares dates with is the order of day numbers, and a day number determines its date |
| Calendar.PredIsDayBefore | backend/src/finance/dates.rs:43 | the predecessor date, across month and year ends and in leap years, is the date whose day number is one less |
| Calendar.LastDayOfMonthIsLength | backend/src/finance/dates.rs:37-44 | the day before the first of the next month is the month length of the leap-year rule, for every year and month |
| Calendar.AddMonthsExact | backend/src/finance/dates.rs:49-55 | month addition moves the month index by exactly k and keeps the anchor day, clamped to the target month; adding 0 is the identity |
| Calendar.OccurrenceGap | backend/src/finance/dates.rs:46-55 | consecutive occurrences of one anchor are 28 to 31 days apart |
| Calendar.OccurrencesSpread | backend/src/finance/dates.rs:46-55 | month addition is strictly monotone in the number of months, at 28 to 31 days a month |
| Calendar.AddMonthsMonotoneInBase | backend/src/finance/dates.rs:49-55 | month addition is weakly monotone in the base date |
| Calendar.TwoStepAddition | backend/src/finance/dates.rs:46-55 | adding in two steps never overtakes one step, and equals it exactly when the intermediate month holds the day reached; always for days up to 28 |
| Calendar.CycleStepsIsLeast | backend/src/finance/dates.rs:61-75 | the closed form (month difference plus 0 or 1) is the least step past the threshold among all steps |
| Calendar.AdvanceNextBilling | backend/src/finance/dates.rs:65-77 | the bounded linear search returns the closed form, fallback included |
| Calendar.NextBillingIsSoonAfter | backend/src/finance/dates.rs:57-77 | an advance lands strictly after both the payment and the stored due date, at most 31 days past the later one |
| Calendar.FallbackExactly | backend/src/finance/dates.rs:20-23 | the plain pay-plus-one-month fallback is taken exactly when 1200 months do not pass the threshold; otherwise the result is the least later occurrence |
| Calendar.FirstBilling | backend/src/finance/dates.rs:65-68 | a subscription never billed is next due in the month after the pay, on the pay's day or that month's last |
| Calendar.NextBillingLeaps | backend/src/finance/dates.rs:57-77 | an advance moves the due date by at least 28 days |
| Calendar.DueDayDrift | backend/src/finance/dates.rs:46-77 | over any sequence of non-fallback advances the due day never rises and never drops below min(initial day, 28) |
| Calendar.YearFormula | backend/src/finance/dates.rs:37-44 | summed month lengths agree with the closed form of the Gregorian year count, for every year |
| Calendar.DayNumberClosedForm | backend/src/finance/dates.rs:37-44 | the day number of every date in closed form, which fixes each month's length in leap and other years |
| Calendar.WeekdaysAreAligned | backend/src/routes/habits.rs:2368-2396 | day numbers put weekdays where the calendar has them: 4 September 2026 is a Friday |
| Calendar.WeekdayOfEveryDay | backend/src/routes/habits.rs:115 | weekdays run through 0 to 6 day by day, aligned with that Friday, for every day |
| Habits.QueryCountsAboveBreak | backend/src/routes/habits.rs:112-115 | the window query counts exactly the non-skipped rows above the first day that is unlogged or breaking |
| Habits.DateArithmeticFindsHoles | backend/src/routes/habits.rs:115 | the query's date comparison holds for a row exactly when every day from it to the anchor is logged |
| Habits.StreakIsWalk | backend/src/routes/habits.rs:38-48 | for every log table the window query equals the backward walk from the latest log: done adds one, skipped passes, anything else stops |
| HabitLaws.FirstLog | backend/src/routes/habits.rs:105-115 | the streak after a first log is 1 for done and 0 otherwise |
| HabitLaws.LogAfterAnchor | backend/src/routes/habits.rs:105-115 | a log on the day after the anchor adds one, changes nothing or resets; a later log restarts the run |
| HabitLaws.FillBreak | backend/src/routes/habits.rs:105-115 | writing the first break joins the run below it: old + 1 + run below for done, old + run below for skipped, no change for a breaking status |
| HabitLaws.OlderWritesInvisible | backend/src/routes/habits.rs:105-115 | any set of writes older than the first break leaves the streak unchanged |
| HabitLaws.BreakRun | backend/src/routes/habits.rs:105-115 | writing a breaking status on any day of the run, the anchor included, or deleting one below the anchor, keeps exactly the part above it |
| HabitLaws.EraseAnchor | backend/src/routes/habits.rs:105-115 | deleting the anchor leaves the walk from the latest remaining log, or 0 when none is left |
| HabitLaws.RelabelInRun | backend/src/routes/habits.rs:105-115 | turning a day of the run from done to skipped or back, the anchor included, moves the streak by that day alone |
| HabitLaws.MaskBridgesExactlyWhen | backend/src/routes/habits.rs:38-40 | the query agrees with the reading that passes over masked-out weekdays if and only if the run ends at a scheduled day or no done day is next in line behind it |
| HabitLaws.MaskSelectsWeekdays | backend/src/routes/habits.rs:115 | the weekday filter keeps exactly the rows on listed weekdays, or all for an empty mask |
| HabitLaws.WeekendBreaksTheRun | backend/src/routes/habits.rs:38-40 | done on any Friday and the Monday after it under a Monday-to-Friday mask is a streak of 1, where passing over the weekend would give 2 |
| HabitLaws.WeekendLogsAreIgnored | backend/src/routes/habits.rs:2368-2396 | done on 4, 5 and 6 September 2026 is a streak of 1 under a workday mask and of 3 without one |
| HabitStore.WriteSeenThroughMask | backend/src/routes/habits.rs:915-996 | answers of create, patch and delete, and their effect on the filtered table: the written day alone, and only if scheduled |
| HabitStore.CreateDoes | backend/src/routes/habits.rs:915-945 | the owner can log every day up to today that has no row; each other case has its answer, 404, 409 or 422, and changes nothing; only that row is written |
| HabitStore.PatchDoes | backend/src/routes/habits.rs:947-975 | the owner can patch every row up to today, and a patch without a status writes nothing |
| HabitStore.DeleteDoes | backend/src/routes/habits.rs:977-996 | the owner can delete on every day up to today, row or no row, and none is left |
| HabitStore.MaskedOutWritesInvisible | backend/src/routes/habits.rs:112-115 | a create, patch or delete of a log on a masked-out weekday, by any writer and whatever its answer, never changes any reader's streak |
| HabitStore.LoggingAfterAnchorMovesStreak | backend/src/routes/habits.rs:915-945 | the streak read after the create handler logs a scheduled day past the anchor |
| HabitStore.WritingBreakMovesStreak | backend/src/routes/habits.rs:915-975 | writing the first break of the run: create takes it when the day has no row and patch when it has one, and the streak read gains the run below and the day itself |
| HabitStore.WritingInRunMovesStreak | backend/src/routes/habits.rs:947-996 | patching or deleting a day of the run, the anchor included: how the streak read moves |
| HabitStore.CreateThenDelete | backend/src/routes/habits.rs:977-996 | toggling a log on and off restores the streak read and the today read of every user, on every day |
| HabitStore.WritesMoveOneLine | backend/src/routes/habits.rs:1025-1038 | a log write moves no line of anyone's today read but its habit's |
| HabitStore.RunsStayReachable | backend/src/routes/habits.rs:85-87 | over every run of log writes by any users, rows stay owned by the habit's owner, never lie in the future, and no row of the legacy status appears that was not there at the start |
| TodayQuery.LateralIsStreakQuery | backend/src/routes/habits.rs:1038 | the lateral query over the selected rows, with its own counts and cut, gives the number of the streak query |
| HabitStore.TodayStreakIsStreakRead | backend/src/routes/habits.rs:1025-1038 | the today read lists exactly the caller's unarchived habits, each with the number its own streak read gives, though it selects and counts by a query of its own |
| HabitStore.TodayStatusExplainsStreak | backend/src/routes/habits.rs:1030-1038 | today's status is shown as logged, pending or not scheduled, and determines how the streak relates to the walk: through today on a scheduled day with a log, else from the latest scheduled log, which is older; with nothing logged the streak is 0 |
| HabitStore.Store.CreateLogHandler | backend/src/routes/habits.rs:915-945 | the in-place handler equals the specified insert, with its 404, 409 and 422 answers |
| HabitStore.Store.PatchLogHandler | backend/src/routes/habits.rs:947-975 | the in-place handler equals the specified update |
| HabitStore.Store.DeleteLogHandler | backend/src/routes/habits.rs:980-996 | the in-place handler equals the specified idempotent delete |
| BucketLaws.LimiterRefinesHistory | backend/src/auth/rate_limit.rs:176-239 | over every run a bucket is the in-window history since the key's last eviction; it never blocks a key the full history admits, and the answers coincide exactly when eviction lost nothing that matters |
| BucketLaws.RunKeepsInv | backend/src/auth/rate_limit.rs:386-437 | in every reachable state the map has at most max(1, max_keys) keys, no empty list, and buckets tied to their histories |
| BucketLaws.EvictionSparesTheActive | backend/src/auth/rate_limit.rs:410-437 | eviction happens only on a full map; a key at its limit goes only if all are; the victim's last failure is the oldest of its class |
| BucketLaws.LockoutLasts | backend/src/auth/rate_limit.rs:393-408 | for every reachable bucket, overshoot included: a lockout is positive and at most the window; it ends exactly one window after the entry that is limit places from the end; the announced instant is that end if and only if this entry is as old as the oldest; one window after the last failure the key is open |
| BucketLaws.LockedExactlyUntil | backend/src/auth/rate_limit.rs:396-408 | a bucket of at least limit entries in order of time is locked at an instant if and only if that instant is before its entry limit places from the end plus the window |
| BucketLaws.AnnouncedExactlyWhen | backend/src/auth/rate_limit.rs:393-395 | the key is open at the announced instant if and only if the oldest entry held and the one limit places from the end share an instant |
| BucketLaws.AnnouncedLockoutFallsShort | backend/src/auth/rate_limit.rs:393-395 | three failures against a limit of 2: a lockout of 4 is announced at 6, and the key is still locked at 10 |
| BucketLaws.ChecksInvisible | backend/src/auth/rate_limit.rs:173-203 | a check inserted anywhere in a run changes no later state but by pruning, and no later answer |
| Buckets.PruneTwice | backend/src/auth/rate_limit.rs:384-391 | pruning early and again late is pruning late |
| LoginFlow.OvershootIsBounded | backend/src/routes/login.rs:147-213 | with at most c attempts in flight between check and record, no bucket exceeds its limit + c - 1 |
| LoginFlow.OvershootIsReached | backend/src/routes/login.rs:147-213 | for every pair of limits and every c the bound of the map with the smaller limit is attained by a run |
| LoginFlow.ActionsShow | backend/src/routes/login.rs:147-213 | an attempt passes exactly when both its buckets have room; a wrong password adds to both, a right one empties the account's and leaves the client's, an internal error leaves both |
| TokenMint.MintBudgetHolds | backend/src/auth/rate_limit.rs:241-301 | for every interleaving of reserve, commit and drop a bucket holds at most the unreleased, unexpired reservations, exactly those unless its user was evicted within the last window, and committed mints stay within the budget in any half-open window after the user's last eviction |
| TokenMint.MintGrantedExactly | backend/src/auth/rate_limit.rs:255-282 | in every reachable state a mint is granted whenever fewer unreleased reservations than the budget are in the window, and only then unless the user was evicted within the window |
| TokenMint.MinterMapStaysTidy | backend/src/auth/rate_limit.rs:255-301 | in every reachable state the minter map has at most max(1, max_keys) keys, no empty list, and each list in order of time |
| TokenMint.ActKeepsInv | backend/src/auth/rate_limit.rs:255-301 | each reserve, commit and drop keeps the correspondence between log and buckets |
| RateLimiter.BoundKeys | backend/src/auth/rate_limit.rs:415-437 | the two-stage minimum search evicts a legal victim, and only when it must |
| RateLimiter.RemoveOne | backend/src/auth/rate_limit.rs:292-295 | position and remove take out the first equal instant |
| RateLimiter.LoginRateLimiter.CheckLogin | backend/src/auth/rate_limit.rs:176-203 | prunes both maps, records nothing, answers the longer lockout |
| RateLimiter.LoginRateLimiter.RecordFailure | backend/src/auth/rate_limit.rs:208-229 | both maps take one legal failure event |
| RateLimiter.LoginRateLimiter.RecordSuccess | backend/src/auth/rate_limit.rs:231-239 | the account's bucket is cleared, the client's is untouched |
| RateLimiter.LoginRateLimiter.ReserveTokenMint | backend/src/auth/rate_limit.rs:255-282 | check and reservation in one step, or the remaining lockout |
| RateLimiter.LoginRateLimiter.ReleaseTokenMint | backend/src/auth/rate_limit.rs:284-301 | exactly one slot at the reserved instant is given back |
| RateLimiter.TokenMintReservation.Drop | backend/src/auth/rate_limit.rs:375-382 | dropping releases the slot unless committed |
| RateLimiter.TokenMintReservation.Commit | backend/src/auth/rate_limit.rs:368-373 | committing keeps the slot through the drop that follows |
| Subscriptions.ApplyKeepsSound | backend/src/routes/subscriptions.rs:86 | every write keeps: no negative price, active exactly without a cancellation stamp, a ledger row for each last pay, movements in range and in the owner's one seeded category; a price that a write sets is also below the cap; a rejected write changes nothing |
| Subscriptions.PayAnswers | backend/src/routes/subscriptions.rs:438-443 | when a Pay is accepted and how it is refused, by the stored columns alone: with account and subscription owned, equal currency, active and a price in range, it conflicts if and only if a last pay is stored and the day is before the due date |
| Subscriptions.PayDoes | backend/src/routes/subscriptions.rs:661-691 | an accepted Pay debits the stored price from the one account, books it once, stamps the pay and advances the due date, and leaves price, currency, owner, status and every other row |
| Subscriptions.CreateDoes | backend/src/routes/subscriptions.rs:445-475 | a created row starts active, never paid and without a stamp, at a price in range |
| Subscriptions.PatchDoes | backend/src/routes/subscriptions.rs:534-574 | given fields are stored and the others stay; a reactivation clears the stamp and only the first cancellation sets it; nothing else moves |
| Subscriptions.DeleteDoes | backend/src/routes/subscriptions.rs:576-592 | the owner's row goes and its movements stay unlinked, else 404 |
| Subscriptions.RunConserves | backend/src/routes/subscriptions.rs:594-693 | over every run of pays, creates, patches and deletes, balance plus booked movements is constant for each account, and all tables stay sound |
| Subscriptions.SecondPayRejected | backend/src/routes/subscriptions.rs:438-443 | after a pay, another on the same or an earlier day is rejected, with 409 from the same account |
| Subscriptions.DuePatchReopensCycle | backend/src/routes/subscriptions.rs:438-443 | after a pay and a patch of the due date, the same pay is accepted again if and only if the new due date is not past its day |
| Subscriptions.PaysFollowTheCycle | backend/src/routes/subscriptions.rs:651-690 | along any run in which, once the subscription was paid, no accepted patch brings its due date forward and its id is not reused, later pays fall on or after every due date that pays set before, and n pays span more than 28 (n - 2) days; deletes and postponements are free |
| Subscriptions.Tables.PaySubscription | backend/src/routes/subscriptions.rs:594-693 | the handler's guards and four writes, in its order, are the Pay transaction |
| Subscriptions.Tables.PatchSubscription | backend/src/routes/subscriptions.rs:534-574 | the patch statement, with its stamp rule |
| Subscriptions.Tables.DeleteSubscription | backend/src/routes/subscriptions.rs:576-592 | deletion unlinks the movements and keeps them |
| PayLocks.PaysAreSerializable | backend/src/routes/subscriptions.rs:602-691 | under every schedule of lock steps, rollbacks, creates, patches and deletes, tables and answers are those of the answered requests run one after the other; what rolled back leaves no trace |
| PayLocks.SomePayCanStep | backend/src/routes/subscriptions.rs:31-32 | no deadlock: while a request has not ended, some request can take its next step, without any rollback |
| PayLocks.WaitsForAHolder | backend/src/routes/subscriptions.rs:31-32 | a request that cannot take its next step wants a row that another one holds: account, then subscription, then category; creates and requests without such a row never wait |
| PayLocks.SchedulesAreFinite | backend/src/routes/subscriptions.rs:602-691 | no livelock: at most five steps for each request |
| PayLocks.AtMostOnePayADay | backend/src/routes/subscriptions.rs:651-655 | of concurrent pays of one subscription on one day at most one succeeds, whatever else runs, deletes included, unless the owner patches the due date to a day not past that one |
| PayLocks.TwoPaysNeedReopening | backend/src/routes/subscriptions.rs:438-443 | the exception is exact: two equal pays and a patch of the due date have a schedule in which both pays succeed if and only if the new due date is not past their day |
| PayLocks.StepKeepsInv | backend/src/routes/subscriptions.rs:602-691 | every lock step, single-statement write and rollback keeps exclusiveness of rows, validity of reads and the serial correspondence |
| Assets.ValuationsStaySound | backend/src/routes/assets.rs:721-778 | under every interleaving dates strictly increase, the cached value is the latest valuation, history only grows, currency is fixed once there is history, and no insert meets a duplicate date |
| Assets.ValuationsAreSerializable | backend/src/routes/assets.rs:721-778 | under every interleaving and any rollbacks, tables and answers are those of the answered requests run alone, one after the other |
| Assets.StepKeepsInv | backend/src/routes/assets.rs:100-107 | every statement and rollback keeps what the other transactions read under their row locks true until they end, and the serial correspondence |
| Assets.WaitsForAHolder | backend/src/routes/assets.rs:100-107 | no deadlock: a request that cannot take its next step wants the row of a holder that can take its own |
| Assets.RelabelKeepsNetWorth | backend/src/routes/assets.rs:592-618 | neither a currency patch nor a new asset changes any currency's total |
| Assets.NetWorthIsSumOfLatest | backend/src/routes/assets.rs:120-122 | in every reachable state the aggregate over cached values is the sum of the latest valuations of exactly the user's own assets that are not archived and in that currency |
| Assets.NetWorthMovesWithOneAsset | backend/src/routes/assets.rs:120-122 | each statement moves a total by the change of one asset's share |
| Assets.ArchivingLowersNetWorth | backend/src/routes/assets.rs:120-122 | archiving takes the latest valuation out of the total of its user and currency, and out of no other |
| Assets.ValuationMovesNetWorth | backend/src/routes/assets.rs:120-122 | a valuation replaces the latest one in the total of its user and currency, and in no other |
| Assets.ValuationDoes | backend/src/routes/assets.rs:721-778 | a valuation is accepted exactly when dated after every stored one; it is appended and becomes the current value, and nothing else changes |
| Assets.RelabelDoes | backend/src/routes/assets.rs:592-618 | a currency patch is accepted exactly when it changes nothing or no valuation exists, and moves the label alone |
| Assets.ArchiveAndCreateDo | backend/src/routes/assets.rs:450-537 | archiving is accepted for a live asset of the caller, else 404; a created asset starts live, at zero and without history |
| Assets.Tables.CreateAsset | backend/src/routes/assets.rs:450-476 | a new asset starts live, with value zero and no history |
| Assets.Tables.CreateValuation | backend/src/routes/assets.rs:721-778 | the handler run alone: lock, ordering guard, insert, trigger |
| Assets.Tables.PatchCurrency | backend/src/routes/assets.rs:539-664 | the handler run alone: lock, currency guard, update |
| Assets.Tables.ArchiveAsset | backend/src/routes/assets.rs:521-537 | archiving sets the flag of a live asset of the caller |
| Sessions.SessionRegistry.CloseSession | mcp-dashboard/src/sessions.ts:69-74 | close terminates under re-entrancy and closes the session once |
| Sessions.SessionRegistry.CloseValue | mcp-dashboard/src/index.ts:258-260 | the close callback re-enters the registry with its own id and finds nothing |
| Sessions.SessionRegistry.ReapExpired | mcp-dashboard/src/sessions.ts:86-96 | the loop over the snapshot closes exactly the expired entries, in order |
| Sessions.SessionRegistry.OpenSession | mcp-dashboard/src/sessions.ts:43-47 | reap, test the cap, store |
| Sessions.SessionRegistry.GetSession | mcp-dashboard/src/sessions.ts:50-59 | look up, close if expired, else refresh |
| Sessions.SessionRegistry.TouchSession | mcp-dashboard/src/sessions.ts:62-67 | refresh if not expired |
| SessionLaws.SessionsCloseOnce | mcp-dashboard/src/sessions.ts:43-96 | over every run opened ids are the live and the closed ones together, nothing is closed twice or while live, and the cap holds |
| SessionLaws.OpenDoes | mcp-dashboard/src/sessions.ts:37-47 | an open succeeds if and only if fewer than max entries are within the TTL; it stores the session with a fresh timer and leaves the live ones as they are |
| SessionLaws.SweepDoes | mcp-dashboard/src/sessions.ts:76-96 | a sweep closes exactly the entries idle for longer than the TTL |
| SessionLaws.OrderIsKept | mcp-dashboard/src/sessions.ts:81-96 | a sweep closes expired sessions in the order of their insertion and keeps the others in it; an open appends |
| SessionLaws.UseDoes | mcp-dashboard/src/sessions.ts:49-74 | get and touch refresh an entry idle for at most the TTL; on an older one get closes it and touch does nothing |
| SessionLaws.OpenSparesTheLive | mcp-dashboard/src/sessions.ts:32-47 | opening never removes an unexpired entry and fails only at the cap |
| SessionLaws.GetIsExact | mcp-dashboard/src/sessions.ts:50-74 | over the events of any run: get succeeds exactly when the id was opened at some event, not closed or reopened after it, and every gap between its refreshes, this get included, is within the TTL; it returns the opened value |
| SessionLaws.TimerMeans | mcp-dashboard/src/sessions.ts:50-74 | the idle timer of an id runs if and only if there is an accepted open with no later close or accepted open, each later get or touch within the TTL of the refresh before it |
| SessionLaws.SweepsAreInvisible | mcp-dashboard/src/sessions.ts:37-79 | removing all sweeps and capacity probes from a run changes no result of get or open |
| ClientKey.ContainsIsPrefixEquality | backend/src/config.rs:24-83 | block membership by masks is equality of the addresses divided by 2^(width - prefix), within one family, for every prefix including 0 |
| ClientKey.TrustedIsSomePrefix | backend/src/config.rs:69-83 | an address is trusted if and only if it agrees with some listed block on that block's prefix |
| ClientKey.AndMask | backend/src/config.rs:69-83 | masking a word clears its low bits and keeps the others |
| ClientKey.RateLimitKey | backend/src/routes/login.rs:82-114 | the right-to-left loop with its early returns computes the key |
| ClientKey.SplitIsExact | backend/src/routes/login.rs:99 | the parts hold no comma and give the header text again with commas between them |
| ClientKey.TrimIsExact | backend/src/routes/login.rs:99 | trimming removes exactly the spaces and tabs around a text |
| ClientKey.ElementsOfJoined | backend/src/routes/login.rs:99 | texts with any blanks around them, written with commas between, are read back as the elements of the header |
| ClientKey.KeyIsRightMostUntrusted | backend/src/routes/login.rs:75-81 | the key is the right-most element that parses and is not trusted, or the peer, or 127.0.0.1 without a peer; a trusted key can only be the peer |
| ClientKey.TextToTheLeftNeverMatters | backend/src/routes/login.rs:100-113 | text left of the deciding element cannot change the key |

## Left out

- HTTP routing, DTO parsing, string formats of amounts and dates, password hashing and token generation: foreign code.
- chrono's finite year range and the 32-bit month arithmetic: years are unbounded integers, so the panics far outside the supported range are not modelled.
- Overflow of the NUMERIC columns: amounts are unbounded integers; only the caps the handlers check are modelled.
- Movements written by other routes, manual balance edits and account deletion: the conservation law is about the runs without them.
- RunsStayReachable: creation, archiving and deletion of habits are not modelled, so the habit table is constant in it.
- PaysAreSerializable: waits for foreign-key share locks are not modelled; a create that names the seeded category waits for the Pay that holds its row, and closes no cycle because it holds no other row that a Pay waits for.
- ValuationsStaySound: the probe of the patch handler before its transaction is not modelled, because the same question is asked again under the lock; metadata fields other than the currency are left out.
- RecordFailure: account keys arrive normalized; Unicode trimming and lowercasing are not modelled.
- CheckLogin: the response header rounds the lockout down to whole seconds with a minimum of one; the model speaks of the exact duration.
- CloseValue: a callback closes its own session, as the transport's does; callbacks that close other sessions are not modelled.
- SweepsAreInvisible: the clock never runs backwards, between operations or inside one.
- RateLimitKey: header values are visible ASCII, so trimming removes spaces and tabs; parsing one address literal is a parameter.
- Parsing of the trusted-proxy list, the weekday-mask validator, CRUD validators and response shapes: they would only add easy members.
- Goal progress, notes, tasks, events and the frontend: not part of this model.

# A verified model of the chat quota and subscription backend

The backend answers chat questions and charges each one either to a monthly free counter or to a paid
subscription, renews subscriptions in a billing job, limits request rates, issues and checks signed tokens, and
cleans user text. This project models those five parts in Dafny and proves what they promise.

`dafny verify dfyconfig.toml` checks everything.

## How the model is laid out

| file | content |
|---|---|
| `Records.dfy`, `QuotaSpec.dfy` | the stored rows, and one question as one atomic step; which row is charged; how many questions a user has left |
| `QuotaService.dfy` | the quota engine, the ledger and the question use case as classes over mutable tables, proved against `QuotaSpec` |
| `ChatSystem.dfy` | chat transactions and unlocked subscription writers interleaved step by step: private workspaces, row locks held to the commit, a unique key on (user, month), committed reads, whole-row saves of a snapshot |
| `ChatInvariant.dfy`, `Accounts.dfy`, `PaperTrail.dfy` | what every step keeps; deductions against counters over whole runs; what the stored messages and ledger rows say |
| `SerialLog.dfy`, `WriterRuns.dfy`, `ExclusiveWriters.dfy`, `Progress.dfy` | interleaved runs refine the serial program; what one writer saves; pending writers, and when cancelled is final; what is waited for, and no deadlock |
| `AtomicQuestions.dfy`, `Rollbacks.dfy`, `ConcurrentCapacity.dfy` | chats alone in one month: atomic questions, how they can end unanswered, how many are answered |
| `Calendar.dfy`, `Billing.dfy`, `UsageMonth.dfy` | the Gregorian calendar as JavaScript's Date computes it, billing periods, the usage-month key |
| `SubscriptionRepository.dfy`, `RenewalJob.dfy` | the subscription writers, renewal of one row and the job over all due rows, as classes; catching up |
| `RateLimiter.dfy`, `LimiterBounds.dfy` | the limiter as a class over a map of counters; bounds over every timed trace |
| `Base64Url.dfy`, `Jwt.dfy`, `Oidc.dfy` | base64url, compact tokens, claim checks |
| `Sanitize.dfy`, `EscapeHtml.dfy` | the text passes over UTF-16 code units |

`log` in `ChatSystem.World` records the committed operations. No step reads it; it exists so that "deductions since
the last grant", "free questions of this month" and "in commit order" can be stated.

## What the database and the runtime are taken to do

- PostgreSQL at READ COMMITTED: a locked read waits for the holder of the row's lock, then sees the committed version
  and checks its condition again; a row that no longer qualifies is passed over for the next one of the query. Locks
  last until commit or rollback. An insert waits for an uncommitted insert of the same unique key, and fails if that
  one commits. NULL sorts first under DESC. Rows that tie may come in any order.
- `save` outside a transaction writes every column of the object it is given, in one step that waits for the row's lock.
- Clocks, generated ids, the AI provider and the payment gateway may give any result, failure included.
- For the bounds on the limiter, the clock does not run backwards, the budget is an integer of at least one and the
  window is not negative.
- The server's time zone is a constant offset from UTC.
- HMAC-SHA256 is some function with 32-byte results. `JSON.parse` undoes `JSON.stringify` on objects.

## What turned out not to hold, and what holds instead

- The query may rank an expired row that is still active first; then a usable row behind it is missed
  (`ExpiredRowHidesUsableRow`). That is the only case (`QueryMissesOnlyBehindExpired`).
- A cancellation that lands between a renewal's read and its save is undone (`CancellationCanBeUndone`). Some run
  revives a row exactly when a renewal of it is pending at that moment (`RevivedExactlyWhenRenewalPending`), and
  cancelled is final exactly when neither a renewal nor a deactivation is (`CancelledIsTerminalExactlyWhen`); with one
  writer per row at a time none can be (`CancelledStaysCancelled`).
- Of two concurrent first questions of a month, one can fail although free messages are left (`SecondOfTwoFails`).
  Where the atomic question would not be refused, a chat is rolled back exactly when its counter row was committed
  between its locked read and its insert (`ChargeableIsRolledBackExactlyWhen`); never, once the row is there. Those
  collisions apart, the smaller of questions and units is answered (`AsManyAnswersAsUnits`).
- Monthly periods are not monotone in their start (`MonthlyEndIsNotMonotone`). No later start overtakes a given one
  exactly when the next month has its date, or the start is a midnight one date over (`MonthlyEndIsMonotoneExactlyWhen`).
- Twelve monthly periods do not always end where a yearly one does: `TwelveMonthsAreAYearExactlyWhen`.
- `Retry-After` does not promise that the next request is let through. It is rounded up to seconds, and requests that
  come after the window has ended but before the announced moment use up the next window (`RetryPromiseCanFail`). The
  promise holds for all follow-ups exactly when the rest of the window was a whole number of seconds
  (`RetryPromiseHoldsExactlyWhen`), and for given ones as `RetryAfterIsRight` says. A request at exactly the announced
  moment is then still rejected (`AtTheAnnouncedMoment`), because the window is compared with `>`.
- A budget below one works as a budget of one (`LowBudgetsActAsOne`), and a negative window limits nothing
  (`NegativeWindowAcceptsAll`).
- Sanitizing twice can differ from sanitizing once when the cap cuts just after white space;
  `IdempotentExactlyWhenItSettles` gives the exact condition.
- SYSTEM_DESIGN.md describes cancelling as "at cycle end" in its API table, and the choice of a subscription as one
  among those with quota left. The code makes a cancelled row unusable at once and looks at the first row only; the
  model follows the code.

## Model

| member | source | states |
|---|---|---|
| `QuotaService.Database.FindTopActive` | src/modules/chat/application/quota.service.ts:129-142 | the locked query returns an active row of the user such that, if it is metered, all the user's active rows are, none with a larger balance or an equal one and a later end; if it is unlimited no unlimited one ends later; or there is no active row |
| `QuotaService.QuotaService.DeductFreeQuota` | src/modules/chat/application/quota.service.ts:61-115 | with a message left in the month's counter, a missing counter standing for three, it grows by one and the rest is reported; otherwise refused with the tables unchanged |
| `QuotaService.QuotaService.DeductSubscriptionQuota` | src/modules/chat/application/quota.service.ts:117-200 | charges the preferred row if it is unexpired and unlimited or has something left; is refused only without active rows or when a preferred row cannot pay |
| `QuotaService.QuotaService.DeductQuota` | src/modules/chat/application/quota.service.ts:18-59 | free before subscription; in the columns of the rows: exactly the counter or the preferred row moves, by one, and the result reports what it has left; refused only when nothing pays, with no table changed |
| `QuotaService.UsageLedgerRepository.Create` | src/modules/subscriptions/infrastructure/typeorm-usage-ledger.repository.ts:17-38 | the ledger grows by exactly the given row |
| `QuotaService.AskQuestionUseCase.Execute` | src/modules/chat/application/ask-question.usecase.ts:23-64 | counters, message and ledger row change together or not at all: the row names user, message, the subscription charged or none, the source paid from, and one unit |
| `QuotaSpec.QueryMissesOnlyBehindExpired` | src/modules/chat/application/quota.service.ts:129-189 | charging the top row succeeds exactly when the entity's own rules find a usable row, if and only if the top row is unexpired or none is usable |
| `QuotaSpec.ExpiredRowHidesUsableRow` | src/modules/chat/application/quota.service.ts:156-166 | a concrete user with a usable row who is refused because an expired active row ranks first |
| `QuotaSpec.TopIsPreferred` | src/modules/chat/application/quota.service.ts:129-142 | the first row of the query is the one that larger balance, then later end, prefers, if and only if |
| `QuotaSpec.ChargeInColumns` | src/modules/chat/application/quota.service.ts:72-198 | a charge is an outcome if and only if, in the columns, it was due and exactly its counter moves by one |
| `QuotaSpec.RefusalInColumns` | src/modules/chat/application/quota.service.ts:92-189 | a refusal is an outcome if and only if no free message is left and no active row exists or a preferred one has expired or has nothing left |
| `QuotaSpec.UnlimitedIsNeverRefused` | src/modules/chat/application/quota.service.ts:129-179 | with an unlimited active row that has not expired, every question is answered and no metered balance is touched, whatever else the user has |
| `QuotaSpec.AskUsesOneUnit` | src/modules/chat/application/quota.service.ts:18-200 | with active rows metered and unexpired, a question succeeds exactly when free plus subscription units are left, and uses one |
| `QuotaSpec.ExactlyCapacityAsksSucceed` | src/modules/chat/application/quota.service.ts:18-200 | of questions asked in turn, the first as many as there are units succeed and all later ones fail |
| `QuotaSpec.AskLeavesOthersAlone` | src/modules/chat/application/quota.service.ts:73-75 | a question changes no other user's units |
| `ChatInvariant.ReachableInv` | src/modules/chat/application/quota.service.ts:72-142 | in every reachable world row locks are exclusive, every workspace fits the committed rows it was computed from, and writers' snapshots keep the row's identity |
| `ChatInvariant.CommitIsAnAtomicAsk` | src/modules/chat/application/ask-question.usecase.ts:28-63 | a commit changes the tables exactly as one atomic question allowed at that moment |
| `ChatInvariant.RowsFallDueAtPeriodEnd` | src/modules/subscriptions/infrastructure/typeorm-subscription.repository.ts:92-118 | in every reachable world each row's renewal date is its end date, stale writers included |
| `Accounts.NoDoubleSpend` | src/modules/chat/application/quota.service.ts:125-198 | in every reachable world, with stale renewals, cancellations and deactivations, an active metered row's balance plus its deductions since the last grant is its allotment, and its ledger rows never exceed allotment times one plus renewals |
| `Accounts.FreeCounterIsExact` | src/modules/chat/infrastructure/monthly-free-usage.orm-entity.ts:16 | in every reachable world each free counter is the number of that user's committed free questions of that month, at most the limit, and the ledger is the log's questions in commit order |
| `PaperTrail.LedgerAddsUp` | src/modules/chat/application/ask-question.usecase.ts:51-60 | in every reachable world each message has its ledger row and no others exist; each free counter is the sum of the amounts charged to it, at most three; a metered row's amounts stay within its allotments |
| `PaperTrail.MessagesAnswerTheirChats` | src/modules/chat/application/ask-question.usecase.ts:34-49 | in every reachable world each stored message carries the id, user and question of a committed chat and the answer saved for that chat |
| `SerialLog.SaveIsObserved` | src/modules/subscriptions/infrastructure/typeorm-subscription.repository.ts:58-139 | saving a stale snapshot is, on what questions can observe, the atomic operation on the current row |
| `SerialLog.RunsAreSerializable` | src/modules/chat/application/ask-question.usecase.ts:28-63 | every interleaved run equals its log replayed serially in commit order, each question allowed where it stands |
| `WriterRuns.WritersSaveWhatTheyRead` | src/modules/subscriptions/infrastructure/typeorm-subscription.repository.ts:58-139 | in every interleaved run a cancel, renewal or deactivation saves the row as it was read at some step since its start, changed in exactly the columns its use case assigns, and no other row |
| `ExclusiveWriters.ExclusiveRunsAreExact` | src/modules/subscriptions/application/renew-subscription.usecase.ts:38-73 | with one writer per row at a time, in commit order each renewal extends the row's current period and each deactivation meets an active row |
| `ExclusiveWriters.RevivedExactlyWhenRenewalPending` | src/modules/subscriptions/infrastructure/typeorm-subscription.repository.ts:92-118 | in any world with the invariant, a row that is not active can become active in some run if and only if an unsaved renewal of it exists then |
| `ExclusiveWriters.CancelledIsTerminalExactlyWhen` | src/modules/subscriptions/infrastructure/typeorm-subscription.repository.ts:58-139 | a cancelled row stays cancelled in every run from a world if and only if no unsaved renewal or deactivation of it exists in that world |
| `ExclusiveWriters.CancelledStaysCancelled` | src/modules/subscriptions/infrastructure/typeorm-subscription.repository.ts:58-77 | after a run with one writer per row at a time a cancelled row stays cancelled in every continuation, exclusive or not |
| `ExclusiveWriters.CancellationCanBeUndone` | src/modules/subscriptions/infrastructure/typeorm-subscription.repository.ts:98-115 | a concrete run in which a cancelled row becomes active and auto-renewing again |
| `AtomicQuestions.ChatsAreAtomicQuestions` | src/modules/chat/application/quota.service.ts:61-200 | chats alone in one month: each commit charges the row preferred at the commit, in the columns of the rows; each rollback but a failure or a violated key is the atomic refusal at the clock it read; no other step touches the tables |
| `AtomicQuestions.ChatsConserveUnits` | src/modules/chat/application/quota.service.ts:61-200 | however such chats interleave, a user's answered questions and units left add up to the units at the start |
| `Progress.ChatsWaitExactlyForLocks` | src/modules/chat/application/quota.service.ts:75-142 | in every world with the invariant an unfinished chat can take its next step if and only if no other transaction holds the counter or row that step needs |
| `Progress.WritersWaitExactlyForLocks` | src/modules/subscriptions/infrastructure/typeorm-subscription.repository.ts:58-139 | a writer can always read, and can save if and only if no transaction holds its row |
| `Progress.ArrivalsAreFree` | src/jobs/renewal.job.ts:37-42 | chats, creations and cancellations can start at any time, a renewal if and only if its row is active, auto-renewing and its renewal date has come |
| `Progress.AnyPreferredRowMayComeFirst` | src/modules/chat/application/quota.service.ts:129-142 | every preferred row heads some result of the query, however ties are broken |
| `Rollbacks.ChargeableIsRolledBackExactlyWhen` | src/modules/chat/application/quota.service.ts:72-91 | where the atomic question would not be refused, a step rolls a chat back if and only if it inserts a counter row that was committed between the chat's locked read and this insert |
| `Rollbacks.HowChatsEndUnanswered` | src/modules/chat/application/quota.service.ts:72-200 | over a whole run without outside failures, every chat that ends rolled back was refused when the atomic question would be, or collided so |
| `Rollbacks.WithTheRowThereEveryRollbackIsARefusal` | src/modules/chat/application/quota.service.ts:72-91 | with the month's counter row there at the start every rollback is the atomic refusal |
| `Rollbacks.AskIsDecided` | src/modules/chat/application/quota.service.ts:18-59 | a question is always charged or refused, and for well-formed rows never open to both |
| `Rollbacks.SecondOfTwoFails` | src/modules/chat/application/quota.service.ts:72-91 | a concrete run: of two first questions the second fails on the unique key with two free messages left |
| `ConcurrentCapacity.AsManyAnswersAsUnits` | src/modules/chat/application/quota.service.ts:10-15 | over every interleaved run with metered, unexpired rows: of the user's questions that ended, collisions not counted, as many are answered as the smaller of them and the units at the start, and exactly those units are gone |
| `ConcurrentCapacity.SmallerOfQuestionsAndUnits` | src/modules/chat/application/quota.service.ts:10-15 | with the counter row there, of n questions that ended exactly min(n, units) are answered, however they interleave |
| `ConcurrentCapacity.UnlimitedChatsAreNeverRolledBack` | src/modules/chat/application/quota.service.ts:168-174 | with the counter row there, no chat of a user with an unlimited unexpired row is ever rolled back in such a run |
| `Progress.SomebodyCanMove` | src/modules/chat/application/quota.service.ts:72-142 | in every reachable world with unfinished work some step that carries on is enabled, with the usage month whatever the clock says |
| `Progress.SchedulesAreBounded` | src/modules/chat/application/ask-question.usecase.ts:28-63 | no schedule of started work runs longer than a bound read off the start |
| `Progress.EverybodyCanFinish` | src/modules/chat/application/ask-question.usecase.ts:28-63 | from every reachable world the started work can be carried to its end within that bound, in any one usage month |
| `Calendar.MakeDayOfCivil` | src/modules/subscriptions/domain/billing.policy.ts:15-21 | every day number reads as a valid date that the date setter maps back to it |
| `Calendar.CivilOfMakeDay` | src/modules/subscriptions/domain/billing.policy.ts:15-21 | every valid date is read back from the day the setter gives it |
| `Calendar.DayFromYearClosedForm` | src/modules/subscriptions/domain/billing.policy.ts:15-21 | counting years from 1970 agrees with the closed form of section 21.4.1.3 of ECMA-262 |
| `Calendar.MonthTable` | src/modules/subscriptions/domain/billing.policy.ts:15-21 | the months start on the days of the year that section 21.4.1.4 of ECMA-262 lists |
| `Billing.LocalNewYear` | src/modules/subscriptions/domain/billing.policy.ts:18-22 | a concrete instant whose local date is a day later one hour east of Greenwich |
| `Billing.ComputeCycleEndDate` | src/modules/subscriptions/domain/billing.policy.ts:14-24 | the end is a new date at the end of the period; the given date is untouched |
| `Billing.PriceCents` | src/modules/subscriptions/domain/subscription-tier.config.ts:15-46 | prices are positive and a year costs ten months |
| `Billing.MonthlyPeriodLength` | src/modules/subscriptions/domain/billing.policy.ts:18-19 | a monthly period lasts as many days as the month it starts in, for every date |
| `Billing.YearlyPeriodLength` | src/modules/subscriptions/domain/billing.policy.ts:20-22 | a yearly period lasts 366 days exactly from January or February of a leap year or from March on before one, else 365 |
| `Billing.MonthlyEndIsMonotoneExactlyWhen` | src/modules/subscriptions/domain/billing.policy.ts:18-19 | for every start: no later start has an earlier end if and only if its own end does not spill past the month after, which is if and only if that month has its date or it is a midnight one date over |
| `Billing.MonthlyEndIsNotMonotone` | src/modules/subscriptions/domain/billing.policy.ts:18-19 | in every year a period from 31 January ends later than one from 1 February |
| `Billing.PeriodsTileTime` | src/modules/subscriptions/application/renew-subscription.usecase.ts:55-66 | successive periods tile time: each later instant lies in exactly one |
| `Billing.EarlyDateNeverMoves` | src/modules/subscriptions/domain/billing.policy.ts:18-19 | a billing day up to the 28th keeps its day through any number of monthly renewals |
| `Billing.TwelveMonthsAreAYearExactlyWhen` | src/modules/subscriptions/domain/billing.policy.ts:14-24 | twelve monthly renewals end where one yearly renewal does if and only if the start is up to the 28th, a 29 February, or a 29th with a leap-year February ahead |
| `Billing.LateBillingDaySettles` | src/modules/subscriptions/domain/billing.policy.ts:18-19 | a billing day from the 29th on comes down to the 28th or less, for good, after exactly the stated number of renewals |
| `Billing.SettlingTakesAtMost23` | src/modules/subscriptions/domain/billing.policy.ts:18-19 | that number is at most 23, and 23 for 29 March exactly before a leap year |
| `UsageMonth.SameBucketIsSameUtcMonth` | src/shared/date/get-current-usage-month.ts:6-11 | two instants have the same key exactly when they lie in the same UTC calendar month |
| `UsageMonth.KeyReadsAsYearAndMonth` | src/shared/date/get-current-usage-month.ts:6-11 | the key is YYYY-MM: its digits read as the UTC year and the month counted from 01 |
| `UsageMonth.NewYear2025` | src/shared/date/get-current-usage-month.ts:6-11 | the millisecond at which the key turns from 2024-12 to 2025-01 |
| `SubscriptionRepository.CreateSubscription` | src/modules/subscriptions/application/create-subscription.usecase.ts:21-49 | appends an active row with the given cycle's end as end and renewal date, the full allotment (10, 100 or unlimited) and the tier's price, ten times it for a year |
| `SubscriptionRepository.NewSubscriptionIsUsable` | src/modules/subscriptions/application/create-subscription.usecase.ts:27-45 | such a row is usable at once, well formed, not yet due, and falls due when it ends |
| `SubscriptionRepository.SubscriptionRepository.Create` | src/modules/subscriptions/infrastructure/typeorm-subscription.repository.ts:21-39 | appends the row under a new id |
| `SubscriptionRepository.SubscriptionRepository.Cancel` | src/modules/subscriptions/infrastructure/typeorm-subscription.repository.ts:58-77 | the row is cancelled without auto-renewal, all else unchanged; NOT_FOUND changes nothing |
| `SubscriptionRepository.SubscriptionRepository.Renew` | src/modules/subscriptions/infrastructure/typeorm-subscription.repository.ts:92-118 | the row gets the given dates and balance and is active, all else unchanged; NOT_FOUND changes nothing |
| `SubscriptionRepository.SubscriptionRepository.Deactivate` | src/modules/subscriptions/infrastructure/typeorm-subscription.repository.ts:120-139 | the row is inactive without auto-renewal, all else unchanged; NOT_FOUND changes nothing |
| `SubscriptionRepository.SubscriptionRepository.FindDueForRenewal` | src/modules/subscriptions/infrastructure/typeorm-subscription.repository.ts:79-90 | lists a row if and only if it is active, auto-renewing and its renewal date is not after now; each once, as it is, by renewal date |
| `RenewalJob.RenewSubscriptionUseCase.Execute` | src/modules/subscriptions/application/renew-subscription.usecase.ts:38-73 | an accepted charge of the listed price sets the current row's end and renewal date one period after the listed end, a full allotment and active; a declined one sets it inactive without auto-renewal; nothing else changes; a missing row is NOT_FOUND and changes no table, but its price may have been taken |
| `RenewalJob.RunRenewalJob` | src/jobs/renewal.job.ts:27-50 | outcomes match the due list in order, each due row is settled by its outcome, nothing else changes, accepted charges are the renewals' prices |
| `RenewalJob.CountsAddUp` | src/jobs/renewal.job.ts:44-49 | due is renewed plus failed, and there are as many charges as renewals |
| `RenewalJob.ChargedAreTheRenewed` | src/modules/subscriptions/application/renew-subscription.usecase.ts:39-43 | a charge is made if and only if it is the listed price of a renewed row |
| `RenewalJob.JobSettlesEveryDueRow` | src/jobs/renewal.job.ts:37-42 | an active auto-renewing row whose renewal date has come gets one more period and a full allotment, or is set inactive without auto-renewal, as its outcome says; every other row is as before |
| `RenewalJob.RunsFollowTheBoundaries` | src/jobs/renewal.job.ts:37-42 | while an active auto-renewing row's renewal date has not passed now, each successful run moves it to the next boundary of its own periods |
| `RenewalJob.CatchUpEnds` | src/jobs/renewal.job.ts:37-42 | a row D days behind has its renewal date after now, and is still active, after D / 28 + 1 successful runs, and after more |
| `RateLimiter.Limiter.Handle` | src/shared/security/rate-limit/rate-limiter.ts:39-94 | one request opens a window, counts, or is rejected with the seconds left rounded up and the counter as it was; other keys' counters stay; a missing or empty key is let through uncounted |
| `RateLimiter.KeysAreIndependent` | src/shared/security/rate-limit/rate-limiter.ts:37-93 | on every interleaved trace, keyless requests included, a key's decisions and remaining counts are those of a limiter of its own |
| `LimiterBounds.BurstIsBounded` | src/shared/security/rate-limit/rate-limiter.ts:51-93 | in any trace and any interval of L ms at most max * (L / (windowMs + 1) + 1) requests of a key pass, plus max - 1 unless windowMs + 1 divides L |
| `LimiterBounds.EveryKeyIsBounded` | src/shared/security/rate-limit/rate-limiter.ts:37-93 | the bound holds for each key of an interleaved trace over the shared store |
| `LimiterBounds.BurstBoundIsAttained` | src/shared/security/rate-limit/rate-limiter.ts:51-93 | for every budget, window and L some trace passes exactly that many |
| `LimiterBounds.OneWindowLength` | src/shared/security/rate-limit/rate-limiter.ts:55 | over one window's length the bound is 2 * max - 1 |
| `LimiterBounds.LowBudgetsActAsOne` | src/shared/security/rate-limit/rate-limiter.ts:54-85 | every budget of one or less, zero and negative ones too, accepts exactly what a budget of one accepts |
| `LimiterBounds.NegativeWindowAcceptsAll` | src/shared/security/rate-limit/rate-limiter.ts:54-62 | with a negative window every request is accepted |
| `LimiterBounds.RemainingIsExact` | src/shared/security/rate-limit/rate-limiter.ts:58-91 | the remaining count of an accepted request is the budget less the requests accepted since the window opened |
| `LimiterBounds.RejectionIsJustified` | src/shared/security/rate-limit/rate-limiter.ts:64-85 | at a rejection the whole budget was accepted within the last windowMs |
| `LimiterBounds.RejectedUntilTheWindowEnds` | src/shared/security/rate-limit/rate-limiter.ts:54-91 | for any window: all requests up to the window's end are rejected, and one after it is decided as by a limiter that has only seen those after it |
| `LimiterBounds.RetryAfterIsRight` | src/shared/security/rate-limit/rate-limiter.ts:64-85 | for a window of a second or more and any follow-ups up to the announced moment, a later request is accepted if and only if fewer than a full budget of them came after the window's end, or the window they opened is over |
| `LimiterBounds.RetryPromiseHoldsExactlyWhen` | src/shared/security/rate-limit/rate-limiter.ts:65-70 | whatever the follow-ups, requests later than the announced moment are accepted, if and only if the rest of the window was a whole number of seconds |
| `LimiterBounds.RetryPromiseCanFail` | src/shared/security/rate-limit/rate-limiter.ts:65-70 | a concrete trace: rejected with two seconds to wait, let in at 1501 ms, rejected again at 2002 ms |
| `LimiterBounds.AtTheAnnouncedMoment` | src/shared/security/rate-limit/rate-limiter.ts:54-70 | at exactly the announced moment, with no request since the window ended, a request is accepted if and only if the rest was not whole seconds |
| `Base64Url.DecodeOfEncode` | src/shared/auth/oidc/jwt.service.ts:45-57 | decoding undoes encoding for every byte sequence |
| `Base64Url.EncodedTextIsUrlSafe` | src/shared/auth/oidc/jwt.service.ts:45-51 | encoded text has only URL-safe characters, four for three bytes rounded up |
| `Base64Url.EncodedDigits` | src/shared/auth/oidc/jwt.service.ts:45-51 | the characters, by their places in the table of RFC 4648, are the base-64 digits of the bytes, three bytes at a time |
| `Base64Url.KnownTexts` | src/shared/auth/oidc/jwt.service.ts:45-51 | the encoding of foobar that section 10 of RFC 4648 gives, and a text with both URL-safe characters |
| `Jwt.SignedTokenSegments` | src/shared/auth/oidc/jwt.service.ts:71-81 | a signed token splits into its header with alg HS256 and typ JWT, its payload, and the digest of the two |
| `Jwt.VerifyOfSign` | src/shared/auth/oidc/jwt.service.ts:93-133 | a token signed under one secret is accepted under another exactly when the digests agree, with the signed claims; otherwise the signature is invalid |
| `Jwt.AcceptedExactlyWhen` | src/shared/auth/oidc/jwt.service.ts:93-133 | a token of three segments is accepted if and only if its header is an object with alg HS256, the third segment is the digest of the first two, and the payload parses, to the claims returned |
| `Jwt.AcceptedTokenIsSigned` | src/shared/auth/oidc/jwt.service.ts:93-133 | an accepted token is its first two segments and their 43-character signature, and no other signature text is accepted with them |
| `Jwt.SameSignatureMeansCollision` | src/shared/auth/oidc/jwt.service.ts:60-133 | two different accepted tokens with the same signature segment are two texts with one digest |
| `Oidc.ValidityWindow` | src/shared/auth/oidc/mock-oidc.provider.ts:40-115 | an issued token is accepted exactly within its lifetime widened by the tolerance, for non-empty sub and email, and yields the identity it was issued for |
| `Oidc.IssuedClaims` | src/shared/auth/oidc/mock-oidc.provider.ts:40-63 | an issued token carries exactly the nine claims: role admin exactly for admins and user exactly for users, issue and not-before time, expiry after the lifetime, issuer and audience |
| `Oidc.ClaimsVouchExactlyFor` | src/shared/auth/oidc/mock-oidc.provider.ts:76-115 | an identity is accepted from claims if and only if they carry its sub and email, role admin exactly for an admin and user exactly for a user, this issuer, this audience alone or in an array, and are in time |
| `Oidc.RefusedForAReason` | src/shared/auth/oidc/mock-oidc.provider.ts:69-108 | each error is only given when its reason holds |
| `Oidc.AcceptedIdentityIsVouchedFor` | src/shared/auth/oidc/mock-oidc.provider.ts:69-115 | every accepted token is signed, in time by exp and nbf, and names the returned identity; another accepted token under its signature is a collision of the digest |
| `Sanitize.SanitizeText` | src/shared/security/sanitize.ts:61-91 | exactly the control characters, the stretches from a < to the next >, the white space after the first of a run and at the ends, and what exceeds the cap are removed, and everything else is kept in order; the result is in normal form unless the cap cut it |
| `Sanitize.PassesReachNormalForm` | src/shared/security/sanitize.ts:72-84 | for every option combination the result has no control characters, and no tag, single spaces and trimmed ends where asked for; without collapsing it is a subsequence of the input |
| `Sanitize.SanitizedIsCleaned` | src/shared/security/sanitize.ts:61-91 | by position, each pass keeps all units but those it names |
| `Sanitize.IdempotentExactlyWhenItSettles` | src/shared/security/sanitize.ts:61-91 | sanitizing again changes nothing exactly when the cap does not cut, or cuts where no white space is left to trim, or a negative cap leaves nothing |
| `Sanitize.QuestionsAreCleanedOnce` | src/modules/chat/interface/ask-question.schema.ts:15-19 | for every admitted question the cap never cuts, the clean text is final, and it is the printable text outside tags without the white space at its ends |
| `EscapeHtml.EscapeIsPerUnit` | src/shared/security/sanitize.ts:29-36 | the five whole-text replacements are one replacement of each unit |
| `EscapeHtml.EntitiesSpelledOut` | src/shared/security/sanitize.ts:29-36 | the five characters and their five entities |
| `EscapeHtml.EscapedIsInert` | src/shared/security/sanitize.ts:29-36 | the result has no `<`, `>`, `"` or `'` |
| `EscapeHtml.EscapeIsInjective` | src/shared/security/sanitize.ts:29-36 | different texts escape differently |

## Left out

- Routing, middleware wiring, error rendering, logging, health and admin endpoints: input and output only.
- Ownership, role, content-type, request-signature and schema checks: single conditions.
- The cancel use case's ownership check before `cancel`; the repository's `cancel` is modelled.
- Token counts and free-form metadata of a chat message; its charge is kept.
- ORM internals: `save` reads the row again and updates only the columns that differ; a second race inside that window
  is not modelled.
- Serialization failures, deadlock detection, lock timeouts and connection loss; `Fail` stands for any of them and may
  strike an unfinished chat at any step.
- Two renewal jobs at once are modelled as writers in `ChatSystem`, but how often a card is charged is proved for one
  job at a time only.
- Dates beyond the range of JavaScript's Date, and time zones with daylight saving.
- Fractional limits, lifetimes and claim times: they are integers here.
- `Oidc.RefusedForAReason`: which of several reasons is named follows the order of the checks, modelled but not stated.
- `Base64Url.DecodeOfEncode`: text that no encoder produces is decoded by skipping foreign characters; the runtime's own
  leniency there is richer.
- Timing of the signature comparison; it is equality of texts.
- Resetting or evicting limiter counters; the source never does.

# Finance Bro, verified model

This project models the four cores of Finance Bro that share one database: the import scheduler and its persistent
queue, the rate-limit gate in front of the bank, the rule engine with its preview and commit sweep, and the currency
conversion on read. Each block that the program runs as one database transaction is one atomic step; between two blocks
other actors may step and the process may stop.

## How it is laid out

Tables are sequences (rows are never removed, so an id is a position) or maps. The repositories, the scheduler, the
gate and the services are classes that change those tables in place; every method is proved equal to a specification
function, and the properties are lemmas about these functions over all inputs and all runs.

| file | contents |
|---|---|
| `Common.dfy` | options, results, a few facts about finite sets |
| `RateGate.dfy` | the gate, its stored row and its arithmetic |
| `Windows.dfy` | backfill windows |
| `ImportQueue.dfy` | the table `import_runs` and its repository, card selection |
| `Accounts.dfy` | the accounts table and the allowlist of polled cards |
| `Categorizer.dfy` | conditions, rules, first match |
| `RuleTable.dfy` | the rules table, its unique priorities, the two-phase renumbering |
| `Transactions.dfy` | the transactions table: upsert, reads, write-back |
| `RulesHistory.dfy` | preview, token, commit; the import of one card |
| `SchedulerMachine.dfy` | scheduler, queue, tables and process as one state machine |
| `ExactlyOnce.dfy`, `QueueDiscipline.dfy`, `LiveDiscipline.dfy`, `RoundRobin.dfy` | properties of all its runs |
| `LiveCounterexamples.dfy` | runs that break what one would expect of live rows |
| `Recovery.dfy`, `Requests.dfy` | what becomes of a run left behind; what the requests add to the queue |
| `TickRuns.dfy`, `TickOutcome.dfy` | one tick as a run of the machine; what a whole tick leaves behind |
| `SchedulerRunner.dfy` | the scheduler class, each operation proved to be a run of the machine |
| `HalfEven.dfy`, `FxRollup.dfy` | decimal rounding and the conversion of an amount |
| `FxRates.dfy` | the rates table and the rate of a day |
| `FxListing.dfy` | the listing of an account with its conversions |
| `FxLifecycle.dfy` | the life of a tracked currency: bootstrap and daily pass |

## What reaches the model as a parameter

Clock readings, the answers of the bank and of the bank of rates, whether a transaction fails, and everything the
database may choose freely: which of the oldest pending rows is claimed, which of the equally late live rows is reported
as the last one, in which order an unordered query returns its rows. The operations hold for every choice.

The sha256 of a preview is represented by the value it digests, so equal tokens mean equal digested values. A text
carries its casefolded form, and the optional integer and the operation currency of a payload are given with it. Amounts
are minor units, rates are the stored decimals times 10^8, instants are whole microseconds, days are numbered.
The next id of a rule table is assumed unused and its stored priorities unique, as the database guarantees.

## Where the code and its documentation differ

The model follows the code.

* The token covers the rules and the category of each unlocked row, but not the amount, the hold flag or the payload: an
  import between preview and commit can change what an accepted commit writes (`AmountSlipsThroughToken`). For given
  rules it writes what was previewed exactly when every swept row kept its verdict (`CommitWritesPreviewExactly`); for
  all rules, exactly when every swept row kept its amount, hold flag and readable payload fields (`ProvisoExactly`).
* "At most one live row per card" can fail when a claimed live row is left in flight, by a crash (`CrashDuplicatesLive`) or
  because recording its failure failed (`AbortDuplicatesLive`), and when a force-poll request falls anywhere between a
  fruitless claim and the enqueue of the same tick (`RequestDuplicatesLive`, `LateRequestDuplicatesLive`). It holds
  exactly in the runs in which no enqueue of a chosen card meets an unfinished live row of it (`OneLiveExactly`), which
  covers all runs without such events (`AlwaysLiveSingle`). The filter lets such a card through exactly when it has a
  finished live row too (`OpenCardPassesExactly`).
* A live row can end up behind a backfill of its own card, although each enqueue skips cards with an unfinished one: when
  a backfill request falls between the choice of a card and its enqueue (`BackfillOvertakesLive`), and when the database
  clock steps back (`ClockOvertakesLive`). `LiveFirstExactly` gives the exact condition.
* A backfill is not drained newest first: a batch shares one creation time, and the claim orders by nothing else
  (`NewestFirstExactly`).
* A reorder can be refused by the unique priority although all ids exist: a priority above one million may sit where a
  row is parked (`HighPriorityBreaksReorder`). `ReorderOkExactly` gives the exact condition.
* The conversion is announced as one half-even rounding. The precision of 28 digits rounds first, and can turn the
  second rounding the wrong way (`DoubleRoundingSlips`, amounts and rates that fit their columns). `ConversionExactly`
  gives the exact condition; every product below 10^28 is safe.
* A failed fetch in the daily pass over a bootstrapped currency is said to land in `last_error`. It is only logged
  (`FailureSurface`). `FailureRecordedExactly` says when a failed fetch is recorded.
* The freshness skip would strand a currency whose rates arrived in the answer for another one (`ForeignRowsStrand`).
* `skipped_duplicates` of an import is always zero (`RunOneCard`).
* The scheduler tick does not categorize; only the import of one card does.

## Model

| member | source | states |
|---|---|---|
| `RateGate.MaxPlusLaw` | src/finance_bro/importers/rate_limit.py:35-65 | claim n is the maximum of the stored start + 65s(n+1) and of reading i + 65s(n-i), whatever the readings: an upper bound of all these terms and one of them |
| `RateGate.ClaimsSpaced` | src/finance_bro/importers/rate_limit.py:52-61 | claims i and j are at least 65(j-i) seconds apart even when clocks run backwards |
| `RateGate.WindowBound` | src/finance_bro/importers/rate_limit.py:23-61 | any window of W seconds holds at most ceil(W/65) claims |
| `RateGate.NobodyWaitsExactly` | src/finance_bro/importers/rate_limit.py:52-61 | every claim is the caller's own reading if and only if each reading comes at least 65 seconds after the one before it, and the first after the stored start |
| `RateGate.SendsSpaced` | src/finance_bro/importers/rate_limit.py:1-23 | callers that send within 5s after their claim send at least 60s apart, the limit of the bank |
| `RateGate.TokensIndependent` | src/finance_bro/importers/rate_limit.py:35-61 | in any interleaving of tokens, the stored claim of a token is that of its own acquirers alone |
| `RateGate.RateLimitGate.Acquire` | src/finance_bro/importers/rate_limit.py:35-65 | a caller without a row, or at least 65000000 microseconds after the stored claim, claims its own reading and does not wait; any other claims exactly that much after it and sleeps until then; no other token moves |
| `Windows.ChunksTile` | src/finance_bro/scheduler/window.py:18-27 | the windows for m months cover each instant of (now - 30m days, now] exactly once and nothing else |
| `Windows.TruncatedChunks` | src/finance_bro/scheduler/window.py:14-27 | in whole seconds neighbouring windows still meet and each stays under 2682000 seconds |
| `Windows.TruncatedCover` | src/finance_bro/scheduler/window.py:18-27 | after truncation no second of the range is left unasked |
| `ImportQueue.ImportRunRepo.ClaimNextPending` | src/finance_bro/db/import_run_repo.py:30-54 | claims some pending row of least creation time, or nothing when nothing is pending; only that row changes |
| `ImportQueue.ImportRunRepo.EnqueueBackfill` | src/finance_bro/db/import_run_repo.py:56-76 | appends one pending row per window, all with one creation time, and returns their ids in order |
| `ImportQueue.ImportRunRepo.EnqueueLive` | src/finance_bro/db/import_run_repo.py:78-97 | appends one pending live row |
| `ImportQueue.ImportRunRepo.MarkDone` | src/finance_bro/db/import_run_repo.py:99-125 | the row with the id becomes done whatever its status, with its counts, and no other row changes |
| `ImportQueue.ImportRunRepo.MarkError` | src/finance_bro/db/import_run_repo.py:127-135 | the row with the id becomes error whatever its status |
| `ImportQueue.ImportRunRepo.RecoverInFlight` | src/finance_bro/db/import_run_repo.py:137-158 | exactly the rows in flight for more than 300s become pending again, and are counted |
| `ImportQueue.ImportRunRepo.CountOpen` | src/finance_bro/db/import_run_repo.py:160-191 | the number of pending and in-flight rows of a kind of a card |
| `ImportQueue.ImportRunRepo.LastLivePerAccount` | src/finance_bro/db/import_run_repo.py:193-210 | for every card with live rows one of those that completed latest, unfinished rows last |
| `Accounts.DiscoveryIsIdempotent` | src/finance_bro/db/account_repo.py:49-75 | discovering the same accounts a second time, whatever was stored before the first, inserts nothing |
| `Accounts.PollableExactly` | src/finance_bro/db/account_repo.py:35-47 | a card is polled exactly when it is a mono.card of type black, platinum or white |
| `Accounts.StoredAsFound` | src/finance_bro/db/account_repo.py:49-75 | discovery stores, with all their columns, only accounts it found, and each of them unless its key was stored or found before |
| `Accounts.PollableIds` | src/finance_bro/db/account_repo.py:35-47 | exactly the black, platinum and white cards, in ascending id order |
| `Accounts.AccountRepo.GetFirstCard` | src/finance_bro/db/account_repo.py:25-33 | the card of least id, of any type, if there is one |
| `Accounts.AccountRepo.UpsertMany` | src/finance_bro/db/account_repo.py:49-75 | stores the unknown accounts and reports how many |
| `Categorizer.FirstMatchWins` | src/finance_bro/categorizer/engine.py:84-92 | the verdict is the category of the matching rule of least position, and none exactly when no rule matches |
| `Categorizer.FirstMatchExactly` | src/finance_bro/categorizer/engine.py:84-92 | the verdict is k exactly when a rule of category k has all its conditions fulfilled and every rule before it has one that is not; none exactly when every rule has one that is not |
| `Categorizer.CategorizeRows` | src/finance_bro/categorizer/engine.py:95-105 | the loop yields the verdicts of the unlocked rows in input order |
| `Categorizer.VerdictsAreVerdicts` | src/finance_bro/categorizer/engine.py:95-105 | a pair is in the output exactly when it is the verdict of an unlocked input row |
| `Categorizer.MatchDependsOnInputs` | src/finance_bro/categorizer/interpreter.py:25-50 | evaluation never reads the category or the id of a row |
| `Categorizer.ConditionsTellFields` | src/finance_bro/categorizer/interpreter.py:25-50 | no condition tells two rows apart if and only if they agree on amount, hold, currency, the four text fields and the three integer fields |
| `Categorizer.ConditionsPermute` | src/finance_bro/categorizer/predicate.py:90-93 | the conditions of a predicate may be permuted freely |
| `Categorizer.EditIsLocal` | src/finance_bro/categorizer/engine.py:84-105 | rule lists that agree without one rule differ only on unlocked rows whose first match is that rule before or after |
| `Transactions.ConditionMeaning` | src/finance_bro/categorizer/interpreter.py:25-50 | what each of the eight conditions means in the columns and payload of a stored transaction: a needle is part of the text, an absent value fulfils nothing, debits are negative, ranges are inclusive |
| `RuleTable.ListingUnique` | src/finance_bro/db/rule_repo.py:52-56 | the evaluation order is a function of the table |
| `RuleTable.EditIsLocalInTable` | src/finance_bro/db/rule_repo.py:27-81 | creating, deleting or rewriting one rule, its priority included, changes verdicts only of rows it matches first |
| `RuleTable.ReorderOkExactly` | src/finance_bro/db/rule_repo.py:83-109 | the check on ids and priorities holds exactly when priorities are distinct after every single UPDATE of both phases |
| `RuleTable.OrdinaryReorderSucceeds` | src/finance_bro/db/rule_repo.py:83-109 | priorities up to a million and unlisted ones above N: no UPDATE meets a taken priority |
| `RuleTable.HighPriorityBreaksReorder` | src/finance_bro/db/rule_repo.py:98-109 | two rules, one with priority 1000001, and a listing of both for which the reorder is refused |
| `RuleTable.ReorderAssigns` | src/finance_bro/db/rule_repo.py:83-109 | the k-th of distinct ids gets priority k and nothing else of any rule moves |
| `RuleTable.ReorderListing` | src/finance_bro/db/rule_repo.py:83-109 | afterwards the order is the requested sequence followed by the unlisted rules in their old order |
| `RuleTable.RenumberingKeepsVerdicts` | src/finance_bro/db/rule_repo.py:83-109 | renumbering in the current order changes no row's category |
| `RuleTable.RuleRepo.Reorder` | src/finance_bro/db/rule_repo.py:83-109 | both phases succeed exactly when the check holds, give the final numbering, and otherwise roll back; priorities stay unique |
| `RuleTable.RuleRepo.SetPriority` | src/finance_bro/db/rule_repo.py:98-109 | one UPDATE under the unique constraint: refused exactly when another rule holds the priority |
| `RuleTable.RuleRepo.ListActiveOrdered` | src/finance_bro/db/rule_repo.py:52-56 | every rule once, by priority and id |
| `RuleTable.RuleRepo.Create` | src/finance_bro/db/rule_repo.py:27-42 | inserts the rule exactly when its priority is free |
| `RuleTable.RuleRepo.Update` | src/finance_bro/db/rule_repo.py:58-78 | changes the given fields of one rule, refused exactly when the priority is taken |
| `RuleTable.RuleRepo.Delete` | src/finance_bro/db/rule_repo.py:80-81 | removes one rule and nothing else |
| `Transactions.LookupAfterBatch` | src/finance_bro/db/transaction_repo.py:70-135 | one batch seen through any key: untouched keys keep their row, delivered keys get a fresh row or keep all but hold, amount and payload |
| `Transactions.FirstAndLastDelivery` | src/finance_bro/db/transaction_repo.py:70-135 | after any history of batches and write-backs a key has a row exactly when delivered, frozen columns from its first delivery, the three moving ones from its last; only its category is the write-backs' |
| `Transactions.DeliveredColumns` | src/finance_bro/db/transaction_repo.py:88-126 | after any history: currency, time, merchant code, description and day of the first delivery, hold, amount and payload of the last, live and not locked; and no row for a key never delivered |
| `Transactions.BatchColumns` | src/finance_bro/db/transaction_repo.py:88-126 | one batch on any table, column by column, for a key that has a row and for one that has none |
| `Transactions.DeletedRowsStay` | src/finance_bro/db/transaction_repo.py:113-116 | a soft-deleted row is invisible to every batch |
| `Transactions.ReimportIsNoOp` | src/finance_bro/db/transaction_repo.py:70-135 | applying a batch again changes nothing and inserts nothing |
| `Transactions.InsertedIsConserved` | src/finance_bro/db/transaction_repo.py:131-135 | over any history, write-backs included, the inserted counts of all batches add up to the number of live rows |
| `Transactions.UniqueForever` | src/finance_bro/db/transaction_repo.py:113-126 | at most one live row per account and source id, after any history |
| `Transactions.LockSafety` | src/finance_bro/db/transaction_repo.py:119-126 | over any history of upserts and write-backs with arbitrary ids, locked rows change only hold, amount and payload, and no row changes a frozen column |
| `Transactions.AppliedRow` | src/finance_bro/db/transaction_repo.py:285-295 | a write-back moves exactly its unlocked targets |
| `Transactions.TransactionRepo.InsertMany` | src/finance_bro/db/transaction_repo.py:70-135 | all of the batch or, when it repeats a key, nothing; new rows counted exactly |
| `Transactions.TransactionRepo.ApplyCategories` | src/finance_bro/db/transaction_repo.py:285-295 | the guarded updates in order |
| `Transactions.TransactionRepo.FetchAllForCategorize` | src/finance_bro/db/transaction_repo.py:236-271 | every unlocked live row of the account once, as a row view |
| `Transactions.TransactionRepo.FetchForCategorize` | src/finance_bro/db/transaction_repo.py:153-188 | those among them with one of the given source ids |
| `Transactions.TransactionRepo.CountLocked` | src/finance_bro/db/transaction_repo.py:273-276 | the number of locked live rows |
| `RulesHistory.TokenOrderFree` | src/finance_bro/services/rules_history.py:56-69 | the token does not depend on the order in which rows are read |
| `RulesHistory.TokenIdentifies` | src/finance_bro/services/rules_history.py:56-69 | equal tokens mean the same rules in order, the same unlocked live rows and the same category on each |
| `RulesHistory.CommitWritesPreviewExactly` | src/finance_bro/services/rules_history.py:132-151 | an accepted commit writes exactly the previewed diff if and only if every swept row kept its verdict |
| `RulesHistory.ProvisoExactly` | src/finance_bro/services/rules_history.py:56-69 | over any upserts and write-backs that leave the token acceptable, the commit writes the previewed diff for every list of rules if and only if each swept row kept its amount, hold, comment, counterparty fields and original merchant code |
| `RulesHistory.CommitSoundness` | src/finance_bro/services/rules_history.py:117-151 | in particular, an accepted commit writes exactly the previewed diff when no upsert in between moved one of these on a swept row |
| `RulesHistory.AmountSlipsThroughToken` | src/finance_bro/services/rules_history.py:56-69 | a run in which the token is accepted although the amount and the verdict changed |
| `RulesHistory.CommitEffect` | src/finance_bro/services/rules_history.py:132-151 | a commit moves every swept row to its verdict and touches nothing else |
| `RulesHistory.CommitColumns` | src/finance_bro/services/rules_history.py:132-151 | a commit leaves other accounts, locked and deleted rows alone; every other row gets the category the rules decide on, or none, and source "rule" exactly where it moved |
| `RulesHistory.SweptOrSkipped` | src/finance_bro/db/transaction_repo.py:193-234 | every live row of an account is either swept or counted as skipped, and none is both |
| `RulesHistory.SweepConverges` | src/finance_bro/services/rules_history.py:84-151 | afterwards every swept row carries its verdict, the next preview is empty, and the old token is rejected exactly when something was written |
| `RulesHistory.NextSweepIsLocal` | src/finance_bro/services/rules_history.py:84-107 | from a converged state, editing one rule leaves a diff only of rows whose first match was or is that rule |
| `RulesHistory.TouchedRowsAreSettled` | src/finance_bro/services/import_service.py:90-112 | rows just imported appear in no preview under the same rules |
| `RulesHistory.TouchedColumns` | src/finance_bro/services/import_service.py:90-112 | the categorization of an import stamps exactly the live unlocked rows of the account whose source id was delivered, each with the category the rules decide on |
| `RulesHistory.RulesHistoryService.ComputeInSession` | src/finance_bro/services/rules_history.py:76-107 | the computed token and diff are those of the tables |
| `RulesHistory.RulesHistoryService.RunPreview` | src/finance_bro/services/rules_history.py:117-130 | the diff with its counts, and the token |
| `RulesHistory.RulesHistoryService.Commit` | src/finance_bro/services/rules_history.py:132-151 | accepts exactly the token of the current state, then writes exactly the current diff; a rejected commit changes nothing |
| `RulesHistory.ImportService.RunOneCard` | src/finance_bro/services/import_service.py:56-125 | when it succeeds and when it does not; upsert, then categorization of the touched rows, as one write |
| `ExactlyOnce.StepEvolves` | src/finance_bro/db/import_run_repo.py:99-135 | no block changes the identity of a row or touches a terminal row, although the two marks are unguarded |
| `ExactlyOnce.TerminalForever` | src/finance_bro/scheduler/runner.py:248-365 | over any run with crashes, a done or failed row never changes again |
| `ExactlyOnce.ImportsExactlyOnce` | src/finance_bro/scheduler/runner.py:276-365 | in every reachable state the transactions are the fold of the committed batches in order, each done run is applied exactly once and no other run at all |
| `ExactlyOnce.OnceIsOnePlace` | src/finance_bro/scheduler/runner.py:327-338 | applied once means at one place of the history and at no other |
| `ExactlyOnce.CachedImpliesPersisted` | src/finance_bro/scheduler/runner.py:436-439 | in every run with restarts the singleton row exists and a cached auth failure is a persisted one |
| `ExactlyOnce.FailureOutlivesProcess` | src/finance_bro/db/scheduler_state_repo.py:18-34 | a failure recorded by one process is what the next one goes by at its start exactly when the singleton row exists |
| `ExactlyOnce.RejectionStops` | src/finance_bro/scheduler/runner.py:285-351 | in every run: once the bank answered 401 to discovery or to a statement and the tick is over without a crash or an escaped exception, the scheduler is stopped for that reason, with a singleton row persistently |
| `ExactlyOnce.AuthFailureSticks` | src/finance_bro/scheduler/runner.py:259-260 | once persisted it is never left, no block of any tick runs and the bank is not contacted |
| `ExactlyOnce.OnlyRejectionSticks` | src/finance_bro/scheduler/runner.py:349-365 | rate limits, transient failures, crashes and other exceptions never change the persisted state |
| `Recovery.SweepExactly` | src/finance_bro/db/import_run_repo.py:137-158 | a sweep puts a row back exactly when it has been in flight for more than 300000000 microseconds, and changes nothing else |
| `Recovery.ClaimsOnRecord` | src/finance_bro/db/import_run_repo.py:30-54 | in every reachable state a row counts as many attempts as there were claims of it and, in flight, shows the time of the last |
| `Recovery.LeftBehindReturns` | src/finance_bro/scheduler/runner.py:75-84 | a claimed row left behind is claimed again once a sweep more than 300 seconds after its claim is followed by as many claiming ticks as there are unfinished rows no younger, whatever happens before |
| `Recovery.CrashedRunReturns` | src/finance_bro/scheduler/runner.py:75-84 | the same from the migrated database for a run in hand when the process dies |
| `QueueDiscipline.NoStarvation` | src/finance_bro/db/import_run_repo.py:30-54 | a pending row with m unfinished rows no younger, itself included and the one in hand not, is claimed in every run in which m ticks reach their claim, whatever is enqueued later and whatever sweeps revive |
| `QueueDiscipline.TicksDrain` | src/finance_bro/scheduler/runner.py:294-347 | between two moments with no run in hand, each tick that reached its claim took exactly one row off those ahead of a waiting row: the measure by which the queue drains |
| `QueueDiscipline.NewestFirstExactly` | src/finance_bro/db/import_run_repo.py:40-76 | after a backfill is enqueued on a queue with nothing pending, each of its rows may be claimed first, so the newest window must be only if it is the only one |
| `QueueDiscipline.AlwaysBatched` | src/finance_bro/scheduler/runner.py:107-148 | in every reachable state the unfinished backfill rows of a card are one batch with windows 30 days apart |
| `QueueDiscipline.BatchedDisjoint` | src/finance_bro/scheduler/window.py:18-27 | hence their windows do not overlap |
| `QueueDiscipline.SingleBackfillRequest` | src/finance_bro/scheduler/runner.py:131-147 | while a backfill row of a card is unfinished no request adds another |
| `Requests.BackfillRequestAdds` | src/finance_bro/scheduler/runner.py:107-148 | a backfill request adds, for exactly the cards it is for that have no unfinished backfill row, exactly the rows of the asked months |
| `Requests.LiveRequestAdds` | src/finance_bro/scheduler/runner.py:150-179 | a force-poll request adds one row for the last hour for each pollable card without unfinished rows, and nothing else |
| `LiveDiscipline.LiveFirstStepExactly` | src/finance_bro/scheduler/runner.py:107-179 | one block, any clock: no live row ends up behind a backfill row of its card, if and only if the block neither enqueues a live row for a chosen card with an older unfinished backfill row nor backfill rows for a card with a younger unfinished live row |
| `LiveDiscipline.LiveFirstExactly` | src/finance_bro/scheduler/runner.py:107-179 | over any run, crashes included, live rows always stand first if and only if no block overtakes in this way |
| `LiveDiscipline.LiveNeverBehindBackfill` | src/finance_bro/scheduler/runner.py:150-179 | in particular in every run, crashes included, whose database time goes forward and in which no backfill request falls between the choice of a card and its enqueue |
| `LiveDiscipline.OneLiveStepExactly` | src/finance_bro/scheduler/runner.py:300-308 | one block keeps at most one unfinished live row per card if and only if it is not the enqueue of a chosen card that has an unfinished live row |
| `LiveDiscipline.OneLiveExactly` | src/finance_bro/scheduler/runner.py:222-308 | over any run, crashes included, each card always has at most one unfinished live row if and only if no enqueue of a chosen card meets one |
| `LiveDiscipline.OpenCardPassesExactly` | src/finance_bro/scheduler/runner.py:222-230 | in every reachable state, whatever last-live rows are reported: a card with an unfinished live row passes the filter exactly when it has a finished one too and no unfinished backfill |
| `LiveDiscipline.AlwaysLiveSingle` | src/finance_bro/scheduler/runner.py:150-179 | in particular in every run in which no claimed live row is left behind and no force-poll request falls between a fruitless claim and the enqueue of its tick |
| `LiveDiscipline.QueueBounded` | src/finance_bro/scheduler/runner.py:107-179 | in every run in which no enqueue doubles, at most 37 unfinished rows per card |
| `LiveCounterexamples.CrashDuplicatesLive` | src/finance_bro/scheduler/runner.py:222-230 | a run with one crash that ends with two unfinished live rows of a card |
| `LiveCounterexamples.AbortDuplicatesLive` | src/finance_bro/scheduler/runner.py:353-358 | the same without any crash: recording a 429 fails and leaves the claimed row in flight |
| `LiveCounterexamples.RequestDuplicatesLive` | src/finance_bro/scheduler/runner.py:300-308 | the same by a force-poll request between the claim and the choice of the card |
| `LiveCounterexamples.LateRequestDuplicatesLive` | src/finance_bro/scheduler/runner.py:300-308 | the same by one between the choice of the card and its enqueue |
| `LiveCounterexamples.BackfillOvertakesLive` | src/finance_bro/scheduler/runner.py:300-308 | with forward time, a backfill request between choice and enqueue puts the live row behind the backfill |
| `LiveCounterexamples.ClockOvertakesLive` | src/finance_bro/scheduler/runner.py:107-148 | so does a clock that steps back before a backfill request between two ticks |
| `RoundRobin.WarmUpOrder` | src/finance_bro/scheduler/runner.py:232-236 | before any live poll the cards are due in id order |
| `RoundRobin.PickMeaning` | src/finance_bro/scheduler/runner.py:203-244 | in any state: nothing is chosen exactly when no card passes the filter; a never-polled choice has the least id of those that pass, and any other completed its last poll no later than all that pass |
| `RoundRobin.DueOrderExists` | src/finance_bro/scheduler/runner.py:232-244 | whenever all rows are finished and different cards completed at different times, the cards have a due order |
| `RoundRobin.PicksRotate` | src/finance_bro/scheduler/runner.py:203-244 | undisturbed, pick k is card k of the initial due order, cyclically, failed polls counted |
| `RoundRobin.RoundRobinFairness` | src/finance_bro/scheduler/runner.py:203-244 | with n cards in due order, pick k + n is pick k, and any n consecutive picks hold every pollable card exactly once |
| `RoundRobin.FairFromRest` | src/finance_bro/scheduler/runner.py:203-244 | the same from any state in which nothing is open and completions of different cards differ, with no order assumed |
| `SchedulerRunner.SchedulerRunner.Tick` | src/finance_bro/scheduler/runner.py:248-365 | a tick of a stopped scheduler does nothing; otherwise it is the run of the machine in which every block answers the environment, database failures included; and without such failures it ends stopped exactly when discovery or a statement is answered 401 |
| `TickOutcome.StoppedExactly` | src/finance_bro/scheduler/runner.py:248-365 | a tick without database failures stops the scheduler exactly when discovery or the statement of its run is answered 401, and otherwise leaves cached and persisted state alone |
| `TickOutcome.DiscoveryRejected` | src/finance_bro/scheduler/runner.py:285-290 | a 401 on discovery stops the scheduler and touches nothing but stale runs |
| `TickOutcome.DiscoveryFailed` | src/finance_bro/scheduler/runner.py:291-293 | any other failure of discovery changes nothing but stale runs |
| `TickOutcome.StatementRejected` | src/finance_bro/scheduler/runner.py:349-352 | a 401 on a statement ends its run in error and stops the scheduler; nothing is imported |
| `TickOutcome.StatementFailed` | src/finance_bro/scheduler/runner.py:353-365 | a 429, a transient or any other failure ends the run in error with its message and leaves the scheduler running |
| `TickOutcome.StatementImported` | src/finance_bro/scheduler/runner.py:310-338 | a delivered statement is imported into the account of its run, which is done with the number of items, the time and no error; no other row moves |
| `TickOutcome.StatementRepeats` | src/finance_bro/scheduler/runner.py:363-365 | a statement that names a transaction twice is not imported: its run ends in error |
| `TickOutcome.AccountUnknown` | src/finance_bro/scheduler/runner.py:319-324 | a run whose account is not there ends in error without a request for its statement |
| `TickOutcome.NothingPendingPolls` | src/finance_bro/scheduler/runner.py:298-308 | with nothing pending one live row is appended for the chosen card, for the hour before the clock reading; without a choice nothing is |
| `SchedulerRunner.SchedulerRunner.RecoverInFlight` | src/finance_bro/scheduler/runner.py:75-84 | the first start-up block is the machine's |
| `SchedulerRunner.SchedulerRunner.ReadState` | src/finance_bro/scheduler/runner.py:86-99 | the second start-up block caches the persisted state, or running when there is no row |
| `SchedulerRunner.SchedulerRunner.EnqueueBackfill` | src/finance_bro/scheduler/runner.py:107-148 | fails exactly for a card that is not pollable; skips cards with an unfinished backfill; returns the new ids |
| `SchedulerRunner.SchedulerRunner.EnqueueLiveForAllActiveCards` | src/finance_bro/scheduler/runner.py:150-179 | enqueues for exactly the cards without unfinished rows and returns card and id of each |
| `SchedulerRunner.SchedulerRunner.PickNextActiveCard` | src/finance_bro/scheduler/runner.py:203-244 | the loop and the two sorts choose the card of the specification for the last live rows the database reports |
| `SchedulerRunner.SchedulerRunner.SetStateAuthFailed` | src/finance_bro/scheduler/runner.py:436-439 | persists and caches the failure |
| `SchedulerRunner.SchedulerRunner.FxTick` | src/finance_bro/scheduler/runner.py:369-400 | the daily pass visits every tracked currency once and leaves the state of polling, queue and transactions as it was |
| `SchedulerRunner.SchedulerRunner.FxTickCurrency` | src/finance_bro/scheduler/runner.py:402-428 | one visit of the daily pass |
| `HalfEven.RoundNearest` | src/finance_bro/services/fx_rollup.py:82 | half-even rounding gives the nearest integer, the even one of two |
| `HalfEven.FittedMonotone` | src/finance_bro/services/fx_rollup.py:27 | rounding to 28 digits is monotone across every change of scale |
| `FxRollup.SingleRounding` | src/finance_bro/services/fx_rollup.py:81-82 | a product below 10^28 is rounded once, half to even, to the nearest minor unit |
| `FxRollup.ConversionExactly` | src/finance_bro/services/fx_rollup.py:81-82 | the result is that single rounding if and only if the product is below the overflow and does not slip |
| `FxRollup.DoubleRoundingExact` | src/finance_bro/services/fx_rollup.py:81-82 | two roundings differ from one exactly when the first made a tie whose even neighbour lies on the far side |
| `FxRollup.RaisesExactly` | src/finance_bro/services/fx_rollup.py:82 | quantize raises exactly from the product 10^36 - 5*10^7 on |
| `FxRollup.DoubleRoundingSlips` | src/finance_bro/services/fx_rollup.py:81-82 | an amount and a rate that fit their columns and lose a minor unit |
| `FxRollup.SumWithinHalves` | src/finance_bro/services/fx_rollup.py:81-82 | n converted amounts add up to the exact sum within n/2 minor units |
| `FxRollup.ConversionOdd` | src/finance_bro/services/fx_rollup.py:81-82 | on all inputs the conversion is odd in the amount, errors included |
| `FxRollup.ConversionMonotone` | src/finance_bro/services/fx_rollup.py:81-82 | on all amounts and rates from zero up it is monotone and its domain has no hole |
| `FxRollup.LabelOnly` | src/finance_bro/services/fx_rollup.py:66-77 | the operation currency decides the label and nothing else |
| `FxRates.InsertAllKeys` | src/finance_bro/db/fx_rate_repo.py:25-32 | an upload adds exactly its keys and changes no stored rate |
| `FxRates.FirstRateWins` | src/finance_bro/db/fx_rate_repo.py:25-32 | the first row of a new key gives its rate |
| `FxRates.ReuploadIsNoOp` | src/finance_bro/db/fx_rate_repo.py:25-32 | an overlapping upload of known keys changes nothing even when the rates disagree |
| `FxRates.FoundUnique` | src/finance_bro/db/transaction_repo.py:42-46 | the carried date is determined by the table |
| `FxRates.LatestChangesExactly` | src/finance_bro/db/transaction_repo.py:42-46 | over any run of uploads the carried date changes exactly when a row of the currency lies after it and not after the day; otherwise the rate is the same too |
| `FxRates.LatestMonotone` | src/finance_bro/db/transaction_repo.py:42-46 | the carried date never goes back and never passes the day |
| `FxRates.ExactDayIsFinal` | src/finance_bro/db/transaction_repo.py:42-46 | a day with a rate of its own uses that rate for ever |
| `FxRates.FxRateRepo.UpsertMany` | src/finance_bro/db/fx_rate_repo.py:25-32 | inserts the unknown keys and reports how many |
| `FxRates.FxRateRepo.CountInWindow` | src/finance_bro/db/fx_rate_repo.py:34-40 | the number of rates of the currency since the date |
| `FxRates.FxRateRepo.LatestOnOrBefore` | src/finance_bro/db/transaction_repo.py:42-46 | the lateral join for one row |
| `FxListing.ForeignRowMeaning` | src/finance_bro/db/transaction_repo.py:33-50 | a foreign row has a value exactly when some rate is dated on or before its day, shows the latest such date, and its value is the nearest minor unit to the exact amount at that rate |
| `FxListing.ForeignRowRaises` | src/finance_bro/services/fx_rollup.py:81-82 | it raises exactly when the latest usable rate makes the product as large as quantize refuses |
| `FxListing.FreshExactly` | src/finance_bro/services/fx_rollup.py:85-89 | a row is fresh exactly when it is hryvnia or its own day has a rate |
| `FxListing.OwnRateIsFinal` | src/finance_bro/db/transaction_repo.py:33-50 | with a rate of its own, a row of unchanged amount converts the same for ever |
| `FxListing.ConversionOverRuns` | src/finance_bro/db/transaction_repo.py:33-50 | over any run of uploads, upserts and write-backs: dates never go back, fresh never turns stale, a fresh value of an unchanged amount never moves |
| `FxListing.ListForAccount` | src/finance_bro/db/transaction_repo.py:297-325 | every live row once, newest first, with its columns, its joined category and its conversion; an error exactly when a conversion raises |
| `FxLifecycle.NeverStranded` | src/finance_bro/services/fx_bootstrap.py:60-89 | while every stored rate is settled, a currency still to be bootstrapped has none, so its visit fetches, records the attempt, and is done exactly when rows came |
| `FxLifecycle.StoreSettledExactly` | src/finance_bro/services/fx_bootstrap.py:83-88 | storing keeps every rate settled exactly when its rows belong to the currency or to bootstrapped ones |
| `FxLifecycle.ForeignRowsStrand` | src/finance_bro/services/fx_bootstrap.py:60-66 | 250 rows of another currency in one answer, and that currency is skipped with its flag unset |
| `FxLifecycle.FailureSurface` | src/finance_bro/scheduler/runner.py:418-428 | a visit without rows changes no rate, no flag and no other currency; a raise in the daily pass leaves no trace |
| `FxLifecycle.FailureRecordedExactly` | src/finance_bro/scheduler/runner.py:409-428 | a raised fetch is recorded as the last error exactly when the currency is tracked, the visit is a bootstrap and fewer than 250 of its rates are dated within 365 days |
| `FxLifecycle.RowsLand` | src/finance_bro/services/fx_bootstrap.py:60-89 | a visit that is not skipped and gets rows stores their unknown keys, moves no stored rate, and leaves the currency done, without an error and with its attempt on record |
| `FxLifecycle.EmptyAnswerNoted` | src/finance_bro/services/fx_bootstrap.py:76-81 | an empty answer is recorded as "no rates published" and changes nothing else |
| `FxLifecycle.AlwaysSettled` | src/finance_bro/services/fx_bootstrap.py:56-103 | from an empty rate table, in every interleaving of honest visits, a stored rate means its currency is tracked and done |
| `FxLifecycle.AlwaysGrows` | src/finance_bro/db/tracked_fx_currency_repo.py:38-57 | in every run flags are never reset, currencies stay tracked and rates are never changed |
| `FxLifecycle.VisitIsRun` | src/finance_bro/services/fx_bootstrap.py:56-89 | a visit is a run of that machine |
| `FxLifecycle.PassIsolated` | src/finance_bro/services/fx_bootstrap.py:91-103 | each currency ends a pass as if visited alone, whatever happened to the others |
| `FxLifecycle.PassOrderFree` | src/finance_bro/db/tracked_fx_currency_repo.py:26-30 | the order of the listing makes no difference to any currency |
| `FxLifecycle.FirstAnswerFinishes` | src/finance_bro/services/fx_bootstrap.py:83-89 | the first pass that gets rows for a currency finishes its bootstrap and stores exactly these rows |
| `FxLifecycle.FxBootstrapService.MaybeBootstrapFx` | src/finance_bro/services/fx_bootstrap.py:56-89 | the sequence of writes is the visit of the specification |
| `FxLifecycle.FxBootstrapService.MaybeBootstrapFxAllTracked` | src/finance_bro/services/fx_bootstrap.py:91-103 | the loop visits every tracked currency once |
| `FxLifecycle.TrackedFxCurrencyRepo.ListCurrencies` | src/finance_bro/db/tracked_fx_currency_repo.py:26-30 | every tracked currency once, in alphabetical order |
| `FxLifecycle.TrackedFxCurrencyRepo.UpsertCurrency` | src/finance_bro/db/tracked_fx_currency_repo.py:38-41 | registers an unknown currency, not bootstrapped |
| `FxLifecycle.TrackedFxCurrencyRepo.SetBootstrapDone` | src/finance_bro/db/tracked_fx_currency_repo.py:43-47 | sets the flag of a tracked currency |
| `FxLifecycle.TrackedFxCurrencyRepo.MarkAttempted` | src/finance_bro/db/tracked_fx_currency_repo.py:49-57 | records time and error of an attempt, nothing else |

## Left out

- The HTTP clients, the parsing of responses and the retries: a fetch is an arbitrary answer.
- Routes, request and response objects, wiring and the lifespan; kept are one tick at a time and recovery before the state is read at start-up.
- Isolation levels and locks inside the database: a transaction is one step.
- The digest and its JSON form: the token is the digested value.
- Casefolding, time zones, the day of a transaction, the currency code table: given with the row.
- Foreign keys to categories, creation and update times of transactions and rates, deletion of accounts.
- A commit whose outcome is lost: every transaction either commits, and the program knows it, or fails, and it knows that. A store that committed and then raised would make the program record a done run as an error.
- Ids that a refused insert of a rule uses up: the next id moves on success only.
- The collation of the database: currencies are ordered by character codes, which agree on the upper-case letters they consist of.
- FxListing.ListForAccount: states the order of rows with equal times no further, because the query does not.
- A scheduler without an importer, whose ticks do nothing.
- The range of days a fetch asks for: the answer is arbitrary in any case.
- RateGate.RateLimitGate.Acquire: the sleep itself is a returned duration, and the caller's send is not part of it.
- The allowlist is applied to what discovery stored; cards that change type later are not modelled.
- HalfEven.FittedMonotone: exponent limits of the decimal context are far from any amount and are not modelled, and neither are signed zeros.
- Logging, settings, migrations, seed data, backups and status counts.

# Transaction bookkeeping core, in Dafny

A model of the core of a small transaction service written in TypeScript:
clients submit monetary transactions (`value`, `dateHour`), may clear every
stored transaction, and may ask for `{count, sum, avg, min, max}` over the
transactions of the last N seconds. Four pieces carry the logic and are
modelled here:

- the in-memory store, `TransactionService` (`transaction_service.dfy`): a
  class whose `transactions` field is a `seq<Transaction>` that `Create`
  extends by one record with a fresh id;
- admission, `CreateTransactionUsecase.create` (`create_transaction.dfy`):
  the guards in their fixed order (presence, then sign, then future
  timestamp), as the specification function `Rejection` and as the
  imperative method `CreateTransactionUsecase.Create` that appends through
  the store on success;
- bulk clear, `DeleteTransactionUsecase.deleteAll`
  (`delete_transactions.dfy`), which reassigns the store's field to `[]`;
- the rolling-window statistics, `StatisticsUsecase.getStatistics`
  (`get_statistic.dfy`): a pure chain of filter, map, fold, min and max,
  written as functions (`RecentTransactions`, `Values`, `Sum`, `MinOf`,
  `MaxOf`, `Statistics`) with lemmas; the use-case method only reads the
  store.

`types.dfy` holds the record shapes (nullable fields become `Option`),
`env.dfy` the default window of 60 seconds, and `scenarios.dfy` clients
that replay the repository's test files and the interplay of create, clear
and statistics from the use cases' contracts alone.

Encodings: a JavaScript `number` is a `real` (exact, so `avg` is exact
division); a `Date` is an integer number of milliseconds and `isAfter` is
`>`; the window is an `int` number of seconds; the clock reading
`new Date()` is the parameter `now`; `randomUUID` is the counter field
`nextId`, whose object invariant `Valid()` keeps every stored id below it
and all stored ids distinct. The counter survives `deleteAll`, so ids are
never reused within a store's lifetime.

Two behaviours of the code are easy to mistake; the model follows the code:

- `!value` at src/use-cases/create-transaction.ts:14 treats `0` as absent,
  so a zero value is rejected with InvalidFields (`ZeroValueIsInvalidFields`,
  `Scenarios.ZeroValueRejected`), although a present zero amount is meant
  to be valid (only a missing amount should be InvalidFields, and only a
  negative one NegativeValue).
- The statistics filter also drops records whose value is null
  (src/use-cases/get-statistic.ts:26), not only those outside the window.
  Such records can exist because the store itself validates nothing.

## Model

| member | source | states |
|---|---|---|
| TransactionServices.TransactionService.constructor | src/services/transaction.service.ts:6 | A new store is empty, satisfies the id invariant, and will hand out id 0 first. |
| TransactionServices.TransactionService.Ids | src/services/transaction.service.ts:10 | Under the invariant, every id in the store is below the next id to be handed out. |
| TransactionServices.TransactionService.Create | src/services/transaction.service.ts:8-19 | Appends exactly one record at the end (old contents are a prefix, length grows by one), returns that record, copies `value` and `dateHour` unchanged (nulls included, no validation), and gives it an id absent from the store; the invariant is kept. |
| DeleteTransactions.DeleteTransactionUsecase.constructor | src/use-cases/delete-transactions.ts:4 | Holds the given store. |
| DeleteTransactions.DeleteTransactionUsecase.DeleteAll | src/use-cases/delete-transactions.ts:6-8 | Only the `transactions` field changes, and it becomes empty whatever it held; the invariant holds afterwards. |
| CreateTransaction.Rejection | src/use-cases/create-transaction.ts:14-27 | Admitted iff value > 0 and timestamp <= now; InvalidFields iff value null or zero or timestamp null; NegativeValue iff both present and value < 0; FutureTransaction iff value > 0 and timestamp > now. |
| CreateTransaction.ZeroValueIsInvalidFields | src/use-cases/create-transaction.ts:14-16 | A zero value is rejected with InvalidFields whatever the timestamp. |
| CreateTransaction.NegativeBeforeFuture | src/use-cases/create-transaction.ts:14-27 | A negative value with a future timestamp yields NegativeValue: sign is checked before the clock. |
| CreateTransaction.FutureBoundary | src/use-cases/create-transaction.ts:22-27 | A timestamp equal to `now` is admitted; one millisecond later is FutureTransaction. |
| CreateTransaction.CreateTransactionUsecase.constructor | src/use-cases/create-transaction.ts:9 | Holds the given store. |
| CreateTransaction.CreateTransactionUsecase.Create | src/use-cases/create-transaction.ts:10-37 | On any rejection returns that error and leaves the store untouched; otherwise returns Ok with a record that carries the request's value and timestamp and a fresh id, and the store is the old one plus that record. |
| GetStatistic.ResolveWindow | src/use-cases/get-statistic.ts:18-19 | No argument gives the 60-second default; an argument is used as given. |
| GetStatistic.Threshold | src/use-cases/get-statistic.ts:21 | `now - window*1000`: the threshold is at or before `now` iff the window is not negative. |
| GetStatistic.InWindow | src/use-cases/get-statistic.ts:24-28 | The filter's predicate; a record that passes it has a value, and its window is non-empty (threshold <= now). RecentMembership gives both directions. |
| GetStatistic.RecentTransactions | src/use-cases/get-statistic.ts:23-29 | The filter keeps no more records than it is given, and every kept record has a value, a timestamp, and a timestamp in [now - window*1000, now]. |
| GetStatistic.Values | src/use-cases/get-statistic.ts:41-43 | Mapping to values and dropping nulls never lengthens the list. |
| GetStatistic.Sum | src/use-cases/get-statistic.ts:46 | Left fold of `+` from 0; a one-value list sums to that value. SumAppend and SumBounds characterise it. |
| GetStatistic.MinOf | src/use-cases/get-statistic.ts:48 | The minimum is one of the values and is at most every value. |
| GetStatistic.MaxOf | src/use-cases/get-statistic.ts:49 | The maximum is one of the values and is at least every value. |
| GetStatistic.Statistics | src/use-cases/get-statistic.ts:20-58 | `count` is the number of in-window records; when it is zero the whole response is zeros. |
| GetStatistic.AllValuesPresent | src/use-cases/get-statistic.ts:41-45 | For in-window records the null filter drops nothing: one value per record, in order, so `count` equals the number of recent records. |
| GetStatistic.KeepsAllInWindow | src/use-cases/get-statistic.ts:23-29 | If every record is in the window, the filter returns the input unchanged. |
| GetStatistic.RecentMembership | src/use-cases/get-statistic.ts:23-29 | A record is kept iff it is stored, has a value and a timestamp, and `now - window*1000 <= timestamp <= now` (both ends inclusive). |
| GetStatistic.RecentAppend | src/use-cases/get-statistic.ts:23-29 | The filter distributes over concatenation, so it keeps store order and keeps each kept record exactly once. |
| GetStatistic.SumAppend | src/use-cases/get-statistic.ts:46 | The fold's sum of a concatenation is the sum of the parts. |
| GetStatistic.SumBounds | src/use-cases/get-statistic.ts:46 | The sum of n values that all lie in [lo, hi] lies in [n*lo, n*hi]. |
| GetStatistic.AverageBounds | src/use-cases/get-statistic.ts:47-49 | The average of a non-empty list of values in [lo, hi] lies in [lo, hi]. |
| GetStatistic.EmptyWindow | src/use-cases/get-statistic.ts:31-39 | No stored record is in the window iff `count` is 0, and then the response is exactly {0, 0, 0, 0, 0}. |
| GetStatistic.NonEmptySumAndAverage | src/use-cases/get-statistic.ts:41-47 | With a non-empty window, `sum` is the sum of the in-window values and `avg = sum / count`. |
| GetStatistic.NonEmptyExtremes | src/use-cases/get-statistic.ts:48-49 | With a non-empty window, `min` and `max` are values of in-window records and bound the value of every in-window record. |
| GetStatistic.NonEmptyAverageBetweenExtremes | src/use-cases/get-statistic.ts:47-49 | With a non-empty window, min <= avg <= max. |
| GetStatistic.DefaultWindow | src/config/env.ts:12 | Statistics with no window argument equal statistics for a 60-second window. |
| GetStatistic.NinetySecondsOld | src/use-cases/get-statistic.spec.ts:81-95 | A record of 100 that is 90 s old gives zeros with the default window and {1, 100, 100, 100, 100} with a 120-second window. |
| GetStatistic.ThreeRecent | src/use-cases/get-statistic.spec.ts:52-79 | Values 10, 20, 30 at -30 s, -10 s and now give {3, 60, 20, 10, 30} with the default window, whatever their ids. |
| GetStatistic.StatisticsUsecase.constructor | src/use-cases/get-statistic.ts:13 | Holds the given store. |
| GetStatistic.StatisticsUsecase.GetStatistics | src/use-cases/get-statistic.ts:15-29 | Returns the statistics of the current store for the resolved window and `now`; it has no modifies clause, so the store is only read. |
| Scenarios.EmptyStoreStatistics | src/use-cases/get-statistic.spec.ts:21-31 | A new store gives all-zero statistics. |
| Scenarios.NoRecentTransactions | src/use-cases/get-statistic.spec.ts:33-50 | A record of 100 two minutes old is admitted (the create returns Ok) but gives all-zero statistics with the default window. |
| Scenarios.RecentTransactionsStatistics | src/use-cases/get-statistic.spec.ts:52-79 | Creating 10, 20, 30 at -30 s, -10 s and now through the use case, then asking for statistics, gives {3, 60, 20, 10, 30}. |
| Scenarios.CustomTimeWindow | src/use-cases/get-statistic.spec.ts:81-95 | One record 90 s old: count 0 by default; count 1 and sum 100 with a 120-second window. |
| Scenarios.DeleteAllTransactions | src/use-cases/delete-transactions.spec.ts:17-33 | Two creates leave two records; deleteAll leaves none. |
| Scenarios.CreateOne | src/use-cases/create-transaction.spec.ts:14-21 | A valid request through the use case succeeds and returns the submitted value and timestamp, with id 0 (the first id of a new store). |
| Scenarios.ZeroValueRejected | src/use-cases/create-transaction.ts:14-16 | A zero value through the use case yields InvalidFields and stores nothing. |
| Scenarios.StatisticsAfterDeleteAll | src/use-cases/delete-transactions.ts:7 | Whatever the store held, after deleteAll the statistics for any window are all zeros. |
| Scenarios.DeleteAllTwice | src/use-cases/delete-transactions.ts:6-8 | deleteAll twice leaves the same empty store as once, and the id counter is untouched. |
| Scenarios.CreateAfterDeleteAll | src/services/transaction.service.ts:8-18 | An admitted create after deleteAll leaves a store holding exactly the new record, whose id differs from every id held before the clear. |
| Scenarios.StatisticsLeaveStoreUnchanged | src/use-cases/get-statistic.ts:23-29 | Asking for statistics leaves `transactions` and the id counter as they were. |

## Left out

- The HTTP controller (src/controller/transaction.controller.ts): request parsing with zod, the error-to-status mapping (the three use-case errors to 422, a `z.ZodError` from parsing to 400, anything else to 500); transport plumbing built on foreign libraries.
- Process bootstrap (src/server.ts) and environment reading (src/config/env.ts); only the resulting default window of 60 seconds is modelled.
- The repository interface (src/repositories/in-memory-transaction-repository.ts), which has no behaviour.
- Logging (`console.log`), `async`/`Promise` wrapping and `dayjs`; `isAfter` is `>` on milliseconds.
- IEEE-754 behaviour: rounding of `sum` and `avg`, and NaN (which `!value` would also reject); values are exact reals.
- Real UUIDs: ids are natural numbers drawn from a counter, which gives the uniqueness `randomUUID` is relied on for.
- GetStatistic.MinOf and GetStatistic.MaxOf: `Math.min(...values)` and `Math.max(...values)` pass every in-window value as a call argument, so a large enough window throws a `RangeError` (answered with 500 by the controller); the model has no argument-count limit and returns a value for every non-empty list.
- Concurrency: the source is single-threaded in-process state, and so is the model.
- Scenarios: the test files read the clock several times; each scenario here uses one `now` for every call.
- An invalid `Date` (NaN time) is not modelled: a stored timestamp is always an integer, and so is the window threshold. In the source a window too large for the Date range (beyond ±8.64e15 ms, e.g. 10^13 seconds) makes `new Date(now - timeWindow * 1000)` an Invalid Date, every `>=` comparison in the filter false and the response all zeros; `GetStatistic.Threshold` is then a very negative integer and the model counts the in-window records.

# Bill payment and on-time-streak rewards, in Dafny

This project models the core of a small bill-payment service. A user pays a
bill. The bill is stamped PAID_ON_TIME when paid no later than its due date
and PAID_LATE otherwise. After every successful payment the service looks at
the user's three most recently paid bills. If there are three and all were
paid on time, it issues a "$10 Amazon Gift Card" reward.

The model has four modules:

- `Models` (`models.dfy`): the bill, user and reward records and the
  three-state `BillStatus`. The payment date is an `Option<int>`. It also holds
  the lifecycle rules: `StatusStep` (a status only ever leaves UNPAID) and
  `ConsistentBill` (a payment date is present exactly when the bill is paid).
- `Repository` (`repository.dfy`): the SQLite repository as an in-memory table
  store. The class `Store` holds one `seq` of rows per table and one
  AUTOINCREMENT counter per table. Each method models the one SQL statement the
  Go method issues:
  - lookup by id;
  - `UPDATE` of payment date and status only;
  - the filtered, ordered and limited query for paid bills;
  - `INSERT` under a fresh id, with the stored record returned as `saved`.

  `Store.Valid()` is the primary-key invariant: ids are distinct, positive and
  below the next id to hand out.
- `RewardService` (`reward_service.dfy`): the class `RewardService` with
  `PayBill`, `CheckForReward`, `CreateUser` and `CreateBill`, plus the
  constants `RequiredOnTimePayments` (3) and `RewardDescription`. The on-time
  rule is the function `PaymentStatus` and the streak rule is the predicate
  `EarnsReward`. `RewardCheck` describes what one reward check writes and
  answers.
- `Scenarios` (`scenarios.dfy`): client code that relies only on the contracts.
  Three on-time payments earn a reward on the third one. A qualifying history
  earns a reward on every check. Paying an already paid bill or an unknown id
  writes nothing.

Things outside the program become parameters:

- The clock is read three times: for the payment time, for the reward's issue
  time and for a new user's creation time. Each reading is an integer
  parameter (`now` and `issuedAt` of `PayBill`, `now` of `CreateUser`).
- A failure of any store call is a `fail` argument of that call. `PayBill`
  takes a `Faults` record with one flag per store call it makes.

The SQL query leaves the order of bills with equal payment dates unspecified.
So the query result is specified by the predicate `IsLatestPaidWindow`: the
result is the first `limit` rows of SOME newest-first ordering of the user's
paid bills. `CheckForReward` and `PayBill` return that result as a ghost
`window` so that their contracts can refer to it. In SQLite a NULL payment date
sorts below every date, and a negative LIMIT means no limit. The model follows
both.

Three behaviours of the code are worth knowing:

- `CreateUser` and `CreateBill` return the record even when the insert fails.
  The record then has id 0.
- No call checks that a user exists.
- The reward is issued again on every qualifying check. It is not issued only
  once.

## Model

| member | source | states |
|---|---|---|
| `Models.BillStatus.Text` | models/bill.go:9-11 | the stored texts of the three statuses; the text is "UNPAID" exactly for `Unpaid`, which is what the query's `status != 'UNPAID'` tests |
| `Repository.BillWithId` | dbConnection/repository.go:68-80 | the lookup yields a row of the table carrying the requested id, and yields nothing exactly when no row carries it |
| `Repository.Store.Valid` | dbConnection/repository.go:33-58 | the `PRIMARY KEY AUTOINCREMENT` columns of the three tables: ids are distinct, at least 1, and below the next id to hand out |
| `Repository.Store.GetBillByID` | dbConnection/repository.go:68-81 | a driver failure is an error; otherwise the answer is `Ok(BillWithId(...))`, so a missing id gives "absent" (`Ok(None)`), not an error |
| `Repository.BillWithIdFindsUniqueRow` | dbConnection/repository.go:68-80 | with distinct primary keys, the lookup returns precisely the row that has the id |
| `Repository.WithPayment` | dbConnection/repository.go:83-87 | the UPDATE keeps the number of rows, leaves every row with another id as it was, and changes only payment date and status of the row with the id (id, user, amount and due date stay) |
| `Repository.UpdateTouchesOneRow` | dbConnection/repository.go:83-87 | with distinct primary keys the UPDATE replaces exactly the row holding the id, with only its payment date and status changed |
| `Repository.Store.UpdateBill` | dbConnection/repository.go:83-87 | on failure nothing changes; otherwise the bills table becomes `WithPayment(old table, id, date, status)`, the other tables and counters stay, and the primary-key invariant holds |
| `Repository.PaidBillsOf` | dbConnection/repository.go:90-93 | the WHERE clause keeps exactly the table's rows of that user whose status is not UNPAID |
| `Repository.PaidBillsOfKeepsPaidRows` | dbConnection/repository.go:93 | the WHERE clause keeps every copy of a row that is a paid bill of the user |
| `Repository.AtLeastAsRecent` | dbConnection/repository.go:94 | the order of `ORDER BY payment_date DESC`: a later date first, a NULL date after every date |
| `Repository.WindowSize` | dbConnection/repository.go:95 | LIMIT keeps `limit` rows when more are available, all of them otherwise, and all of them for a negative limit |
| `Repository.InsertByRecency` | dbConnection/repository.go:94 | one sorting step adds exactly the new row to the rows already sorted |
| `Repository.InsertKeepsNewestFirst` | dbConnection/repository.go:94 | that sorting step keeps the rows ordered by payment date, newest first |
| `Repository.IsLatestPaidWindow` | dbConnection/repository.go:89-95 | the possible answers of the query: the first `limit` rows (all of them for a negative limit) of some ordering of the user's paid bills, newest first, with ties in any order |
| `Repository.Store.GetLastPaidBillsByUser` | dbConnection/repository.go:89-113 | a driver failure is an error; otherwise the result is a possible answer of the query: a newest-first ordering of the user's paid bills, cut at `limit` |
| `Repository.WindowIsPaidBillsOfUser` | dbConnection/repository.go:89-95 | every returned bill is a stored paid bill of that user, and no bill is returned more often than it is stored; there are `min(limit, number of paid bills)` of them, so at most `limit`; and they come newest first |
| `Repository.WindowHoldsMostRecent` | dbConnection/repository.go:93-95 | no paid bill of the user left out by LIMIT is more recent than a returned one |
| `Repository.Store.CreateReward` | dbConnection/repository.go:115-123 | on success exactly one row is appended, under the next fresh id; the record carrying that id is returned as `saved`; nothing else changes; on failure nothing changes |
| `Repository.Store.CreateUser` | dbConnection/repository.go:125-133 | on success exactly one row is appended, under the next fresh id; the record carrying that id is returned as `saved`; nothing else changes; on failure nothing changes |
| `Repository.Store.CreateBill` | dbConnection/repository.go:135-143 | on success one row is appended under a fresh id and with no payment date; existing rows are unchanged; the caller's record with only the id filled in is returned as `saved` |
| `RewardService.PaymentStatus` | service/reward_service.go:50-54 | a paid status; PAID_LATE exactly when paid strictly after the due date, so paying on the due date is on time |
| `RewardService.PaymentKeepsLifecycle` | service/reward_service.go:43-58 | for a bill found UNPAID, the write gives the row with that id a paid status and the payment date `now`, and leaves every other row exactly as it was; rows keep their ids, statuses only leave UNPAID, and the table keeps "payment date present exactly when paid" |
| `RewardService.RewardService.PayBill` | service/reward_service.go:35-66 | a lookup failure, a missing bill, an already paid bill or an update failure give their error and write nothing. Otherwise the bill is stored with payment date `now` and its `PaymentStatus`. The reward check then runs on the updated table, and its outcome never turns the payment into an error. Statuses only leave UNPAID |
| `RewardService.EarnsReward` | service/reward_service.go:74-84 | the streak rule on the query result: at least 3 bills, every one PAID_ON_TIME |
| `RewardService.RewardCheck` | service/reward_service.go:68-97 | what one reward check writes and answers: when the query succeeds its result is a possible answer of the query; exactly when that answer earns the reward and the insert succeeds, one reward (next id, user, gift-card description, issue time) is appended, the counter moves on and the message is the congratulation; otherwise the rewards and counter are unchanged and the message is empty |
| `RewardService.RewardService.CheckForReward` | service/reward_service.go:68-97 | the bills are queried for the last 3 paid bills. Exactly when that window has 3 bills, all PAID_ON_TIME, and the insert succeeds, one reward is appended: for the user, with the gift-card description, the issue time and the next id. The message is then the congratulation. Otherwise nothing is written and the message is empty. Query and insert failures are reported as errors |
| `RewardService.AllPaidOnTime` | service/reward_service.go:79-84 | the scan over the window answers yes exactly when every bill in it is PAID_ON_TIME |
| `RewardService.FewerThanRequiredEarnsNothing` | service/reward_service.go:69-77 | a user with fewer than 3 paid bills never earns a reward, whatever the query returns |
| `RewardService.LatestLatePaymentBlocksReward` | service/reward_service.go:79-84 | a user whose most recent paid bill was paid late earns no reward, whatever the older bills were |
| `RewardService.LatestThreeOnTimeEarnReward` | service/reward_service.go:69-96 | a user with three paid bills paid on time, and every late payment strictly older than each of them, earns a reward however the query orders equal payment dates; late payments before the streak do not matter |
| `RewardService.BillsNewerThanLateComeFirst` | dbConnection/repository.go:94 | in a newest-first ordering, the bills paid on time after the late bill at position k all come before it, so there are at most k of them |
| `RewardService.RewardService.CreateUser` | service/reward_service.go:99-106 | the user is stored with the given name and creation time under a fresh id; on failure the record comes back with id 0 and nothing is written |
| `RewardService.RewardService.CreateBill` | service/reward_service.go:108-117 | the bill is stored UNPAID with the given user, amount and due date, no payment date and a fresh id; on failure the record comes back with id 0 and nothing is written |
| `Scenarios.RebuiltStreakEarnsReward` | service/reward_service.go:69-96 | one bill paid late and then three bills paid on time: the last three paid bills earn the reward |
| `Scenarios.QualifyingCheckIssuesReward` | service/reward_service.go:86-96 | on a qualifying history a check appends a reward and leaves the bills unchanged, so the history still qualifies and every later check appends another: the check is not idempotent |

## Left out

- Opening the database, pinging it and creating the tables (`NewRepository`,
  `createTables`) are I/O. The `Store` constructor stands for a new, empty
  database whose counters start at 1.
- Foreign keys are not modelled. SQLite enforces them only after
  `PRAGMA foreign_keys = ON`, which the repository never issues, so a bill or
  reward for an unknown user is accepted.
- Driver behaviour is reduced to "the statement fails" or "the statement takes
  effect". Three cases are not modelled:
  - a `LastInsertId` error, which the repository ignores;
  - an error during row iteration, which the repository does not check
    (`rows.Err()`);
  - a failure after part of a result was read.
- Integer widths are not modelled. Ids, amounts and instants are unbounded
  integers, and AUTOINCREMENT exhaustion at the 64-bit maximum is absent.
- Time is an integer. `time.Now()` becomes parameters. How DATETIME values are
  stored and read back (text form, precision, time zones) is not modelled. The
  ORDER BY is taken to be chronological.
- `log.Printf` calls and `context.Context` arguments have no effect on
  behaviour.
- Concurrency is not modelled. In the source, two concurrent `PayBill` calls on
  one bill can both see UNPAID, because no transaction covers the read and the
  write. The model runs one call at a time.
- The HTTP layer (`main.go`, `api/`) is transport only: routing, parsing and
  JSON.
- `models/user.go` is not part of this model. The `User` record's fields (id,
  name, creation time) are read off their uses in the service and the
  repository.
- Updates through a pointer become returned values. `PayBill` changes the
  fetched bill in place; here it builds an updated value, and since the fetched
  bill is a fresh copy of the row no aliasing is lost. The repository's
  `CreateReward`, `CreateUser` and `CreateBill` write the new id into the
  caller's record (`reward.ID`, `user.ID`, `bill.ID`); here they leave the
  argument alone and return the record with its id as `saved`, so a caller
  that kept the old record does not see the id appear in it.
- Error texts are not modelled. Each Go error return is a constructor of
  `ServiceError`, and every driver error is the single value `DriverError`.

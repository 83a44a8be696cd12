# go-migrate in Dafny

A model of go-migrate, a small schema-migration runner for Go. The same
runner exists twice in the library: once for `database/sql`
(`migrations.go`, `simple.go`) and once for pgx v4 (`pgx/migrations.go`,
`pgx/simple.go`). The two copies differ only in their driver types, so one
generic model covers both. Each member below models the function of that
name in both files. The table cites the `database/sql` copy. The pgx copy
of each function sits one line further down in `pgx/migrations.go`, and two
lines further down in `pgx/simple.go`.

The model has these parts:

- `Simple` holds the migration record `SimpleMigration`: a name, a creation
  date, and optional up and down increments. An increment is a function
  from the schema state of a transaction to an `Effect`, which either holds
  a new schema or fails with a message. An unset increment succeeds and
  changes nothing.
- `Keys` holds the tracking key `dbName`. It is the decimal Unix seconds of
  the date, then `_`, then the name, cut to 500 bytes. The module proves
  that Go's `%d` rendering can be read back, and that keys short enough for
  the column tell migrations apart.
- `Ordering` holds `MigrationList.Less`, `MigrationList.Swap` and
  `sortMigrations`. The sort copies the list into an array and sorts it in
  place by `Less`, with swaps of neighbouring elements. It is specified
  only as "a date-ordered permutation", because `sort.Sort` is not stable.
  The caller's list is a value, so the copy leaves it unchanged.
- `Reconcile` holds `needsToRun`. It loads the rows into a `hasRun` map,
  then appends each migration whose key is missing. It is proved equal to
  the specification function `Unapplied`, which keeps exactly the
  unapplied migrations as a subsequence of the input.
- `Transactions` holds the specification of a transaction. `Store` is the
  tracking table (a sequence of keys; duplicates are allowed) together
  with an opaque schema. `Driver` gives the outcome of each database call.
  `UpTransaction` and `DownTransaction` describe Begin, then the loop of
  increment plus INSERT or DELETE, then Commit. The first failure rolls
  back. The lemmas prove four things:
  - all-or-nothing: the first failing step decides the error, and later
    steps have no effect;
  - the exact rows a committed run leaves;
  - down undoing up;
  - after a successful `Migrate` there is nothing left to run.
- `Runner` holds the imperative operations over a `Database` object:
  `migrateUpN`, `migrateDownN`, `checkMigrationTable` and `Migrate`. Each
  loop is proved against the functions of `Transactions`. The committed
  state changes only on Commit.
- `Scenarios` restates the expectations of `migrations_test.go` over the
  model.

The database driver is a parameter, not code. It is a `Driver` value that
says, for each call, whether it fails:
- `createTable` is the `CREATE TABLE IF NOT EXISTS` statement;
- `query` is the `SELECT` of the tracking table;
- `begin` and `commit` are the transaction calls;
- `exec(k)` is the k-th INSERT or DELETE of a transaction, counting from 0.

A date is an integer number of nanoseconds since the Unix epoch.
`time.Time.Unix` is floor division by 10^9 and `Before` is `<`. A string is
a `seq<char>` in which each char stands for one byte of the Go string.

## Model

| member | source | states |
|---|---|---|
| Simple.NewSimpleMigration | simple.go:21-28 | the migration's `Name` and `Date` are the given name and date, and its increments are the given ones |
| Simple.Up | simple.go:31-37 | with no up increment the result is success with the schema unchanged; otherwise it is exactly the increment's result on the schema |
| Simple.Down | simple.go:40-46 | with no down increment the result is success with the schema unchanged; otherwise it is exactly the increment's result |
| Keys.UnixSeconds | migrations.go:137 | defining function of `Date().Unix()`, no contract of its own; `Keys.UnixSecondsBounds` states what it computes |
| Keys.Digits | migrations.go:137 | defining function of `%d` on a natural number; its contract says the text is never empty; `Keys.DigitsWellFormed` and `Keys.DigitsRoundTrip` state what it computes |
| Keys.Decimal | migrations.go:137 | defining function of `%d` on a signed integer; its contract says the text is never empty; `Keys.DecimalRoundTrip` and `Keys.DecimalHasNoUnderscore` state what it computes |
| Keys.FullKey | migrations.go:137 | defining function of `fmt.Sprintf("%d_%s", ...)`, no contract of its own; `Keys.FullKeyInjective` states what it computes |
| Keys.DbName | migrations.go:136-145 | the key is never longer than 500; it is a prefix of `"<unix seconds>_<name>"`; it equals that full key when the full key fits in 500; otherwise it has exactly 500 elements |
| Keys.UnixSecondsBounds | migrations.go:137 | the second that `Unix()` reports is the one the nanosecond date falls in (floor division, also before 1970) |
| Keys.DigitsWellFormed | migrations.go:137 | the `%d` text of a natural number is all digits, with no leading zero |
| Keys.DigitsRoundTrip | migrations.go:137 | the digits of a natural number read back to that number |
| Keys.DecimalHasNoUnderscore | migrations.go:137 | the `%d` text of a signed number has no `_`, so the first `_` of a key ends the seconds |
| Keys.DecimalRoundTrip | migrations.go:137 | the `%d` text of any integer, including the minus sign, reads back to that integer |
| Keys.DecimalInjective | migrations.go:137 | two integers have the same `%d` text if and only if they are equal |
| Keys.SplitAtUnderscore | migrations.go:137 | two keys `p_x` and `q_y` whose prefixes hold no `_` are equal only when the prefixes are equal and the names are equal |
| Keys.FullKeyInjective | migrations.go:137 | two migrations have the same untruncated key if and only if they share the Unix second and the name |
| Keys.ShortDbNamesDistinguish | migrations.go:136-145 | when both full keys fit in 500 bytes, the tracking keys are equal if and only if the Unix seconds and the names are |
| Ordering.Before | migrations.go:25 | defining predicate of `time.Time.Before` on nanosecond dates, no contract of its own |
| Ordering.Less | migrations.go:25 | defining predicate of `MigrationList.Less`, no contract of its own; `Ordering.InsertAt` and `Ordering.SortMigrations` state the order it yields |
| Ordering.Swap | migrations.go:24 | the two elements are exchanged, every other element is kept, and the multiset is unchanged |
| Ordering.InsertAt | migrations.go:131 | one insertion step of the in-place sort by `Less`: it extends the date-ordered prefix by one, keeps the multiset, and leaves the suffix alone |
| Ordering.SortMigrations | migrations.go:127-133 | the result has the input's length and multiset, and no migration in it is dated strictly before an earlier one |
| Reconcile.AppliedSet | migrations.go:109-113 | a key is in the `hasRun` set if and only if it is one of the rows read |
| Reconcile.Unapplied | migrations.go:116-121 | defining function of the filter, no contract of its own; `Reconcile.UnappliedCharacterization`, `Reconcile.UnappliedCounts`, `Reconcile.UnappliedEmpty` and `Reconcile.UnappliedIdempotent` state what it computes |
| Reconcile.UnappliedCharacterization | migrations.go:116-121 | the work list is a subsequence of the input, and a migration is in it if and only if it is in the input and its key is not applied |
| Reconcile.UnappliedCounts | migrations.go:116-121 | a migration whose key is applied occurs zero times in the work list, and any other occurs exactly as often as in the input, so repeated entries are all kept |
| Reconcile.UnappliedEmpty | migrations.go:116-121 | when every key is applied, the work list is empty |
| Reconcile.UnappliedIdempotent | migrations.go:116-121 | filtering the work list again against the same rows removes nothing |
| Reconcile.NeedsToRun | migrations.go:100-124 | a failed `SELECT` returns its error and no list; otherwise the map-and-append loops return exactly `Unapplied(migs, rows)` |
| Transactions.DeleteRows | migrations.go:87 | defining function of `DELETE FROM migrations WHERE migration = $1`; its contract says no row is added; `Transactions.DeleteRowsMembers` states which rows remain |
| Transactions.WithoutMembers | migrations.go:87 | after deleting a set of keys, a row remains if and only if it was there and its key is not in the set |
| Transactions.DeleteRowsMembers | migrations.go:87 | `DELETE ... WHERE migration = key` removes every row equal to the key and keeps all others |
| Transactions.WithoutAppend | migrations.go:87 | deleting from a concatenation deletes from each part |
| Transactions.WithoutUnion | migrations.go:79-94 | two deletes in a row equal one delete of the union of the two key sets |
| Transactions.WithoutNothing | migrations.go:87 | deleting keys that no row holds leaves the table as it was |
| Transactions.WithoutEverything | migrations.go:87 | deleting every key the rows hold empties the table |
| Transactions.UpError | migrations.go:56 | the error begins with `Failed to up `, followed by the key, and ends with the increment's message |
| Transactions.DownError | migrations.go:84 | the error begins with `Failed to down `, followed by the key, and ends with the increment's message |
| Transactions.UpStep | migrations.go:52-63 | a step succeeds if and only if `Up` succeeds and the INSERT succeeds; on success the key is appended and the new schema kept; a failed `Up` gives the error naming the key; a failed INSERT after a successful `Up` gives the driver's own error unchanged |
| Transactions.DownStep | migrations.go:80-91 | a step succeeds if and only if `Down` and the DELETE succeed; on success every row equal to the key is deleted; a failed `Down` gives the error naming the key; a failed DELETE after a successful `Down` gives the driver's own error unchanged |
| Transactions.KeysOfPermutation | migrations.go:127-133 | two lists with the same migrations have the same set of keys, so the sort order does not change which rows are deleted |
| Transactions.UpSteps | migrations.go:51-66 | defining function of the up loop, stopping at the first failure; no contract of its own; the lemmas below state what it computes |
| Transactions.UpTransaction | migrations.go:44-68 | defining function of Begin, the up loop and Commit; no contract of its own; `Transactions.UpTransactionCommits` and the lemmas below state what it computes |
| Transactions.Published | migrations.go:55-68 | defining function of Commit and Rollback: the new state on success, the old one on any failure; no contract of its own |
| Transactions.UpStepsSplit | migrations.go:51-66 | running steps `i..n` is running `i..k` and, when that succeeds, `k..n` |
| Transactions.UpStepsAppendKeys | migrations.go:51-66 | successful up steps append exactly `keys[i..n]`, in ascending order |
| Transactions.UpStopsAtFirstFailure | migrations.go:54-63 | once step `k` fails, the whole run fails with that step's error, and no later `Up` or INSERT has any effect |
| Transactions.UpFailureHasFirstFailingStep | migrations.go:51-66 | a failed run has a first failing step, and the run reports exactly that step's error |
| Transactions.UpStepsSucceedIff | migrations.go:51-66 | a run succeeds if and only if every step succeeds on the state the earlier steps left |
| Transactions.UpTransactionSteps | migrations.go:44-68 | a committed up transaction had a successful Begin and Commit, and its result is its steps' result |
| Transactions.UpTransactionCommits | migrations.go:44-69 | a committed up transaction appended exactly the keys of `sorted[0..n)` in ascending order, and each of them fits the 500-byte column |
| Transactions.DownSteps | migrations.go:79-94 | defining function of the down loop from the top index downwards, stopping at the first failure; no contract of its own |
| Transactions.DownTransaction | migrations.go:72-96 | defining function of Begin, the down loop and Commit; no contract of its own; `Transactions.DownTransactionCommits` states what it computes |
| Transactions.DownStepsPeel | migrations.go:80-91 | the down run from index `i` begins with the step at `i`: a failed `Down` or DELETE is the result of the run; otherwise the run goes on from `i - 1` with the key deleted |
| Transactions.DownStepsSplit | migrations.go:79-94 | running the down steps from `hi` to `lo` is running `hi` to `k` and then `k` to `lo` |
| Transactions.DownStopsAtFirstFailure | migrations.go:82-91 | once the step at index `k` fails, the down run fails with that step's error, and the entries below `k` are never visited |
| Transactions.DownStepsRemoveKeys | migrations.go:79-94 | successful down steps delete exactly the rows that equal a key of `keys[lo..hi]` |
| Transactions.DownTransactionSteps | migrations.go:72-96 | a committed down transaction had a successful Begin and Commit, and its result is its steps' result |
| Transactions.DownTransactionCommits | migrations.go:72-97 | a committed down transaction removed exactly the rows holding a key of the last `n` sorted entries |
| Transactions.UpAllAppends | migrations.go:44-69 | running every migration up appends all their keys, in sorted order |
| Transactions.DownAllRemoves | migrations.go:72-97 | running every migration down deletes every row that holds one of their keys |
| Transactions.RemovingAppendedRestores | migrations.go:87 | deleting the appended keys, none of which was there before, restores the table |
| Transactions.UpThenDownRestoresRows | migrations.go:44-97 | applying a list of new migrations up and then the same migrations down (in either tie order) gives back the original tracking table |
| Transactions.MigrateLeavesNothingUnapplied | migrations.go:28-41 | after a committed run of the work list, reconciling the same list against the new rows finds nothing to run |
| Runner.Database.constructor | migrations.go:28 | the `*sql.DB` holding the committed tracking rows and schema: a new database has no rows and no table |
| Runner.MigrateUpN | migrations.go:44-69 | the order used is a sorted permutation of the input; the error and the new committed state are those of `UpTransaction`, so the store changes only on Commit |
| Runner.MigrateDownN | migrations.go:72-97 | the order used is a sorted permutation; the loop from the last index down over `n` entries gives the error and the committed state of `DownTransaction` |
| Runner.CheckMigrationTable | migrations.go:148-151 | returns the driver's error, and afterwards the table exists if it did before or the statement succeeded |
| Runner.Migrate | migrations.go:28-41 | a failed table check is returned with the table flag and the store unchanged; a failed `SELECT` is returned before any transaction; otherwise all of `Unapplied` runs in one up transaction; any error leaves the store unchanged; success leaves nothing unapplied |
| Scenarios.DbNameScenario | migrations_test.go:15-24 | a migration "b" dated in second 1599648725 has the key `1599648725_b` |
| Scenarios.TruncatedDbNameScenario | migrations_test.go:26-41 | with a 2500-byte name, the key is the first 500 bytes of `1599648725_` followed by the name |
| Scenarios.SortScenario | migrations_test.go:43-52 | sorting `[a, b]`, where "a" is five seconds after "b", gives "b" then "a" |
| Scenarios.MigrateUpNScenario | migrations_test.go:54-79 | one migration "a" whose `Up` succeeds commits the row `1599691380_a` and the increment's schema |
| Scenarios.MigrateDownNScenario | migrations_test.go:81-106 | one migration "a" whose `Down` succeeds commits the table without `1599691380_a` |
| Scenarios.MigrateScenario | migrations_test.go:108-143 | with `1599691380_a` already recorded, `Migrate` runs only "b" and commits `[1599691380_a, 1599691380_b]` |
| Scenarios.MigrateRollbackScenario | migrations_test.go:145-179 | when the `Up` of "b" fails, `Migrate` returns the error naming `1599691380_b` and the committed state is unchanged |
| Scenarios.MigrateTwiceScenario | migrations.go:28-41 | after a successful `Migrate`, nothing is left unapplied, and a second `Migrate` over the same list succeeds and changes nothing |

## Left out

- SQL text, `database/sql`, `pgx.Conn`, `pgx.Tx` and `context.Context` are not modelled. Every driver call is reduced to its success or failure, given by a `Driver` parameter. The `exec` outcome depends only on the statement's position in the transaction.
- `checkMigrationTable` is reduced to a "table exists" flag. The flag is not tied to the `SELECT`, INSERT or DELETE outcomes, which come from the `Driver`.
- `Runner.MigrateDownN`: no counterpart for the index it logs in its `Down'd` message. Logging through logrus is left out everywhere, since it has no effect on the state.
- Ordering.SortMigrations: does not model the algorithm behind `sort.Sort`. An insertion sort stands in for it, and the tie order is not specified.
- Errors that the code ignores are not modelled: those of `Scan`, `rows.Err()`, `Close` and `Rollback`. The rows read are taken as the committed tracking table.
- Runner.MigrateUpN: requires `n <= |migs|`. Go panics on an out-of-range index there, and that panic is not modelled. The same holds for Runner.MigrateDownN.
- The `time.Time` internals (time zones, monotonic clock, parsing) are not modelled, and neither is the int64 range of `Unix()`. A date is an unbounded number of nanoseconds.
- Keys.DbName: does not model UTF-8. A char stands for one byte, so cutting at 500 chars is Go's byte-slicing, and a split multi-byte rune is not represented.
- Increments act on an opaque schema value only. An increment cannot change the tracking table itself, and one that does SQL on `migrations` is not modelled.
- A failing Commit is modelled as publishing nothing. Any driver-side partial commit is not represented.
- The `Migration` interface is modelled only by `SimpleMigration`. Any increment is allowed, so every implementation behaves like one of these.
- Slices are values, so the aliasing between the caller's `migs` and Go's slices is not modelled. The copy in `sortMigrations` makes that aliasing moot.
- Concurrency between runners in separate processes is not modelled, and neither is the driver's connection state.
- The test files' sqlmock expectations are not modelled. `Scenarios` states what the tests expect, with the test closures as arbitrary increments.
- `Simple.Date` and `Simple.Name` are getters with no contract of their own; `Simple.NewSimpleMigration` states what they return.

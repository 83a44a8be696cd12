/**
 * The scenarios of migrations_test.go, stated over the model: the keys
 * `TestDbName` and `TestTruncatedDbName` expect, the order `TestSortMigrations`
 * expects, and what `TestMigrateUpN`, `TestMigrateDownN`, `TestMigrate` and
 * `TestMigrateRollback` expect of the runner.  Each test's fake database
 * becomes a `Driver` whose calls succeed (or, for the rollback test, an
 * increment that fails).
 */
module Scenarios {
  import opened Wrappers
  import opened Simple
  import opened Keys
  import opened Ordering
  import opened Reconcile
  import opened Transactions
  import opened Runner

  /** 2020-09-09T20:52:05+10:00, the date of the key tests, in Unix seconds. */
  const KeyTestSeconds: int := 1599648725

  /** 2020-09-10T08:43:00+10:00, the date of the runner tests, in Unix seconds. */
  const RunnerTestSeconds: int := 1599691380

  /**
   * The decimal text of the test dates.  Each `assert` unrolls `Digits` by
   * one more digit, so the solver never has to expand all ten at once.
   */
  lemma DigitsOfKeyTestSeconds()
    ensures Digits(KeyTestSeconds) == "1599648725"
  {
    assert Digits(1) == "1";
    assert Digits(15) == "15";
    assert Digits(159) == "159";
    assert Digits(1599) == "1599";
    assert Digits(15996) == "15996";
    assert Digits(159964) == "159964";
    assert Digits(1599648) == "1599648";
    assert Digits(15996487) == "15996487";
    assert Digits(159964872) == "159964872";
    assert Digits(1599648725) == "1599648725";
  }

  lemma DigitsOfRunnerTestSeconds()
    ensures Digits(RunnerTestSeconds) == "1599691380"
  {
    assert Digits(1) == "1";
    assert Digits(15) == "15";
    assert Digits(159) == "159";
    assert Digits(1599) == "1599";
    assert Digits(15996) == "15996";
    assert Digits(159969) == "159969";
    assert Digits(1599691) == "1599691";
    assert Digits(15996913) == "15996913";
    assert Digits(159969138) == "159969138";
    assert Digits(1599691380) == "1599691380";
  }

  /** Every date inside second `secs` reports that second. */
  lemma UnixSecondsWithin(date: int, secs: int)
    requires secs * NanosPerSecond <= date < secs * NanosPerSecond + NanosPerSecond
    ensures UnixSeconds(date) == secs
  {
    UnixSecondsBounds(date);
  }

  /** `s` written `n` times over. */
  function Repeat(s: string, n: nat): (r: string)
    ensures |r| == |s| * n
  {
    if n == 0 then [] else s + Repeat(s, n - 1)
  }

  /** The name of `TestTruncatedDbName`: the alphabet string 100 times, 2500 bytes. */
  function LongName(): (r: string)
    ensures |r| == 2500
  {
    Repeat("abcdefghijklmnopqrstuwxyz", 100)
  }

  /** `TestDbName`: a migration "b" dated in second 1599648725 gets the key "1599648725_b". */
  lemma DbNameScenario<S>(date: int, up: Option<Increment<S>>, down: Option<Increment<S>>)
    requires KeyTestSeconds * NanosPerSecond <= date < KeyTestSeconds * NanosPerSecond + NanosPerSecond
    ensures DbName(NewSimpleMigration("b", date, up, down)) == "1599648725_b"
  {
    UnixSecondsWithin(date, KeyTestSeconds);
    DigitsOfKeyTestSeconds();
  }

  /** `TestTruncatedDbName`: a 2500-byte name leaves the first 500 bytes of the full key. */
  lemma TruncatedDbNameScenario<S>(date: int, up: Option<Increment<S>>, down: Option<Increment<S>>)
    requires KeyTestSeconds * NanosPerSecond <= date < KeyTestSeconds * NanosPerSecond + NanosPerSecond
    ensures DbName(NewSimpleMigration(LongName(), date, up, down)) == ("1599648725_" + LongName())[..500]
  {
    var m := NewSimpleMigration(LongName(), date, up, down);
    UnixSecondsWithin(date, KeyTestSeconds);
    DigitsOfKeyTestSeconds();
    assert FullKey(m) == "1599648725_" + LongName();
  }

  /** The key of a runner-test migration named `name`. */
  lemma RunnerKey<S>(name: string, up: Option<Increment<S>>, down: Option<Increment<S>>)
    requires |name| <= MaxKeyLength - 11
    ensures DbName(NewSimpleMigration(name, RunnerTestSeconds * NanosPerSecond, up, down)) == "1599691380_" + name
  {
    UnixSecondsWithin(RunnerTestSeconds * NanosPerSecond, RunnerTestSeconds);
    DigitsOfRunnerTestSeconds();
  }

  /**
   * `TestSortMigrations`: "a", five seconds after "b", comes second.  The
   * sort is run on the list `[a, b]`.
   */
  method SortScenario<S>(now: int) returns (sorted: seq<SimpleMigration<S>>)
    ensures |sorted| == 2 && Name(sorted[0]) == "b" && Name(sorted[1]) == "a"
  {
    var a := NewSimpleMigration<S>("a", now + 5 * NanosPerSecond, None, None);
    var b := NewSimpleMigration<S>("b", now, None, None);
    sorted := SortMigrations([a, b]);
    assert sorted[0] in multiset([a, b]) && sorted[1] in multiset([a, b]);
    assert sorted[0] == b;
    assert multiset(sorted) - multiset{sorted[0]} == multiset{sorted[1]};
    assert multiset([a, b]) - multiset{b} == multiset{a};
  }

  /** A sorted permutation of one migration is that migration. */
  lemma SortedSingleton<S>(sorted: seq<SimpleMigration<S>>, m: SimpleMigration<S>)
    requires |sorted| == 1 && multiset(sorted) == multiset([m])
    ensures sorted == [m]
  {
    assert sorted[0] in multiset([m]);
  }

  /**
   * `TestMigrateUpN`: one migration "a" whose `Up` succeeds; the transaction
   * inserts "1599691380_a" and commits.
   */
  method MigrateUpNScenario<S>(db: Database<S>, create: Increment<S>, drv: Driver) returns (err: Option<string>)
    requires drv.begin.None? && drv.exec(0).None? && drv.commit.None?
    requires create(db.store.schema).Applied?
    modifies db
    ensures err.None?
    ensures db.store == Store(old(db.store.rows) + ["1599691380_a"], create(old(db.store.schema)).schema)
  {
    var a := NewSimpleMigration("a", RunnerTestSeconds * NanosPerSecond, Some(create), None);
    RunnerKey("a", Some(create), None);
    ghost var sorted;
    err, sorted := MigrateUpN(db, drv, [a], 1);
    SortedSingleton(sorted, a);
    assert TrackingKeys([a])[0] == "1599691380_a";
  }

  /**
   * `TestMigrateDownN`: one migration "a" whose `Down` succeeds; the
   * transaction deletes the rows "1599691380_a" and commits.
   */
  method MigrateDownNScenario<S>(db: Database<S>, drop: Increment<S>, drv: Driver) returns (err: Option<string>)
    requires drv.begin.None? && drv.exec(0).None? && drv.commit.None?
    requires drop(db.store.schema).Applied?
    modifies db
    ensures err.None?
    ensures db.store == Store(DeleteRows(old(db.store.rows), "1599691380_a"), drop(old(db.store.schema)).schema)
  {
    var a := NewSimpleMigration("a", RunnerTestSeconds * NanosPerSecond, None, Some(drop));
    RunnerKey("a", None, Some(drop));
    ghost var sorted;
    err, sorted := MigrateDownN(db, drv, [a], 1);
    SortedSingleton(sorted, a);
    assert TrackingKeys([a])[0] == "1599691380_a";
  }

  /**
   * `TestMigrate`: "a" is recorded already, so only "b" runs; its key is
   * inserted after the existing row and `a`'s increment is not called.
   */
  method MigrateScenario<S>(db: Database<S>, createA: Increment<S>, dropB: Increment<S>, drv: Driver)
    returns (err: Option<string>)
    requires db.store.rows == ["1599691380_a"]
    requires drv.createTable.None? && drv.query.None? && drv.begin.None? && drv.exec(0).None? && drv.commit.None?
    requires dropB(db.store.schema).Applied?
    modifies db
    ensures err.None?
    ensures db.store == Store(["1599691380_a", "1599691380_b"], dropB(old(db.store.schema)).schema)
  {
    var a := NewSimpleMigration("a", RunnerTestSeconds * NanosPerSecond, Some(createA), None);
    var b := NewSimpleMigration("b", RunnerTestSeconds * NanosPerSecond, Some(dropB), None);
    RunnerKey("a", Some(createA), None);
    RunnerKey("b", Some(dropB), None);
    OnlyBIsUnapplied(a, b);
    ghost var toRun, sorted;
    ghost var before := db.store;
    OnlyBCommits(before, b, drv);
    err, toRun, sorted := Migrate(db, drv, [a, b]);
    assert toRun == [b];
    SortedSingleton(sorted, b);
  }

  /**
   * `TestMigrateRollback`: the increment of "b" fails, so `Migrate` reports
   * an error naming "1599691380_b" and the committed state is untouched.
   */
  method MigrateRollbackScenario<S>(db: Database<S>, createA: Increment<S>, dropB: Increment<S>, drv: Driver)
    returns (err: Option<string>)
    requires db.store.rows == ["1599691380_a"]
    requires drv.createTable.None? && drv.query.None? && drv.begin.None?
    requires dropB(db.store.schema).Failed?
    modifies db
    ensures err == Some(UpError("1599691380_b", dropB(old(db.store.schema)).cause))
    ensures db.store == old(db.store)
  {
    var a := NewSimpleMigration("a", RunnerTestSeconds * NanosPerSecond, Some(createA), None);
    var b := NewSimpleMigration("b", RunnerTestSeconds * NanosPerSecond, Some(dropB), None);
    RunnerKey("a", Some(createA), None);
    RunnerKey("b", Some(dropB), None);
    OnlyBIsUnapplied(a, b);
    ghost var toRun, sorted;
    ghost var before := db.store;
    err, toRun, sorted := Migrate(db, drv, [a, b]);
    SortedSingleton(sorted, b);
    UpTransactionOfOne(before, b, drv);
  }

  /** An up transaction over one migration: its `Up` fails, or it inserts the key and commits. */
  lemma UpTransactionOfOne<S>(before: Store<S>, m: SimpleMigration<S>, drv: Driver)
    requires drv.begin.None?
    ensures Up(m, before.schema).Failed? ==>
      UpTransaction(before, [m], 1, drv) == Failure(UpError(DbName(m), Up(m, before.schema).cause))
    ensures Up(m, before.schema).Applied? && drv.exec(0).None? && drv.commit.None? ==>
      UpTransaction(before, [m], 1, drv) == Success(Store(before.rows + [DbName(m)], Up(m, before.schema).schema))
  {
    assert TrackingKeys([m])[0] == DbName(m);
  }

  /** The up transaction that runs only "b" over the row of "a" commits both keys. */
  lemma OnlyBCommits<S>(before: Store<S>, b: SimpleMigration<S>, drv: Driver)
    requires before.rows == ["1599691380_a"] && DbName(b) == "1599691380_b"
    requires Up(b, before.schema).Applied?
    requires drv.begin.None? && drv.exec(0).None? && drv.commit.None?
    ensures UpTransaction(before, [b], 1, drv)
         == Success(Store(["1599691380_a", "1599691380_b"], Up(b, before.schema).schema))
  {
    UpTransactionOfOne(before, b, drv);
    assert before.rows + [DbName(b)] == ["1599691380_a", "1599691380_b"];
  }

  /** Reconciling `[a, b]` against the row of `a` leaves `[b]`. */
  lemma OnlyBIsUnapplied<S>(a: SimpleMigration<S>, b: SimpleMigration<S>)
    requires DbName(a) == "1599691380_a" && DbName(b) == "1599691380_b"
    ensures Unapplied([a, b], AppliedSet(["1599691380_a"])) == [b]
  {
    var applied := AppliedSet(["1599691380_a"]);
    assert "1599691380_b"[11] != "1599691380_a"[11];
    assert DbName(a) in applied && DbName(b) !in applied;
    assert [a, b][..1] == [a] && [a][..0] == [];
    assert Unapplied([a], applied) == [];
  }

  /**
   * Running `Migrate` twice over the same list: once the first run has
   * committed, the second finds nothing to run and commits an empty
   * transaction, leaving the state as the first run left it.
   */
  method MigrateTwiceScenario<S>(db: Database<S>, drv: Driver, migs: seq<SimpleMigration<S>>)
    returns (first: Option<string>, second: Option<string>, ghost between: Store<S>)
    requires drv.createTable.None? && drv.query.None? && drv.begin.None? && drv.commit.None?
    modifies db
    ensures first.None? ==> Unapplied(migs, AppliedSet(between.rows)) == []
    ensures first.None? ==> second.None? && db.store == between
  {
    ghost var toRun, sorted;
    first, toRun, sorted := Migrate(db, drv, migs);
    between := db.store;
    second, toRun, sorted := Migrate(db, drv, migs);
    if first.None? {
      assert toRun == [] && sorted == [];
      assert UpTransaction(between, sorted, 0, drv) == Success(between);
    }
  }
}

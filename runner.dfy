/**
 * The transactional runner: `migrateUpN`, `migrateDownN`, `checkMigrationTable`
 * and `Migrate` in migrations.go and pgx/migrations.go.
 *
 * The database is an object holding the committed tracking table (one row
 * per applied key, duplicates allowed) and an opaque schema of type `S`.  A
 * transaction is a working copy of both: `Begin` takes the copy, `Commit`
 * publishes it and `Rollback` drops it.
 */
module Runner {
  import opened Wrappers
  import opened Simple
  import opened Keys
  import opened Ordering
  import opened Reconcile
  import opened Transactions

  class Database<S> {
    /** The committed state. */
    var store: Store<S>
    /** Whether `CREATE TABLE IF NOT EXISTS migrations` has succeeded. */
    var tableExists: bool

    constructor (schema: S)
      ensures store == Store([], schema) && !tableExists
    {
      store := Store([], schema);
      tableExists := false;
    }
  }

  // ---------------------------------------------------------------------
  // The operations

  /**
   * `migrateUpN`: begins a transaction, sorts `migs` by date and, for the
   * first `n` of them in ascending order, runs `Up` and inserts the key.  The
   * first failure rolls the transaction back; otherwise it is committed.
   * `sorted` is the order the sort produced.
   */
  method MigrateUpN<S>(db: Database<S>, drv: Driver, migs: seq<SimpleMigration<S>>, n: nat)
    returns (err: Option<string>, ghost sorted: seq<SimpleMigration<S>>)
    requires n <= |migs|
    modifies db
    ensures |sorted| == |migs|
    ensures drv.begin.None? ==> IsSortedPermutation(sorted, migs)
    ensures var r := UpTransaction(old(db.store), sorted, n, drv);
      err == ErrorOf(r) && db.store == Published(old(db.store), r)
    ensures db.tableExists == old(db.tableExists)
  {
    if drv.begin.Some? {
      err, sorted := drv.begin, migs;
      return;
    }
    var work := db.store;
    var order := SortMigrations(migs);
    sorted := order;
    ghost var keys := TrackingKeys(order);
    var i := 0;
    while i < n
      invariant 0 <= i <= n
      invariant db.store == old(db.store) && db.tableExists == old(db.tableExists)
      invariant UpSteps(order, keys, 0, n, db.store, drv.exec) == UpSteps(order, keys, i, n, work, drv.exec)
    {
      var name := DbName(order[i]);
      assert name == keys[i];
      var effect := Up(order[i], work.schema);
      if effect.Failed? {
        // tx.Rollback(): the working copy is dropped
        err := Some(UpError(name, effect.cause));
        return;
      }
      var insert := drv.exec(i);
      if insert.Some? {
        err := insert;
        return;
      }
      work := Store(work.rows + [name], effect.schema);
      i := i + 1;
    }
    if drv.commit.Some? {
      err := drv.commit;
      return;
    }
    db.store := work;
    err := None;
  }

  /**
   * `migrateDownN`: begins a transaction, sorts `migs` by date and, from the
   * last entry backwards over the last `n`, runs `Down` and deletes every row
   * equal to the key.  The first failure rolls back; otherwise it commits.
   */
  method MigrateDownN<S>(db: Database<S>, drv: Driver, migs: seq<SimpleMigration<S>>, n: nat)
    returns (err: Option<string>, ghost sorted: seq<SimpleMigration<S>>)
    requires n <= |migs|
    modifies db
    ensures |sorted| == |migs|
    ensures drv.begin.None? ==> IsSortedPermutation(sorted, migs)
    ensures var r := DownTransaction(old(db.store), sorted, n, drv);
      err == ErrorOf(r) && db.store == Published(old(db.store), r)
    ensures db.tableExists == old(db.tableExists)
  {
    if drv.begin.Some? {
      err, sorted := drv.begin, migs;
      return;
    }
    var work := db.store;
    var order := SortMigrations(migs);
    sorted := order;
    ghost var keys := TrackingKeys(order);
    var i := |order| - 1;
    while i > |order| - 1 - n
      invariant |order| - 1 - n <= i <= |order| - 1
      invariant db.store == old(db.store) && db.tableExists == old(db.tableExists)
      invariant DownSteps(order, keys, |order| - n, |order|, db.store, drv.exec)
             == DownSteps(order, keys, |order| - n, i + 1, work, drv.exec)
    {
      var name := DbName(order[i]);
      assert name == keys[i];
      DownStepsPeel(order, keys, |order| - n, i, work, drv.exec);
      var effect := Down(order[i], work.schema);
      if effect.Failed? {
        err := Some(DownError(name, effect.cause));
        return;
      }
      var delete := drv.exec(|order| - 1 - i);
      if delete.Some? {
        err := delete;
        return;
      }
      work := Store(DeleteRows(work.rows, name), effect.schema);
      i := i - 1;
    }
    if drv.commit.Some? {
      err := drv.commit;
      return;
    }
    db.store := work;
    err := None;
  }

  /** `checkMigrationTable`: creating the table when it exists already changes nothing. */
  method CheckMigrationTable<S>(db: Database<S>, drv: Driver) returns (err: Option<string>)
    modifies db`tableExists
    ensures err == drv.createTable
    ensures db.tableExists == (old(db.tableExists) || err.None?)
  {
    if drv.createTable.Some? {
      return drv.createTable;
    }
    db.tableExists := true;
    return None;
  }

  /**
   * `Migrate`: ensures the table, computes the unapplied migrations from the
   * committed rows and runs all of them up in one transaction.  `toRun` is
   * the work list and `sorted` the order it was applied in.
   */
  method Migrate<S>(db: Database<S>, drv: Driver, migs: seq<SimpleMigration<S>>)
    returns (err: Option<string>, ghost toRun: seq<SimpleMigration<S>>, ghost sorted: seq<SimpleMigration<S>>)
    modifies db
    ensures drv.createTable.Some? ==> err == drv.createTable && db.tableExists == old(db.tableExists)
    ensures drv.createTable.None? ==> db.tableExists
    ensures drv.createTable.None? && drv.query.Some? ==> err == drv.query
    ensures drv.createTable.None? && drv.query.None? ==>
      && toRun == Unapplied(migs, AppliedSet(old(db.store).rows))
      && |sorted| == |toRun|
      && (drv.begin.None? ==> IsSortedPermutation(sorted, toRun))
      && var r := UpTransaction(old(db.store), sorted, |toRun|, drv);
         err == ErrorOf(r) && db.store == Published(old(db.store), r)
    ensures err.Some? ==> db.store == old(db.store)
    ensures err.None? ==> Unapplied(migs, AppliedSet(db.store.rows)) == []
  {
    toRun, sorted := [], [];
    err := CheckMigrationTable(db, drv);
    if err.Some? {
      return;
    }
    var query := if drv.query.Some? then Failure(drv.query.value) else Success(db.store.rows);
    var pending := NeedsToRun(query, migs);
    if pending.Failure? {
      err := Some(pending.error);
      return;
    }
    var work := pending.value;
    toRun := work;
    ghost var before := db.store;
    err, sorted := MigrateUpN(db, drv, work, |work|);
    if err.None? {
      MigrateLeavesNothingUnapplied(migs, before, sorted, drv);
    }
  }
}

/**
 * The specification of one migration transaction, as functions over values:
 * the state a transaction works on, the answers of the database driver, and
 * the outcome of running the up or down steps of migrations.go and
 * pgx/migrations.go in order, stopping at the first failure.  The lemmas
 * below state what a run commits.
 */
module Transactions {
  import opened Wrappers
  import opened Simple
  import opened Keys
  import opened Ordering
  import opened Reconcile

  /** What a transaction reads and changes: the tracking rows and the schema. */
  datatype Store<S> = Store(rows: seq<string>, schema: S)

  /**
   * The answers of the database driver.  Each field is the error of one kind
   * of call, or `None` when that call succeeds; `exec(k)` answers the k-th
   * tracking-row statement (INSERT or DELETE) of a transaction, counting from 0.
   */
  datatype Driver = Driver(
    createTable: Option<string>,
    query: Option<string>,
    begin: Option<string>,
    exec: nat -> Option<string>,
    commit: Option<string>)

  /**
   * The tracking keys of `ms`, position by position.  The steps below take
   * them as a sequence, so that a step's key is `TrackingKeys(sorted)[i]`.
   */
  function TrackingKeys<S>(ms: seq<SimpleMigration<S>>): seq<string> {
    seq(|ms|, k requires 0 <= k < |ms| => DbName(ms[k]))
  }

  /** The set of the elements of `s`. */
  function Elems(s: seq<string>): (r: set<string>)
    ensures forall x :: x in r <==> x in s
  {
    set x | x in s
  }

  /** The rows of `rows` that are not in `keys`, in table order. */
  function Without(rows: seq<string>, keys: set<string>): (r: seq<string>)
    ensures |r| <= |rows|
  {
    if rows == [] then []
    else Without(rows[..|rows| - 1], keys) + (if rows[|rows| - 1] in keys then [] else [rows[|rows| - 1]])
  }

  /** A row survives `Without` exactly when it was there and its key is not removed. */
  lemma {:induction false} WithoutMembers(rows: seq<string>, keys: set<string>)
    ensures forall x :: x in Without(rows, keys) <==> x in rows && x !in keys
  {
    if rows != [] {
      WithoutMembers(rows[..|rows| - 1], keys);
      assert rows == rows[..|rows| - 1] + [rows[|rows| - 1]];
    }
  }

  /** `DELETE FROM migrations WHERE migration = key`: every equal row goes. */
  function DeleteRows(rows: seq<string>, key: string): (r: seq<string>)
    ensures |r| <= |rows|
  {
    Without(rows, {key})
  }

  /** After the delete, the table holds every row it held except those equal to `key`. */
  lemma DeleteRowsMembers(rows: seq<string>, key: string)
    ensures forall x :: x in DeleteRows(rows, key) <==> x in rows && x != key
  {
    WithoutMembers(rows, {key});
  }

  const UpErrorPrefix := "Failed to up "
  const DownErrorPrefix := "Failed to down "

  /** `fmt.Errorf("Failed to up %s: %s", name, err)`: the key sits right after the prefix. */
  function UpError(key: string, cause: string): (e: string)
    ensures |e| == |UpErrorPrefix| + |key| + 2 + |cause|
    ensures e[..|UpErrorPrefix|] == UpErrorPrefix
    ensures e[|UpErrorPrefix|..|UpErrorPrefix| + |key|] == key
    ensures e[|e| - |cause|..] == cause
  {
    UpErrorPrefix + key + ": " + cause
  }

  /** `fmt.Errorf("Failed to down %s: %s", name, err)`. */
  function DownError(key: string, cause: string): (e: string)
    ensures |e| == |DownErrorPrefix| + |key| + 2 + |cause|
    ensures e[..|DownErrorPrefix|] == DownErrorPrefix
    ensures e[|DownErrorPrefix|..|DownErrorPrefix| + |key|] == key
    ensures e[|e| - |cause|..] == cause
  {
    DownErrorPrefix + key + ": " + cause
  }

  /** The error of a finished transaction, Go's returned `error`. */
  function ErrorOf<T>(r: Result<T, string>): Option<string> {
    if r.Success? then None else Some(r.error)
  }

  /** What the database holds after a transaction: the new state on commit, the old one otherwise. */
  function Published<S>(before: Store<S>, r: Result<Store<S>, string>): Store<S> {
    if r.Success? then r.value else before
  }

  // ---------------------------------------------------------------------
  // Up direction

  /** Step `k` of `migrateUpN`: run `Up`, then insert `key`. */
  function UpStep<S>(m: SimpleMigration<S>, key: string, k: nat, w: Store<S>, exec: nat -> Option<string>)
    : (r: Result<Store<S>, string>)
    ensures r.Success? <==> Up(m, w.schema).Applied? && exec(k).None?
    ensures r.Success? ==> r.value == Store(w.rows + [key], Up(m, w.schema).schema)
    ensures Up(m, w.schema).Failed? ==> r == Failure(UpError(key, Up(m, w.schema).cause))
    ensures Up(m, w.schema).Applied? && exec(k).Some? ==> r == Failure(exec(k).value)
  {
    match Up(m, w.schema)
    case Failed(cause) => Failure(UpError(key, cause))
    case Applied(schema) =>
      match exec(k)
      case Some(e) => Failure(e)
      case None => Success(Store(w.rows + [key], schema))
  }

  /** Steps `i` up to `n` of `migrateUpN`, stopping at the first failure. */
  function UpSteps<S>(sorted: seq<SimpleMigration<S>>, keys: seq<string>, i: nat, n: nat, w: Store<S>,
                      exec: nat -> Option<string>): Result<Store<S>, string>
    requires i <= n <= |sorted| == |keys|
    decreases n - i
  {
    if i == n then Success(w)
    else
      match UpStep(sorted[i], keys[i], i, w, exec)
      case Failure(e) => Failure(e)
      case Success(w') => UpSteps(sorted, keys, i + 1, n, w', exec)
  }

  /** The whole up transaction over the sorted list: Begin, `n` steps, Commit. */
  function UpTransaction<S>(before: Store<S>, sorted: seq<SimpleMigration<S>>, n: nat, drv: Driver)
    : Result<Store<S>, string>
    requires n <= |sorted|
  {
    if drv.begin.Some? then Failure(drv.begin.value)
    else
      match UpSteps(sorted, TrackingKeys(sorted), 0, n, before, drv.exec)
      case Failure(e) => Failure(e)
      case Success(after) => if drv.commit.Some? then Failure(drv.commit.value) else Success(after)
  }

  // ---------------------------------------------------------------------
  // Down direction

  /** Step `k` of `migrateDownN`: run `Down`, then delete the rows equal to `key`. */
  function DownStep<S>(m: SimpleMigration<S>, key: string, k: nat, w: Store<S>, exec: nat -> Option<string>)
    : (r: Result<Store<S>, string>)
    ensures r.Success? <==> Down(m, w.schema).Applied? && exec(k).None?
    ensures r.Success? ==> r.value == Store(DeleteRows(w.rows, key), Down(m, w.schema).schema)
    ensures Down(m, w.schema).Failed? ==> r == Failure(DownError(key, Down(m, w.schema).cause))
    ensures Down(m, w.schema).Applied? && exec(k).Some? ==> r == Failure(exec(k).value)
  {
    match Down(m, w.schema)
    case Failed(cause) => Failure(DownError(key, cause))
    case Applied(schema) =>
      match exec(k)
      case Some(e) => Failure(e)
      case None => Success(Store(DeleteRows(w.rows, key), schema))
  }

  /** The down steps over indices `hi - 1` down to `lo`, stopping at the first failure. */
  function DownSteps<S>(sorted: seq<SimpleMigration<S>>, keys: seq<string>, lo: nat, hi: nat, w: Store<S>,
                        exec: nat -> Option<string>): Result<Store<S>, string>
    requires lo <= hi <= |sorted| == |keys|
    decreases hi - lo
  {
    if hi == lo then Success(w)
    else
      match DownStep(sorted[hi - 1], keys[hi - 1], |sorted| - hi, w, exec)
      case Failure(e) => Failure(e)
      case Success(w') => DownSteps(sorted, keys, lo, hi - 1, w', exec)
  }

  /** The whole down transaction: Begin, the last `n` entries from the end, Commit. */
  function DownTransaction<S>(before: Store<S>, sorted: seq<SimpleMigration<S>>, n: nat, drv: Driver)
    : Result<Store<S>, string>
    requires n <= |sorted|
  {
    if drv.begin.Some? then Failure(drv.begin.value)
    else
      match DownSteps(sorted, TrackingKeys(sorted), |sorted| - n, |sorted|, before, drv.exec)
      case Failure(e) => Failure(e)
      case Success(after) => if drv.commit.Some? then Failure(drv.commit.value) else Success(after)
  }

  // ---------------------------------------------------------------------
  // Tracking-table lemmas

  lemma {:induction false} WithoutAppend(x: seq<string>, y: seq<string>, keys: set<string>)
    ensures Without(x + y, keys) == Without(x, keys) + Without(y, keys)
    decreases |y|
  {
    if y == [] {
      assert x + y == x;
    } else {
      var y' := y[..|y| - 1];
      assert (x + y)[..|x + y| - 1] == x + y';
      WithoutAppend(x, y', keys);
    }
  }

  lemma {:induction false} WithoutUnion(rows: seq<string>, a: set<string>, b: set<string>)
    ensures Without(Without(rows, a), b) == Without(rows, a + b)
  {
    if rows != [] {
      var init, last := rows[..|rows| - 1], rows[|rows| - 1];
      WithoutUnion(init, a, b);
      WithoutAppend(Without(init, a), if last in a then [] else [last], b);
    }
  }

  /** Removing keys no row holds leaves the rows as they are. */
  lemma {:induction false} WithoutNothing(rows: seq<string>, keys: set<string>)
    requires forall r :: r in rows ==> r !in keys
    ensures Without(rows, keys) == rows
  {
    if rows != [] {
      WithoutNothing(rows[..|rows| - 1], keys);
    }
  }

  /** Removing every key the rows hold leaves nothing. */
  lemma WithoutEverything(rows: seq<string>, keys: set<string>)
    requires forall r :: r in rows ==> r in keys
    ensures Without(rows, keys) == []
  {
    WithoutMembers(rows, keys);
  }

  /** A migration's key is among the keys of every list that holds it. */
  lemma KeyOfMember<S>(m: SimpleMigration<S>, ms: seq<SimpleMigration<S>>)
    requires m in ms
    ensures DbName(m) in TrackingKeys(ms)
  {
    var j :| 0 <= j < |ms| && ms[j] == m;
    assert TrackingKeys(ms)[j] == DbName(m);
  }

  /** Two lists holding the same migrations have the same set of tracking keys. */
  lemma KeysOfPermutation<S>(a: seq<SimpleMigration<S>>, b: seq<SimpleMigration<S>>)
    requires multiset(a) == multiset(b)
    ensures Elems(TrackingKeys(a)) == Elems(TrackingKeys(b))
  {
    forall x | x in TrackingKeys(a) ensures x in TrackingKeys(b) {
      var k :| 0 <= k < |a| && TrackingKeys(a)[k] == x;
      assert a[k] in multiset(b);
      KeyOfMember(a[k], b);
    }
    forall x | x in TrackingKeys(b) ensures x in TrackingKeys(a) {
      var k :| 0 <= k < |b| && TrackingKeys(b)[k] == x;
      assert b[k] in multiset(a);
      KeyOfMember(b[k], a);
    }
  }

  /** The elements of a slice are its last element and the elements of the rest. */
  lemma ElemsLast(s: seq<string>, lo: nat, hi: nat)
    requires lo < hi <= |s|
    ensures Elems(s[lo..hi]) == {s[hi - 1]} + Elems(s[lo..hi - 1])
  {
    assert s[lo..hi] == s[lo..hi - 1] + [s[hi - 1]];
  }

  // ---------------------------------------------------------------------
  // Up lemmas

  /** Running steps `i` to `n` is running `i` to `k` and, if that succeeds, `k` to `n`. */
  lemma {:induction false} UpStepsSplit<S>(sorted: seq<SimpleMigration<S>>, keys: seq<string>,
                                           i: nat, k: nat, n: nat, w: Store<S>, exec: nat -> Option<string>)
    requires i <= k <= n <= |sorted| == |keys|
    ensures UpSteps(sorted, keys, i, n, w, exec) ==
      match UpSteps(sorted, keys, i, k, w, exec)
      case Failure(e) => Failure(e)
      case Success(wk) => UpSteps(sorted, keys, k, n, wk, exec)
    decreases k - i
  {
    if i < k {
      match UpStep(sorted[i], keys[i], i, w, exec)
      case Failure(e) =>
      case Success(w') => UpStepsSplit(sorted, keys, i + 1, k, n, w', exec);
    }
  }

  /** Successful steps append `keys[i..n]` to the rows, in ascending order. */
  lemma {:induction false} UpStepsAppendKeys<S>(sorted: seq<SimpleMigration<S>>, keys: seq<string>,
                                                i: nat, n: nat, w: Store<S>, exec: nat -> Option<string>)
    requires i <= n <= |sorted| == |keys|
    requires UpSteps(sorted, keys, i, n, w, exec).Success?
    ensures UpSteps(sorted, keys, i, n, w, exec).value.rows == w.rows + keys[i..n]
    decreases n - i
  {
    if i < n {
      var w' := UpStep(sorted[i], keys[i], i, w, exec).value;
      assert UpSteps(sorted, keys, i, n, w, exec) == UpSteps(sorted, keys, i + 1, n, w', exec)
          && w'.rows == w.rows + [keys[i]];
      UpStepsAppendKeys(sorted, keys, i + 1, n, w', exec);
      assert keys[i..n] == [keys[i]] + keys[i + 1..n];
    }
  }

  /**
   * Once step `k` fails, the run fails with that step's error: no later
   * `Up` and no later insert has any effect.
   */
  lemma UpStopsAtFirstFailure<S>(sorted: seq<SimpleMigration<S>>, keys: seq<string>, n: nat, w: Store<S>,
                                 exec: nat -> Option<string>, k: nat)
    requires k < n <= |sorted| == |keys|
    requires UpSteps(sorted, keys, 0, k, w, exec).Success?
    requires UpStep(sorted[k], keys[k], k, UpSteps(sorted, keys, 0, k, w, exec).value, exec).Failure?
    ensures UpSteps(sorted, keys, 0, n, w, exec) ==
      UpStep(sorted[k], keys[k], k, UpSteps(sorted, keys, 0, k, w, exec).value, exec)
  {
    UpStepsSplit(sorted, keys, 0, k, n, w, exec);
  }

  /** A failed run has a first failing step, and reports exactly that step's error. */
  lemma {:induction false} UpFailureHasFirstFailingStep<S>(sorted: seq<SimpleMigration<S>>, keys: seq<string>,
                                                           n: nat, w: Store<S>, exec: nat -> Option<string>)
    requires n <= |sorted| == |keys|
    requires UpSteps(sorted, keys, 0, n, w, exec).Failure?
    ensures exists k :: (0 <= k < n && UpSteps(sorted, keys, 0, k, w, exec).Success? &&
      UpStep(sorted[k], keys[k], k, UpSteps(sorted, keys, 0, k, w, exec).value, exec) ==
        UpSteps(sorted, keys, 0, n, w, exec))
  {
    UpStepsSplit(sorted, keys, 0, n - 1, n, w, exec);
    if UpSteps(sorted, keys, 0, n - 1, w, exec).Failure? {
      UpFailureHasFirstFailingStep(sorted, keys, n - 1, w, exec);
    } else {
      var k := n - 1;
      assert UpSteps(sorted, keys, 0, k, w, exec).Success?;
    }
  }

  /** A run succeeds exactly when each step succeeds on the state the steps before it left. */
  lemma UpStepsSucceedIff<S>(sorted: seq<SimpleMigration<S>>, keys: seq<string>, n: nat, w: Store<S>,
                             exec: nat -> Option<string>)
    requires n <= |sorted| == |keys|
    ensures UpSteps(sorted, keys, 0, n, w, exec).Success? <==>
      forall k :: 0 <= k < n ==> (UpSteps(sorted, keys, 0, k, w, exec).Success? &&
        UpStep(sorted[k], keys[k], k, UpSteps(sorted, keys, 0, k, w, exec).value, exec).Success?)
  {
    if UpSteps(sorted, keys, 0, n, w, exec).Success? {
      forall k | 0 <= k < n
        ensures UpSteps(sorted, keys, 0, k, w, exec).Success? &&
          UpStep(sorted[k], keys[k], k, UpSteps(sorted, keys, 0, k, w, exec).value, exec).Success?
      {
        UpStepsSplit(sorted, keys, 0, k, n, w, exec);
      }
    } else {
      UpFailureHasFirstFailingStep(sorted, keys, n, w, exec);
    }
  }

  /** A committed up transaction is its steps: Begin and Commit added nothing. */
  lemma UpTransactionSteps<S>(before: Store<S>, sorted: seq<SimpleMigration<S>>, n: nat, drv: Driver)
    requires n <= |sorted|
    requires UpTransaction(before, sorted, n, drv).Success?
    ensures drv.begin.None? && drv.commit.None?
    ensures UpTransaction(before, sorted, n, drv) == UpSteps(sorted, TrackingKeys(sorted), 0, n, before, drv.exec)
  {
  }

  /**
   * A committed up transaction appended exactly the keys of `sorted[..n]`, in
   * ascending order, each short enough for the tracking column.
   */
  lemma UpTransactionCommits<S>(before: Store<S>, sorted: seq<SimpleMigration<S>>, n: nat, drv: Driver)
    requires n <= |sorted|
    requires UpTransaction(before, sorted, n, drv).Success?
    ensures drv.begin.None? && drv.commit.None?
    ensures UpTransaction(before, sorted, n, drv).value.rows == before.rows + TrackingKeys(sorted)[0..n]
    ensures forall r :: r in TrackingKeys(sorted)[0..n] ==> |r| <= MaxKeyLength
  {
    UpTransactionSteps(before, sorted, n, drv);
    UpStepsAppendKeys(sorted, TrackingKeys(sorted), 0, n, before, drv.exec);
  }

  // ---------------------------------------------------------------------
  // Down lemmas

  /** Running the down steps from `hi` to `lo` is running `hi` to `k` and then `k` to `lo`. */
  lemma {:induction false} DownStepsSplit<S>(sorted: seq<SimpleMigration<S>>, keys: seq<string>,
                                             lo: nat, k: nat, hi: nat, w: Store<S>, exec: nat -> Option<string>)
    requires lo <= k <= hi <= |sorted| == |keys|
    ensures DownSteps(sorted, keys, lo, hi, w, exec) ==
      match DownSteps(sorted, keys, k, hi, w, exec)
      case Failure(e) => Failure(e)
      case Success(wk) => DownSteps(sorted, keys, lo, k, wk, exec)
    decreases hi - k
  {
    if k < hi {
      var step := DownStep(sorted[hi - 1], keys[hi - 1], |sorted| - hi, w, exec);
      if step.Success? {
        assert DownSteps(sorted, keys, lo, hi, w, exec) == DownSteps(sorted, keys, lo, hi - 1, step.value, exec);
        assert DownSteps(sorted, keys, k, hi, w, exec) == DownSteps(sorted, keys, k, hi - 1, step.value, exec);
        DownStepsSplit(sorted, keys, lo, k, hi - 1, step.value, exec);
      } else {
        assert DownSteps(sorted, keys, lo, hi, w, exec) == Failure(step.error);
        assert DownSteps(sorted, keys, k, hi, w, exec) == Failure(step.error);
      }
    }
  }

  /** The down run over `lo..i + 1` starts with the step at index `i`. */
  lemma DownStepsPeel<S>(sorted: seq<SimpleMigration<S>>, keys: seq<string>, lo: int, i: int, w: Store<S>,
                         exec: nat -> Option<string>)
    requires 0 <= lo <= i < |sorted| == |keys|
    ensures Down(sorted[i], w.schema).Failed? ==>
      DownSteps(sorted, keys, lo, i + 1, w, exec) == Failure(DownError(keys[i], Down(sorted[i], w.schema).cause))
    ensures Down(sorted[i], w.schema).Applied? && exec(|sorted| - 1 - i).Some? ==>
      DownSteps(sorted, keys, lo, i + 1, w, exec) == Failure(exec(|sorted| - 1 - i).value)
    ensures Down(sorted[i], w.schema).Applied? && exec(|sorted| - 1 - i).None? ==>
      DownSteps(sorted, keys, lo, i + 1, w, exec)
      == DownSteps(sorted, keys, lo, i, Store(DeleteRows(w.rows, keys[i]), Down(sorted[i], w.schema).schema), exec)
  {
  }

  /**
   * Once the step at index `k` fails, the down run fails with that step's
   * error: the entries below `k` are never visited.
   */
  lemma DownStopsAtFirstFailure<S>(sorted: seq<SimpleMigration<S>>, keys: seq<string>, lo: nat, w: Store<S>,
                                   exec: nat -> Option<string>, k: nat)
    requires lo <= k < |sorted| == |keys|
    requires DownSteps(sorted, keys, k + 1, |sorted|, w, exec).Success?
    requires DownStep(sorted[k], keys[k], |sorted| - 1 - k,
                      DownSteps(sorted, keys, k + 1, |sorted|, w, exec).value, exec).Failure?
    ensures DownSteps(sorted, keys, lo, |sorted|, w, exec) ==
      DownStep(sorted[k], keys[k], |sorted| - 1 - k, DownSteps(sorted, keys, k + 1, |sorted|, w, exec).value, exec)
  {
    DownStepsSplit(sorted, keys, lo, k + 1, |sorted|, w, exec);
  }

  /** Successful down steps delete every row equal to one of `keys[lo..hi]`, and only those. */
  lemma {:induction false} DownStepsRemoveKeys<S>(sorted: seq<SimpleMigration<S>>, keys: seq<string>,
                                                  lo: nat, hi: nat, w: Store<S>, exec: nat -> Option<string>)
    requires lo <= hi <= |sorted| == |keys|
    requires DownSteps(sorted, keys, lo, hi, w, exec).Success?
    ensures DownSteps(sorted, keys, lo, hi, w, exec).value.rows == Without(w.rows, Elems(keys[lo..hi]))
    decreases hi - lo
  {
    if lo == hi {
      WithoutNothing(w.rows, Elems(keys[lo..hi]));
    } else {
      var key := keys[hi - 1];
      var step := DownStep(sorted[hi - 1], key, |sorted| - hi, w, exec);
      assert step.Success?;
      var w' := step.value;
      assert DownSteps(sorted, keys, lo, hi, w, exec) == DownSteps(sorted, keys, lo, hi - 1, w', exec);
      DownStepsRemoveKeys(sorted, keys, lo, hi - 1, w', exec);
      assert w'.rows == Without(w.rows, {key});
      WithoutUnion(w.rows, {key}, Elems(keys[lo..hi - 1]));
      ElemsLast(keys, lo, hi);
    }
  }

  /** A committed down transaction is its steps: Begin and Commit added nothing. */
  lemma DownTransactionSteps<S>(before: Store<S>, sorted: seq<SimpleMigration<S>>, n: nat, drv: Driver)
    requires n <= |sorted|
    requires DownTransaction(before, sorted, n, drv).Success?
    ensures drv.begin.None? && drv.commit.None?
    ensures DownTransaction(before, sorted, n, drv) ==
      DownSteps(sorted, TrackingKeys(sorted), |sorted| - n, |sorted|, before, drv.exec)
  {
  }

  /** A committed down transaction removed exactly the rows holding a key of the last `n` entries. */
  lemma DownTransactionCommits<S>(before: Store<S>, sorted: seq<SimpleMigration<S>>, n: nat, drv: Driver)
    requires n <= |sorted|
    requires DownTransaction(before, sorted, n, drv).Success?
    ensures drv.begin.None? && drv.commit.None?
    ensures DownTransaction(before, sorted, n, drv).value.rows ==
      Without(before.rows, Elems(TrackingKeys(sorted)[|sorted| - n..|sorted|]))
  {
    DownTransactionSteps(before, sorted, n, drv);
    DownStepsRemoveKeys(sorted, TrackingKeys(sorted), |sorted| - n, |sorted|, before, drv.exec);
  }

  /**
   * Down undoes up on the tracking table: applying every migration and then
   * reverting every one (in either sort order) restores the rows, provided
   * none of their keys was recorded before.
   */
  lemma UpThenDownRestoresRows<S>(before: Store<S>, up: seq<SimpleMigration<S>>, d1: Driver, mid: Store<S>,
                                  down: seq<SimpleMigration<S>>, d2: Driver, after: Store<S>)
    requires |up| == |down| && multiset(up) == multiset(down)
    requires forall r :: r in before.rows ==> r !in TrackingKeys(up)
    requires UpTransaction(before, up, |up|, d1) == Success(mid)
    requires DownTransaction(mid, down, |down|, d2) == Success(after)
    ensures after.rows == before.rows
  {
    UpAllAppends(before, up, d1, mid);
    DownAllRemoves(mid, down, d2, after);
    KeysOfPermutation(up, down);
    RemovingAppendedRestores(before.rows, TrackingKeys(up), Elems(TrackingKeys(down)));
  }

  /** Running every migration up appends all their keys. */
  lemma UpAllAppends<S>(before: Store<S>, up: seq<SimpleMigration<S>>, d1: Driver, mid: Store<S>)
    requires UpTransaction(before, up, |up|, d1) == Success(mid)
    ensures mid.rows == before.rows + TrackingKeys(up)
  {
    UpTransactionCommits(before, up, |up|, d1);
    assert TrackingKeys(up)[0..|up|] == TrackingKeys(up);
  }

  /** Running every migration down deletes the rows holding any of their keys. */
  lemma DownAllRemoves<S>(mid: Store<S>, down: seq<SimpleMigration<S>>, d2: Driver, after: Store<S>)
    requires DownTransaction(mid, down, |down|, d2) == Success(after)
    ensures after.rows == Without(mid.rows, Elems(TrackingKeys(down)))
  {
    DownTransactionCommits(mid, down, |down|, d2);
    assert TrackingKeys(down)[|down| - |down|..|down|] == TrackingKeys(down);
  }

  /** Deleting exactly the appended keys, none of which was there before, restores the rows. */
  lemma RemovingAppendedRestores(rows: seq<string>, added: seq<string>, keys: set<string>)
    requires forall r :: r in rows ==> r !in keys
    requires forall x :: x in added ==> x in keys
    ensures Without(rows + added, keys) == rows
  {
    WithoutAppend(rows, added, keys);
    WithoutNothing(rows, keys);
    WithoutEverything(added, keys);
    assert rows + [] == rows;
  }

  // ---------------------------------------------------------------------
  // Migrate

  /**
   * After a committed run of every unapplied migration, reconciling the same
   * list against the new rows finds nothing left to run.
   */
  lemma MigrateLeavesNothingUnapplied<S>(migs: seq<SimpleMigration<S>>, before: Store<S>,
                                         sorted: seq<SimpleMigration<S>>, drv: Driver)
    requires multiset(sorted) == multiset(Unapplied(migs, AppliedSet(before.rows)))
    requires UpTransaction(before, sorted, |sorted|, drv).Success?
    ensures Unapplied(migs, AppliedSet(UpTransaction(before, sorted, |sorted|, drv).value.rows)) == []
  {
    var toRun := Unapplied(migs, AppliedSet(before.rows));
    var after := UpTransaction(before, sorted, |sorted|, drv).value;
    UpAllAppends(before, sorted, drv, after);
    UnappliedCharacterization(migs, AppliedSet(before.rows));
    forall m | m in migs ensures DbName(m) in AppliedSet(after.rows) {
      if DbName(m) !in AppliedSet(before.rows) {
        assert m in toRun;
        assert m in multiset(sorted);
        var k :| 0 <= k < |sorted| && sorted[k] == m;
        assert TrackingKeys(sorted)[k] == DbName(m);
      }
    }
    UnappliedEmpty(migs, AppliedSet(after.rows));
  }
}

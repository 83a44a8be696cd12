/**
 * Date ordering: `MigrationList.Less` and `sortMigrations` in migrations.go
 * and pgx/migrations.go.  The Go code copies the caller's slice and hands the
 * copy to `sort.Sort`, which swaps elements in place; `sort.Sort` is not
 * stable, so only "sorted by date and a permutation" is promised.
 */
module Ordering {
  import opened Simple

  /** `time.Time.Before`, on nanosecond timestamps. */
  predicate Before(a: int, b: int) {
    a < b
  }

  /** `MigrationList.Less`: element `i` was created strictly before element `j`. */
  predicate Less<S>(ml: seq<SimpleMigration<S>>, i: nat, j: nat)
    requires i < |ml| && j < |ml|
  {
    Before(Date(ml[i]), Date(ml[j]))
  }

  /** No migration is dated strictly before one that comes earlier in `s`. */
  ghost predicate SortedByDate<S>(s: seq<SimpleMigration<S>>) {
    forall i, j :: 0 <= i < j < |s| ==> !Before(Date(s[j]), Date(s[i]))
  }

  /** `sorted` is a date-ordered rearrangement of `migs`. */
  ghost predicate IsSortedPermutation<S>(sorted: seq<SimpleMigration<S>>, migs: seq<SimpleMigration<S>>) {
    |sorted| == |migs| && multiset(sorted) == multiset(migs) && SortedByDate(sorted)
  }

  /** `MigrationList.Swap`: exchanges two elements and keeps the rest. */
  method Swap<S>(a: array<SimpleMigration<S>>, i: nat, j: nat)
    requires i < a.Length && j < a.Length
    modifies a
    ensures a[i] == old(a[j]) && a[j] == old(a[i])
    ensures forall k :: 0 <= k < a.Length && k != i && k != j ==> a[k] == old(a[k])
    ensures multiset(a[..]) == old(multiset(a[..]))
  {
    a[i], a[j] := a[j], a[i];
  }

  /**
   * One insertion step: with `a[..i]` already ordered, moves `a[i]` left past
   * every element dated strictly after it.
   */
  method InsertAt<S>(a: array<SimpleMigration<S>>, i: nat)
    requires i < a.Length
    requires SortedByDate(a[..i])
    modifies a
    ensures SortedByDate(a[..i + 1])
    ensures multiset(a[..]) == old(multiset(a[..]))
    ensures a[i + 1..] == old(a[i + 1..])
  {
    var j := i;
    while j > 0 && Less(a[..], j, j - 1)
      invariant 0 <= j <= i
      invariant multiset(a[..]) == old(multiset(a[..]))
      invariant a[i + 1..] == old(a[i + 1..])
      invariant forall p, q :: 0 <= p < q <= i && p != j && q != j ==> Date(a[p]) <= Date(a[q])
      invariant forall q :: j < q <= i ==> Date(a[j]) < Date(a[q])
    {
      Swap(a, j - 1, j);
      j := j - 1;
    }
  }

  /**
   * Copies `migs` into a fresh array and sorts the copy in place, so the
   * caller's list is left as it was.  Which of two equally dated migrations
   * comes first is not specified.
   */
  method SortMigrations<S>(migs: seq<SimpleMigration<S>>) returns (sorted: seq<SimpleMigration<S>>)
    ensures |sorted| == |migs|
    ensures multiset(sorted) == multiset(migs)
    ensures SortedByDate(sorted)
  {
    var a := new SimpleMigration<S>[|migs|](k requires 0 <= k < |migs| => migs[k]);
    assert a[..] == migs;
    var i := 0;
    while i < a.Length
      invariant 0 <= i <= a.Length
      invariant multiset(a[..]) == multiset(migs)
      invariant SortedByDate(a[..i])
    {
      InsertAt(a, i);
      i := i + 1;
    }
    assert a[..a.Length] == a[..];
    sorted := a[..];
  }
}

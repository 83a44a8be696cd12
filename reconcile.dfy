/**
 * Reconciliation: `needsToRun` in migrations.go and pgx/migrations.go.  The
 * applied keys are read into a set, and the migrations whose key is not in
 * it are kept, in the order the caller gave them.
 */
module Reconcile {
  import opened Wrappers
  import opened Simple
  import opened Keys

  /** The set of keys among the rows read from the tracking table. */
  function AppliedSet(rows: seq<string>): (applied: set<string>)
    ensures forall k :: k in applied <==> k in rows
  {
    set k | k in rows
  }

  /** The migrations of `migs` whose tracking key is not in `applied`, in input order. */
  function Unapplied<S>(migs: seq<SimpleMigration<S>>, applied: set<string>): seq<SimpleMigration<S>>
  {
    if migs == [] then []
    else
      var last := migs[|migs| - 1];
      Unapplied(migs[..|migs| - 1], applied) + (if DbName(last) in applied then [] else [last])
  }

  /** `r` keeps some of the elements of `s`, in their order in `s`. */
  ghost predicate IsSubsequence<T>(r: seq<T>, s: seq<T>)
  {
    if r == [] then true
    else if s == [] then false
    else if r[|r| - 1] == s[|s| - 1] && IsSubsequence(r[..|r| - 1], s[..|s| - 1]) then true
    else IsSubsequence(r, s[..|s| - 1])
  }

  /** Exactly the unapplied migrations are kept, each in input order. */
  lemma {:induction false} UnappliedCharacterization<S>(migs: seq<SimpleMigration<S>>, applied: set<string>)
    ensures IsSubsequence(Unapplied(migs, applied), migs)
    ensures forall m :: m in Unapplied(migs, applied) <==> m in migs && DbName(m) !in applied
  {
    if migs != [] {
      var init, last := migs[..|migs| - 1], migs[|migs| - 1];
      assert migs == init + [last];
      UnappliedCharacterization(init, applied);
      var r := Unapplied(migs, applied);
      if DbName(last) in applied {
        assert r == Unapplied(init, applied);
        SubsequenceExtend(r, init, last);
      } else {
        assert r[..|r| - 1] == Unapplied(init, applied);
      }
    }
  }

  /** Each unapplied migration is kept as many times as the input holds it; applied ones not at all. */
  lemma {:induction false} UnappliedCounts<S>(migs: seq<SimpleMigration<S>>, applied: set<string>)
    ensures forall m :: multiset(Unapplied(migs, applied))[m] == if DbName(m) in applied then 0 else multiset(migs)[m]
  {
    if migs != [] {
      var init, last := migs[..|migs| - 1], migs[|migs| - 1];
      assert migs == init + [last];
      UnappliedCounts(init, applied);
      assert multiset(migs) == multiset(init) + multiset{last};
    }
  }

  lemma {:induction false} SubsequenceExtend<T>(r: seq<T>, s: seq<T>, x: T)
    requires IsSubsequence(r, s)
    ensures IsSubsequence(r, s + [x])
  {
    if r != [] {
      assert (s + [x])[..|s|] == s;
    }
  }

  /** Every migration whose key is applied drops out: the list is empty. */
  lemma {:induction false} UnappliedEmpty<S>(migs: seq<SimpleMigration<S>>, applied: set<string>)
    requires forall m :: m in migs ==> DbName(m) in applied
    ensures Unapplied(migs, applied) == []
  {
    if migs != [] {
      UnappliedEmpty(migs[..|migs| - 1], applied);
    }
  }

  /** Reconciling again against the same applied set removes nothing more. */
  lemma {:induction false} UnappliedIdempotent<S>(migs: seq<SimpleMigration<S>>, applied: set<string>)
    ensures Unapplied(Unapplied(migs, applied), applied) == Unapplied(migs, applied)
  {
    if migs != [] {
      var init, last := migs[..|migs| - 1], migs[|migs| - 1];
      UnappliedIdempotent(init, applied);
      var r := Unapplied(init, applied);
      if DbName(last) in applied {
        assert Unapplied(migs, applied) == r;
      } else {
        var r' := r + [last];
        assert Unapplied(migs, applied) == r';
        assert r'[..|r'| - 1] == r && r'[|r'| - 1] == last;
      }
    }
  }

  /**
   * `needsToRun`: when the `SELECT` failed its error is returned and nothing
   * is computed; otherwise every row is put into the `hasRun` map and the
   * migrations whose key is missing from it are appended to `toRun`.
   * `query` is what the `SELECT` of the tracking table produced.
   */
  method NeedsToRun<S>(query: Result<seq<string>, string>, migs: seq<SimpleMigration<S>>)
    returns (r: Result<seq<SimpleMigration<S>>, string>)
    ensures query.Failure? ==> r == Failure(query.error)
    ensures query.Success? ==> r == Success(Unapplied(migs, AppliedSet(query.value)))
  {
    if query.Failure? {
      return Failure(query.error);
    }
    var rows := query.value;
    var hasRun: map<string, bool> := map[];
    var i := 0;
    while i < |rows|
      invariant 0 <= i <= |rows|
      invariant hasRun.Keys == AppliedSet(rows[..i])
    {
      assert rows[..i + 1] == rows[..i] + [rows[i]];
      hasRun := hasRun[rows[i] := true];
      i := i + 1;
    }
    assert rows[..i] == rows;
    var toRun: seq<SimpleMigration<S>> := [];
    var k := 0;
    while k < |migs|
      invariant 0 <= k <= |migs|
      invariant toRun == Unapplied(migs[..k], hasRun.Keys)
    {
      ghost var prefix := migs[..k + 1];
      assert prefix[..|prefix| - 1] == migs[..k] && prefix[|prefix| - 1] == migs[k];
      var name := DbName(migs[k]);
      if name !in hasRun {
        toRun := toRun + [migs[k]];
      }
      k := k + 1;
    }
    assert migs[..k] == migs;
    return Success(toRun);
  }
}

/**
 Sums over the keys of sparse mappings. A Python `for k in d` loop visits the
 keys in insertion order; these sums pick keys in no particular order, and
 `SumOverRemove` shows that the order does not change the total, so a loop
 that removes any key it likes from the keys still to visit computes them.
 */
module Sums {
  import opened SparseMaps

  /** The sum of the values of `m` (read with zero default) over the keys `ks`. */
  ghost function SumOver(m: SparseMap, ks: set<Key>): real
    decreases ks
  {
    if ks == {} then 0.0
    else
      var k :| k in ks;
      Get(m, k) + SumOver(m, ks - {k})
  }

  /** Any key may be taken out first: the sum is that value plus the sum of the rest. */
  lemma {:induction false} SumOverRemove(m: SparseMap, ks: set<Key>, k: Key)
    requires k in ks
    ensures SumOver(m, ks) == Get(m, k) + SumOver(m, ks - {k})
    decreases ks
  {
    var j :| j in ks && SumOver(m, ks) == Get(m, j) + SumOver(m, ks - {j});
    if j != k {
      SumOverRemove(m, ks - {j}, k);
      SumOverRemove(m, ks - {k}, j);
      assert ks - {j} - {k} == ks - {k} - {j};
    }
  }

  /** One step of a loop that accumulates `SumOver(m, ks)` while removing
      keys from `rest`: adding the value `t` at `k` to `acc` gives `acc'`,
      which balances the keys left after `k`. */
  lemma SumOverStep(m: SparseMap, ks: set<Key>, rest: set<Key>, k: Key, acc: real, t: real, acc': real)
    requires k in rest && Get(m, k) == t && acc' == acc + t
    requires acc + SumOver(m, rest) == SumOver(m, ks)
    ensures acc' + SumOver(m, rest - {k}) == SumOver(m, ks)
  {
    SumOverRemove(m, rest, k);
  }

  /** A sum of non-negative values is non-negative, and it is zero exactly
      when every value summed is zero. */
  lemma {:induction false} SumOverZeroIff(m: SparseMap, ks: set<Key>)
    requires forall k :: k in ks ==> Get(m, k) >= 0.0
    ensures SumOver(m, ks) >= 0.0
    ensures SumOver(m, ks) == 0.0 <==> forall k :: k in ks ==> Get(m, k) == 0.0
    decreases ks
  {
    if ks != {} {
      var j :| j in ks;
      SumOverRemove(m, ks, j);
      SumOverZeroIff(m, ks - {j});
    }
  }

  /** The sum of all the values of all the mappings of `ms`. */
  ghost function Total(ms: seq<SparseMap>): real
  {
    if ms == [] then 0.0
    else Total(ms[..|ms| - 1]) + SumOver(ms[|ms| - 1], ms[|ms| - 1].Keys)
  }

  /** Adding one more mapping adds the sum of its values. */
  lemma TotalSnoc(ms: seq<SparseMap>, i: nat)
    requires i < |ms|
    ensures Total(ms[..i + 1]) == Total(ms[..i]) + SumOver(ms[i], ms[i].Keys)
  {
    assert ms[..i + 1][..i] == ms[..i];
  }

  /** A total of non-negative values is non-negative, and it is zero exactly
      when every value of every mapping is zero. */
  lemma {:induction false} TotalZeroIff(ms: seq<SparseMap>)
    requires forall i, k :: 0 <= i < |ms| && k in ms[i] ==> ms[i][k] >= 0.0
    ensures Total(ms) >= 0.0
    ensures Total(ms) == 0.0 <==> forall i, k :: 0 <= i < |ms| && k in ms[i] ==> ms[i][k] == 0.0
  {
    if ms != [] {
      var n := |ms| - 1;
      var init := ms[..n];
      TotalZeroIff(init);
      SumOverZeroIff(ms[n], ms[n].Keys);
      assert forall i, k :: 0 <= i < n && k in init[i] ==> init[i][k] == ms[i][k];
    }
  }
}

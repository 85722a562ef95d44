/** Sums of the integer values of a map, the model of `Array.from(m.values())
    .reduce((a, b) => a + b, 0)` over a JavaScript Map. Map iteration order
    does not matter for a sum, which SumOverRemove makes precise. */
module Tally {

  /** The sum of m's values over the keys in ks. */
  ghost function SumOver<K>(m: map<K, int>, ks: set<K>): int
    requires ks <= m.Keys
    decreases |ks|
  {
    if ks == {} then 0 else var k :| k in ks; m[k] + SumOver(m, ks - {k})
  }

  ghost function Sum<K>(m: map<K, int>): int {
    SumOver(m, m.Keys)
  }

  /** Any key may be taken out first: the sum does not depend on the order in
      which the values are visited. */
  lemma {:induction false} SumOverRemove<K>(m: map<K, int>, ks: set<K>, k: K)
    requires ks <= m.Keys && k in ks
    ensures SumOver(m, ks) == m[k] + SumOver(m, ks - {k})
    decreases |ks|
  {
    var j :| j in ks && SumOver(m, ks) == m[j] + SumOver(m, ks - {j});
    if j != k {
      SumOverRemove(m, ks - {j}, k);
      SumOverRemove(m, ks - {k}, j);
      assert ks - {j} - {k} == ks - {k} - {j};
    }
  }

  /** The sum only reads the values of the keys it ranges over. */
  lemma {:induction false} SumOverAgree<K>(m1: map<K, int>, m2: map<K, int>, ks: set<K>)
    requires ks <= m1.Keys && ks <= m2.Keys
    requires forall k :: k in ks ==> m1[k] == m2[k]
    ensures SumOver(m1, ks) == SumOver(m2, ks)
    decreases |ks|
  {
    if ks != {} {
      var k :| k in ks;
      SumOverRemove(m1, ks, k);
      SumOverRemove(m2, ks, k);
      SumOverAgree(m1, m2, ks - {k});
    }
  }

  /** Setting one key to v changes the sum by v minus the key's old value
      (an absent key counts as 0). */
  lemma SumUpdate<K>(m: map<K, int>, k: K, v: int)
    ensures Sum(m[k := v]) == Sum(m) - (if k in m then m[k] else 0) + v
  {
    var m' := m[k := v];
    SumOverRemove(m', m'.Keys, k);
    SumOverAgree(m, m', m.Keys - {k});
    if k in m {
      SumOverRemove(m, m.Keys, k);
      assert m'.Keys - {k} == m.Keys - {k};
    } else {
      assert m'.Keys - {k} == m.Keys == m.Keys - {k};
    }
  }

  /** Removing a key whose value is 0 leaves the sum unchanged. */
  lemma SumRemoveZero<K>(m: map<K, int>, k: K)
    requires k in m && m[k] == 0
    ensures Sum(m - {k}) == Sum(m)
  {
    SumOverRemove(m, m.Keys, k);
    SumOverAgree(m, m - {k}, m.Keys - {k});
    assert (m - {k}).Keys == m.Keys - {k};
  }

  /** When every value is at least `low`, the sum is at least low times the
      number of keys. */
  lemma {:induction false} SumOverAtLeast<K>(m: map<K, int>, ks: set<K>, low: int)
    requires ks <= m.Keys
    requires forall k :: k in ks ==> m[k] >= low
    ensures SumOver(m, ks) >= low * |ks|
    decreases |ks|
  {
    if ks != {} {
      var k :| k in ks;
      SumOverRemove(m, ks, k);
      SumOverAtLeast(m, ks - {k}, low);
    }
  }

  /** A sum of non-negative values is zero exactly when every value is. */
  lemma {:induction false} SumOverZero<K>(m: map<K, int>, ks: set<K>)
    requires ks <= m.Keys
    requires forall k :: k in ks ==> m[k] >= 0
    ensures SumOver(m, ks) == 0 <==> forall k :: k in ks ==> m[k] == 0
    decreases |ks|
  {
    if ks != {} {
      var k :| k in ks;
      SumOverRemove(m, ks, k);
      SumOverZero(m, ks - {k});
      SumOverAtLeast(m, ks - {k}, 0);
    }
  }
}

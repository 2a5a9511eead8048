/** Sums over the values of a map. */
module Sums {

  ghost function Sum<K(!new)>(m: map<K, int>): int
    decreases |m|
  {
    if m == map[] then 0
    else
      var k :| k in m;
      m[k] + Sum(m - {k})
  }

  /** A sum may be taken starting with any key. */
  lemma {:induction false} SumRemove<K(!new)>(m: map<K, int>, k: K)
    requires k in m
    ensures Sum(m) == m[k] + Sum(m - {k})
    decreases |m|
  {
    var h :| h in m && Sum(m) == m[h] + Sum(m - {h});
    if h != k {
      SumRemove(m - {h}, k);
      SumRemove(m - {k}, h);
      assert (m - {h}) - {k} == (m - {k}) - {h};
    }
  }

  function Get<K>(m: map<K, int>, k: K): int { if k in m then m[k] else 0 }

  lemma SumUpdate<K(!new)>(m: map<K, int>, k: K, v: int)
    ensures Sum(m[k := v]) == Sum(m) - Get(m, k) + v
  {
    var b := m[k := v];
    SumRemove(b, k);
    if k in m {
      SumRemove(m, k);
      assert b - {k} == m - {k};
    } else {
      assert b - {k} == m;
    }
  }
}

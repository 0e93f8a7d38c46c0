/** Sums over the entries of a map. */
module Maps {
  ghost function SumOver<K, V>(m: map<K, V>, f: V -> nat): nat
    decreases |m|
  {
    if m == map[] then 0
    else
      var k :| k in m;
      f(m[k]) + SumOver(m - {k}, f)
  }

  lemma {:induction false} SumTakesOut<K, V>(m: map<K, V>, k: K, f: V -> nat)
    requires k in m
    ensures SumOver(m, f) == f(m[k]) + SumOver(m - {k}, f)
    decreases |m|
  {
    var j :| j in m && SumOver(m, f) == f(m[j]) + SumOver(m - {j}, f);
    if j != k {
      SumTakesOut(m - {j}, k, f);
      SumTakesOut(m - {k}, j, f);
      assert m - {j} - {k} == m - {k} - {j};
    }
  }

  /** Replacing or adding one entry changes the sum by what that entry contributes. */
  lemma SumAfterPut<K, V>(m: map<K, V>, k: K, v: V, f: V -> nat)
    ensures SumOver(m[k := v], f) + (if k in m then f(m[k]) else 0) == SumOver(m, f) + f(v)
  {
    SumTakesOut(m[k := v], k, f);
    assert m[k := v] - {k} == m - {k};
    if k in m {
      SumTakesOut(m, k, f);
    } else {
      assert m - {k} == m;
    }
  }
}

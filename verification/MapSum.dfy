/** The sum of a finite map's values, used for total ether and for token supply. */
module MapSum {
  ghost function Sum<K>(m: map<K, nat>): nat {
    if m == map[] then 0 else
      var k :| k in m;
      m[k] + Sum(m - {k})
  }

  ghost function ValueAt<K>(m: map<K, nat>, k: K): nat {
    if k in m then m[k] else 0
  }

  lemma {:induction false} SumPick<K>(m: map<K, nat>, k: K)
    requires k in m
    ensures Sum(m) == m[k] + Sum(m - {k})
    decreases |m|
  {
    var j :| j in m && Sum(m) == m[j] + Sum(m - {j});
    if j != k {
      SumPick(m - {j}, k);
      SumPick(m - {k}, j);
      assert m - {j} - {k} == m - {k} - {j};
    }
  }

  lemma SumUpdate<K>(m: map<K, nat>, k: K, v: nat)
    ensures Sum(m[k := v]) == Sum(m) - ValueAt(m, k) + v
  {
    var n := m[k := v];
    SumPick(n, k);
    if k in m {
      SumPick(m, k);
      assert n - {k} == m - {k};
    } else {
      assert n - {k} == m;
    }
  }

  lemma SumBounds<K>(m: map<K, nat>, k: K)
    ensures ValueAt(m, k) <= Sum(m)
  {
    if k in m { SumPick(m, k); }
  }

  /** Two different entries together never exceed the sum. */
  lemma SumBoundsTwo<K>(m: map<K, nat>, j: K, k: K)
    requires j != k
    ensures ValueAt(m, j) + ValueAt(m, k) <= Sum(m)
  {
    SumBounds(m, k);
    if j in m {
      SumPick(m, j);
      SumBounds(m - {j}, k);
    }
  }
}

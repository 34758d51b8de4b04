/** Sums over the entries of a finite map. */
module Totals {

  ghost function Total<K, V>(m: map<K, V>, f: V -> int): int {
    if m == map[] then 0
    else
      var k :| k in m;
      f(m[k]) + Total(m - {k}, f)
  }

  /** The sum does not depend on the order in which entries are taken. */
  lemma {:induction false} TotalSplit<K, V>(m: map<K, V>, f: V -> int, k: K)
    requires k in m
    ensures Total(m, f) == f(m[k]) + Total(m - {k}, f)
  {
    var j :| j in m && Total(m, f) == f(m[j]) + Total(m - {j}, f);
    if j != k {
      TotalSplit(m - {j}, f, k);
      TotalSplit(m - {k}, f, j);
      assert m - {j} - {k} == m - {k} - {j};
    }
  }

  lemma TotalWithout<K, V>(m: map<K, V>, f: V -> int, k: K)
    ensures Total(m, f) == Total(m - {k}, f) + (if k in m then f(m[k]) else 0)
  {
    if k in m {
      TotalSplit(m, f, k);
    } else {
      assert m - {k} == m;
    }
  }

  /** Replacing one entry changes the sum by the difference of the two weights. */
  lemma TotalUpdate<K, V>(m: map<K, V>, f: V -> int, k: K, v: V)
    ensures Total(m[k := v], f) + (if k in m then f(m[k]) else 0) == Total(m, f) + f(v)
  {
    TotalWithout(m, f, k);
    TotalSplit(m[k := v], f, k);
    assert m[k := v] - {k} == m - {k};
  }

  /** Weights that are never negative have such a sum, at least any one of them. */
  lemma {:induction false} TotalCovers<K, V>(m: map<K, V>, f: V -> int, k: K)
    requires forall j :: j in m ==> f(m[j]) >= 0
    ensures Total(m, f) >= 0
    ensures k in m ==> Total(m, f) >= f(m[k])
  {
    if m != map[] {
      var j := if k in m then k else var i :| i in m; i;
      TotalSplit(m, f, j);
      TotalCovers(m - {j}, f, j);
    }
  }
}

/** Sums over the entries of a finite map, for balances and costs. */
module Sums {

  ghost function Total<K(!new), V(!new)>(m: map<K, V>, weight: (K, V) -> int): int
    decreases |m|
  {
    if m == map[] then 0
    else
      var k :| k in m;
      weight(k, m[k]) + Total(m - {k}, weight)
  }

  /** Any entry may be taken out first. */
  lemma {:induction false} TotalSplit<K(!new), V(!new)>(m: map<K, V>, weight: (K, V) -> int, k: K)
    requires k in m
    ensures Total(m, weight) == weight(k, m[k]) + Total(m - {k}, weight)
    decreases |m|
  {
    var j :| j in m && Total(m, weight) == weight(j, m[j]) + Total(m - {j}, weight);
    if j != k {
      TotalSplit(m - {j}, weight, k);
      TotalSplit(m - {k}, weight, j);
      assert m - {j} - {k} == m - {k} - {j};
    }
  }

  lemma TotalAdd<K(!new), V(!new)>(m: map<K, V>, weight: (K, V) -> int, k: K, v: V)
    requires k !in m
    ensures Total(m[k := v], weight) == Total(m, weight) + weight(k, v)
  {
    TotalSplit(m[k := v], weight, k);
    assert m[k := v] - {k} == m;
  }

  /** Entries of weight zero may be dropped. */
  lemma {:induction false} TotalDropZeros<K(!new), V(!new)>(m: map<K, V>, weight: (K, V) -> int, zeros: set<K>)
    requires forall k | k in zeros && k in m :: weight(k, m[k]) == 0
    ensures Total(m - zeros, weight) == Total(m, weight)
    decreases |m|
  {
    if k :| k in zeros && k in m {
      TotalSplit(m, weight, k);
      TotalDropZeros(m - {k}, weight, zeros);
      assert m - {k} - zeros == m - zeros;
    } else {
      assert m - zeros == m;
    }
  }

  /** Weights that agree on every entry give the same total. */
  lemma {:induction false} TotalAgrees<K(!new), V(!new)>(m: map<K, V>, f: (K, V) -> int, g: (K, V) -> int)
    requires forall k | k in m :: f(k, m[k]) == g(k, m[k])
    ensures Total(m, f) == Total(m, g)
    decreases |m|
  {
    if k :| k in m {
      TotalSplit(m, f, k);
      TotalSplit(m, g, k);
      TotalAgrees(m - {k}, f, g);
    }
  }
}

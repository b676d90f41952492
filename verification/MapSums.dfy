/** Sums over the values of a finite map. */
module MapSums {

  ghost function Sum<K(!new)>(m: map<K, int>): int
    decreases |m|
  {
    if m == map[] then 0
    else
      var k :| k in m;
      assert |m - {k}| < |m| by {
        Smaller(m, k);
      }
      m[k] + Sum(m - {k})
  }

  lemma Smaller<K(!new)>(m: map<K, int>, k: K)
    requires k in m
    ensures |m - {k}| < |m|
  {
  }

  /** Any key may be taken out first. */
  lemma {:induction false} SumTake<K(!new)>(m: map<K, int>, k: K)
    requires k in m
    ensures Sum(m) == m[k] + Sum(m - {k})
    decreases |m|
  {
    var j :| j in m && Sum(m) == m[j] + Sum(m - {j});
    if j != k {
      Smaller(m, j);
      SumTake(m - {j}, k);
      Smaller(m, k);
      SumTake(m - {k}, j);
      assert (m - {j}) - {k} == (m - {k}) - {j};
    }
  }

  lemma SumUpdate<K(!new)>(m: map<K, int>, k: K, x: int)
    requires k in m
    ensures Sum(m[k := x]) == Sum(m) - m[k] + x
  {
    SumTake(m, k);
    SumTake(m[k := x], k);
    assert m[k := x] - {k} == m - {k};
  }

  lemma {:induction false} SumZero<K(!new)>(m: map<K, int>)
    requires forall k | k in m :: m[k] >= 0
    ensures Sum(m) >= 0
    ensures Sum(m) == 0 <==> forall k | k in m :: m[k] == 0
    decreases |m|
  {
    if m != map[] {
      var k :| k in m;
      Smaller(m, k);
      SumTake(m, k);
      SumZero(m - {k});
      assert forall j | j in m && j != k :: j in m - {k};
    }
  }

  lemma SumAdd<K(!new)>(m: map<K, int>, k: K, x: int)
    requires k !in m
    ensures Sum(m[k := x]) == Sum(m) + x
  {
    SumTake(m[k := x], k);
    assert m[k := x] - {k} == m;
  }
}

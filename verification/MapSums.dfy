/** Sums over the values of a finite map, used to add up weights of table rows. */
module MapSums {

  ghost function Sum<K>(m: map<K, int>): int
    decreases |m|
  {
    if m == map[] then 0
    else
      var k :| k in m;
      m[k] + Sum(m - {k})
  }

  lemma {:induction false} SumRemove<K>(m: map<K, int>, k: K)
    requires k in m
    ensures Sum(m) == m[k] + Sum(m - {k})
    decreases |m|
  {
    var p :| p in m && Sum(m) == m[p] + Sum(m - {p});
    if p != k {
      SumRemove(m - {p}, k);
      SumRemove(m - {k}, p);
      assert (m - {p}) - {k} == (m - {k}) - {p};
    }
  }

  lemma SumUpdate<K>(m: map<K, int>, k: K, v: int)
    ensures Sum(m[k := v]) == Sum(m) - (if k in m then m[k] else 0) + v
  {
    SumRemove(m[k := v], k);
    assert m[k := v] - {k} == m - {k};
    if k in m {
      SumRemove(m, k);
    } else {
      assert m - {k} == m;
    }
  }

  /** Raising the values of at most the keys in `bump`, by at most one each, raises the sum by at most |bump|. */
  lemma {:induction false} SumBump<K>(m: map<K, int>, m': map<K, int>, bump: set<K>)
    requires m.Keys == m'.Keys
    requires forall k :: k in m ==> m'[k] <= m[k] + (if k in bump then 1 else 0)
    ensures Sum(m') <= Sum(m) + |bump|
    decreases |m|
  {
    if m == map[] {
      assert m' == map[];
    } else {
      var k :| k in m;
      SumRemove(m, k);
      SumRemove(m', k);
      SumBump(m - {k}, m' - {k}, bump - {k});
    }
  }

  lemma {:induction false} SumNonNegative<K>(m: map<K, int>)
    requires forall k :: k in m ==> m[k] >= 0
    ensures Sum(m) >= 0
    decreases |m|
  {
    if m != map[] {
      var k :| k in m;
      SumRemove(m, k);
      SumNonNegative(m - {k});
    }
  }

  /** Dropping rows never raises a sum of non-negative values. */
  lemma {:induction false} SumSubMap<K>(m: map<K, int>, s: set<K>)
    requires forall k :: k in m ==> m[k] >= 0
    ensures Sum(m - s) <= Sum(m)
    decreases s
  {
    if s == {} {
      assert m - s == m;
    } else {
      var k :| k in s;
      SumSubMap(m - {k}, s - {k});
      assert m - s == (m - {k}) - (s - {k});
      if k in m {
        SumRemove(m, k);
      } else {
        assert m - {k} == m;
      }
    }
  }
}

/** Sums over finite maps, and the few facts about them that the ledger proofs use. */
module MapSums {

  /** Some key of a non-empty map; a function, so that proofs can name the key that `Total` removes. */
  ghost function Pick<K>(m: map<K, nat>): (k: K)
    requires m != map[]
    ensures k in m
  {
    assert m.Keys != {};
    var k :| k in m.Keys;
    k
  }

  /** The sum of the values of a map. */
  ghost function Total<K>(m: map<K, nat>): nat
    decreases |m|
  {
    if m == map[] then 0
    else
      var k := Pick(m);
      assert (m - {k}).Keys == m.Keys - {k};
      m[k] + Total(m - {k})
  }

  /** Removing any key, not only the picked one, takes its value out of the total. */
  lemma {:induction false} TotalRemove<K>(m: map<K, nat>, k: K)
    requires k in m
    ensures Total(m) == m[k] + Total(m - {k})
    decreases |m|
  {
    var j := Pick(m);
    if j != k {
      assert (m - {j}).Keys == m.Keys - {j} && (m - {k}).Keys == m.Keys - {k};
      TotalRemove(m - {j}, k);
      TotalRemove(m - {k}, j);
      assert (m - {j}) - {k} == (m - {k}) - {j};
    }
  }

  lemma TotalInsert<K>(m: map<K, nat>, k: K, v: nat)
    requires k !in m
    ensures Total(m[k := v]) == Total(m) + v
  {
    TotalRemove(m[k := v], k);
    assert m[k := v] - {k} == m;
  }

  lemma TotalUpdate<K>(m: map<K, nat>, k: K, v: nat)
    requires k in m
    ensures Total(m[k := v]) + m[k] == Total(m) + v
  {
    TotalRemove(m, k);
    TotalRemove(m[k := v], k);
    assert m[k := v] - {k} == m - {k};
  }

  /** Writing `v` under `k`, whether or not `k` was there before. */
  lemma TotalPut<K>(m: map<K, nat>, k: K, v: nat)
    ensures Total(m[k := v]) + (if k in m then m[k] else 0) == Total(m) + v
  {
    if k in m {
      TotalUpdate(m, k, v);
    } else {
      TotalInsert(m, k, v);
    }
  }

  lemma ValueAtMostTotal<K>(m: map<K, nat>, k: K)
    requires k in m
    ensures m[k] <= Total(m)
  {
    TotalRemove(m, k);
  }

  lemma UnionPut<K>(a: map<K, nat>, b: map<K, nat>, k: K)
    requires k in b && a.Keys !! b.Keys
    ensures a + b == (a + (b - {k}))[k := b[k]] && k !in a + (b - {k})
  {
  }

  lemma {:induction false} TotalUnion<K>(a: map<K, nat>, b: map<K, nat>)
    requires a.Keys !! b.Keys
    ensures Total(a + b) == Total(a) + Total(b)
    decreases |b|
  {
    if b == map[] {
      assert a + b == a;
    } else {
      var k := Pick(b);
      assert (b - {k}).Keys == b.Keys - {k};
      TotalUnion(a, b - {k});
      TotalInsert(a + (b - {k}), k, b[k]);
      UnionPut(a, b, k);
    }
  }

  /** A part of a map sums to no more than the whole. */
  lemma TotalSubmap<K>(a: map<K, nat>, m: map<K, nat>)
    requires a.Keys <= m.Keys
    requires forall k :: k in a ==> a[k] == m[k]
    ensures Total(a) <= Total(m)
  {
    var rest := m - a.Keys;
    assert a + rest == m;
    TotalUnion(a, rest);
  }
}

/** Totals of a field over the entries of a finite map. */
module MapSums {

  ghost function Pick<K(!new), V>(m: map<K, V>): (k: K)
    requires m != map[]
    ensures k in m
  {
    var k :| k in m; k
  }

  ghost function Sum<K(!new), V>(m: map<K, V>, f: V -> int): int
    decreases |m|
  {
    if m == map[] then 0 else f(m[Pick(m)]) + Sum(m - {Pick(m)}, f)
  }

  /** The total does not depend on the order in which entries are taken. */
  lemma {:induction false} SumRemove<K(!new), V>(m: map<K, V>, f: V -> int, k: K)
    requires k in m
    ensures Sum(m, f) == f(m[k]) + Sum(m - {k}, f)
    decreases |m|
  {
    var p := Pick(m);
    if p != k {
      SumRemove(m - {p}, f, k);
      SumRemove(m - {k}, f, p);
      assert m - {p} - {k} == m - {k} - {p};
    }
  }

  ghost function At<K, V>(m: map<K, V>, f: V -> int, k: K): int {
    if k in m then f(m[k]) else 0
  }

  lemma SumUpdate<K(!new), V>(m: map<K, V>, f: V -> int, k: K, v: V)
    ensures Sum(m[k := v], f) == Sum(m, f) - At(m, f, k) + f(v)
  {
    SumRemove(m[k := v], f, k);
    assert m[k := v] - {k} == m - {k};
    if k in m { SumRemove(m, f, k); } else { assert m - {k} == m; }
  }

  lemma {:induction false} SumDelete<K(!new), V>(m: map<K, V>, f: V -> int, k: K)
    ensures Sum(m - {k}, f) == Sum(m, f) - At(m, f, k)
  {
    if k in m { SumRemove(m, f, k); } else { assert m - {k} == m; }
  }

  lemma {:induction false} SumNonNegative<K(!new), V>(m: map<K, V>, f: V -> int)
    requires forall k :: k in m ==> f(m[k]) >= 0
    ensures Sum(m, f) >= 0
    ensures forall k :: k in m ==> f(m[k]) <= Sum(m, f)
    decreases |m|
  {
    if m != map[] {
      var p := Pick(m);
      SumNonNegative(m - {p}, f);
      forall k | k in m && k != p ensures f(m[k]) <= Sum(m - {p}, f) {
        assert k in m - {p};
      }
    }
  }

  /** Two fields proportional entry by entry have proportional totals. */
  lemma {:induction false} SumScale<K(!new), V>(m: map<K, V>, f: V -> int, g: V -> int, c: int)
    requires forall k :: k in m ==> g(m[k]) == c * f(m[k])
    ensures Sum(m, g) == c * Sum(m, f)
    decreases |m|
  {
    if m != map[] {
      var rest := m - {Pick(m)};
      SumScale(rest, f, g, c);
      assert c * (f(m[Pick(m)]) + Sum(rest, f)) == c * f(m[Pick(m)]) + c * Sum(rest, f);
    }
  }

  /** Two maps with the same keys and the same field have the same total. */
  lemma {:induction false} SumSame<K(!new), V, W>(m: map<K, V>, f: V -> int, n: map<K, W>, g: W -> int)
    requires m.Keys == n.Keys
    requires forall k :: k in m ==> f(m[k]) == g(n[k])
    ensures Sum(m, f) == Sum(n, g)
    decreases |m|
  {
    if m == map[] {
      assert n == map[];
    } else {
      var p := Pick(m);
      assert p in n;
      SumRemove(n, g, p);
      assert (m - {p}).Keys == m.Keys - {p} == (n - {p}).Keys;
      SumSame(m - {p}, f, n - {p}, g);
    }
  }

  lemma SizeInsert<K, V>(m: map<K, V>, k: K, v: V)
    ensures |m[k := v]| == |m| + if k in m then 0 else 1
  {
    assert m[k := v].Keys == m.Keys + {k};
  }

  lemma SizeRemove<K, V>(m: map<K, V>, k: K)
    ensures |m - {k}| == |m| - if k in m then 1 else 0
  {
    assert (m - {k}).Keys == m.Keys - {k};
  }
}

/** Sums of a measure over the values of a finite map, independent of any iteration order. */
module MapSums {
  ghost function Sum<K, V>(m: map<K, V>, f: V -> int): int
    decreases |m|
  {
    if m == map[] then 0
    else
      var k :| k in m;
      f(m[k]) + Sum(m - {k}, f)
  }

  /** Any key may be split off, not only the one the definition picks. */
  lemma {:induction false} SumRemove<K, V>(m: map<K, V>, f: V -> int, k: K)
    requires k in m
    ensures Sum(m, f) == f(m[k]) + Sum(m - {k}, f)
    decreases |m|
  {
    var c :| c in m && Sum(m, f) == f(m[c]) + Sum(m - {c}, f);
    if c != k {
      SumRemove(m - {c}, f, k);
      SumRemove(m - {k}, f, c);
      assert m - {c} - {k} == m - {k} - {c};
    }
  }

  lemma SumInsert<K, V>(m: map<K, V>, f: V -> int, k: K, v: V)
    requires k !in m
    ensures Sum(m[k := v], f) == Sum(m, f) + f(v)
  {
    SumRemove(m[k := v], f, k);
    assert m[k := v] - {k} == m;
  }

  lemma SumUpdate<K, V>(m: map<K, V>, f: V -> int, k: K, v: V)
    requires k in m
    ensures Sum(m[k := v], f) == Sum(m, f) - f(m[k]) + f(v)
  {
    SumRemove(m, f, k);
    SumRemove(m[k := v], f, k);
    assert m[k := v] - {k} == m - {k};
  }

  lemma {:induction false} SumMonotone<K, V>(m: map<K, V>, f: V -> int, g: V -> int)
    requires forall k :: k in m ==> f(m[k]) <= g(m[k])
    ensures Sum(m, f) <= Sum(m, g)
    decreases |m|
  {
    if m != map[] {
      var k :| k in m;
      SumRemove(m, f, k);
      SumRemove(m, g, k);
      SumMonotone(m - {k}, f, g);
    }
  }

  lemma {:induction false} SumNonNegative<K, V>(m: map<K, V>, f: V -> int)
    requires forall k :: k in m ==> f(m[k]) >= 0
    ensures Sum(m, f) >= 0
    decreases |m|
  {
    if m != map[] {
      var k :| k in m;
      SumRemove(m, f, k);
      SumNonNegative(m - {k}, f);
    }
  }

  /** One non-negative term is never more than the whole. */
  lemma SumMember<K, V>(m: map<K, V>, f: V -> int, k: K)
    requires k in m
    requires forall j :: j in m ==> f(m[j]) >= 0
    ensures f(m[k]) <= Sum(m, f)
  {
    SumRemove(m, f, k);
    SumNonNegative(m - {k}, f);
  }

  // ----- Maps whose keys are reused -----

  function SumOver<V>(xs: seq<V>, f: V -> int): int {
    if xs == [] then 0 else SumOver(xs[..|xs| - 1], f) + f(xs[|xs| - 1])
  }

  lemma {:induction false} SumOverNonNegative<V>(xs: seq<V>, f: V -> int)
    requires forall i :: 0 <= i < |xs| ==> f(xs[i]) >= 0
    ensures SumOver(xs, f) >= 0
  {
    if xs != [] {
      SumOverNonNegative(xs[..|xs| - 1], f);
    }
  }

  /** The values lost so far, in order, once a value is stored under k. */
  ghost function Gone<K, V>(m: map<K, V>, gone: seq<V>, k: K): seq<V> {
    if k in m then gone + [m[k]] else gone
  }

  /** What a measure comes to over a map and over the values it lost to reused keys. */
  ghost function Total<K, V>(m: map<K, V>, gone: seq<V>, f: V -> int): int {
    Sum(m, f) + SumOver(gone, f)
  }

  /** Storing a value adds its measure to the total, whether or not the key was in use. */
  lemma PutAdds<K, V>(m: map<K, V>, gone: seq<V>, f: V -> int, k: K, v: V)
    ensures Total(m[k := v], Gone(m, gone, k), f) == Total(m, gone, f) + f(v)
  {
    if k in m {
      SumUpdate(m, f, k, v);
      assert (gone + [m[k]])[..|gone|] == gone;
    } else {
      SumInsert(m, f, k, v);
    }
  }
}

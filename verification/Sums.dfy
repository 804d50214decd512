/** Options, and sums of a weight over the values of a finite map. */
module Sums {

  datatype Option<+T> = None | Some(value: T)

  /** The sum of f over the values of m; independent of the order in which keys are picked (SumSplit). */
  ghost function Sum<K, V>(m: map<K, V>, f: V -> int): int
    decreases |m|
  {
    if m == map[] then 0 else
      var k :| k in m;
      f(m[k]) + Sum(m - {k}, f)
  }

  lemma {:induction false} SumSplit<K, V>(m: map<K, V>, k: K, f: V -> int)
    requires k in m
    ensures Sum(m, f) == f(m[k]) + Sum(m - {k}, f)
    decreases |m|
  {
    var p :| p in m && Sum(m, f) == f(m[p]) + Sum(m - {p}, f);
    if p != k {
      SumSplit(m - {p}, k, f);
      SumSplit(m - {k}, p, f);
      assert m - {p} - {k} == m - {k} - {p};
    }
  }

  lemma SumUpdate<K, V>(m: map<K, V>, k: K, v: V, f: V -> int)
    ensures Sum(m[k := v], f) == Sum(m, f) + f(v) - (if k in m then f(m[k]) else 0)
  {
    SumSplit(m[k := v], k, f);
    assert m[k := v] - {k} == m - {k};
    if k in m {
      SumSplit(m, k, f);
    } else {
      assert m - {k} == m;
    }
  }

  lemma SumRemove<K, V>(m: map<K, V>, k: K, f: V -> int)
    requires k in m
    ensures Sum(m - {k}, f) == Sum(m, f) - f(m[k])
  {
    SumSplit(m, k, f);
  }

  lemma {:induction false} SumNonNegative<K, V>(m: map<K, V>, f: V -> int)
    requires forall k | k in m :: f(m[k]) >= 0
    ensures Sum(m, f) >= 0
    decreases |m|
  {
    if m != map[] {
      var p :| p in m && Sum(m, f) == f(m[p]) + Sum(m - {p}, f);
      SumNonNegative(m - {p}, f);
    }
  }

  lemma {:induction false} SumAllZero<K, V>(m: map<K, V>, f: V -> int)
    requires forall k | k in m :: f(m[k]) == 0
    ensures Sum(m, f) == 0
    decreases |m|
  {
    if m != map[] {
      var p :| p in m && Sum(m, f) == f(m[p]) + Sum(m - {p}, f);
      SumAllZero(m - {p}, f);
    }
  }

  /** Each value's weight is at most the whole sum. */
  lemma SumDominates<K, V>(m: map<K, V>, k: K, f: V -> int)
    requires k in m
    requires forall j | j in m :: f(m[j]) >= 0
    ensures f(m[k]) <= Sum(m, f)
  {
    SumSplit(m, k, f);
    SumNonNegative(m - {k}, f);
  }
}

/** Totals over finite maps and sequences. */
module Sums {

  function At<K(==)>(m: map<K, nat>, k: K): nat {
    if k in m then m[k] else 0
  }

  /** The total weight of a map's entries, in whatever order they are met. */
  ghost function SumMap<K, V>(m: map<K, V>, w: (K, V) -> int): int
    decreases |m|
  {
    if m == map[] then 0
    else
      var k :| k in m;
      assert |m - {k}| < |m| by { assert (m - {k}).Keys == m.Keys - {k}; assert |m.Keys - {k}| < |m.Keys|; }
      w(k, m[k]) + SumMap(m - {k}, w)
  }

  /** Any entry can be split off: the total does not depend on the order. */
  lemma {:induction false} SumMapSplit<K, V>(m: map<K, V>, w: (K, V) -> int, k: K)
    requires k in m
    ensures SumMap(m, w) == w(k, m[k]) + SumMap(m - {k}, w)
    decreases |m|
  {
    var j :| j in m && SumMap(m, w) == w(j, m[j]) + SumMap(m - {j}, w);
    if j != k {
      assert (m - {j}).Keys == m.Keys - {j} && |m.Keys - {j}| < |m.Keys|;
      assert (m - {k}).Keys == m.Keys - {k} && |m.Keys - {k}| < |m.Keys|;
      SumMapSplit(m - {j}, w, k);
      SumMapSplit(m - {k}, w, j);
      assert m - {j} - {k} == m - {k} - {j};
    }
  }

  lemma SumMapInsert<K, V>(m: map<K, V>, w: (K, V) -> int, k: K, v: V)
    ensures SumMap(m[k := v], w) == SumMap(m - {k}, w) + w(k, v)
    ensures k !in m ==> SumMap(m[k := v], w) == SumMap(m, w) + w(k, v)
    ensures k in m ==> SumMap(m[k := v], w) == SumMap(m, w) - w(k, m[k]) + w(k, v)
  {
    SumMapSplit(m[k := v], w, k);
    assert m[k := v] - {k} == m - {k};
    if k in m {
      SumMapSplit(m, w, k);
    } else {
      assert m - {k} == m;
    }
  }

  lemma {:induction false} SumMapNonNegative<K, V>(m: map<K, V>, w: (K, V) -> int)
    requires forall k :: k in m ==> w(k, m[k]) >= 0
    ensures SumMap(m, w) >= 0
    decreases |m|
  {
    if m != map[] {
      var k :| k in m && SumMap(m, w) == w(k, m[k]) + SumMap(m - {k}, w);
      assert (m - {k}).Keys == m.Keys - {k} && |m.Keys - {k}| < |m.Keys|;
      SumMapNonNegative(m - {k}, w);
    }
  }

  /** One entry is part of the total. */
  lemma SumMapAtLeast<K, V>(m: map<K, V>, w: (K, V) -> int, k: K)
    requires k in m && forall j :: j in m ==> w(j, m[j]) >= 0
    ensures SumMap(m, w) >= w(k, m[k])
  {
    SumMapSplit(m, w, k);
    SumMapNonNegative(m - {k}, w);
  }

  lemma {:induction false} SumMapSame<K, V>(m: map<K, V>, w: (K, V) -> int, w': (K, V) -> int)
    requires forall k :: k in m ==> w(k, m[k]) == w'(k, m[k])
    ensures SumMap(m, w) == SumMap(m, w')
    decreases |m|
  {
    if m != map[] {
      var k :| k in m && SumMap(m, w) == w(k, m[k]) + SumMap(m - {k}, w);
      assert (m - {k}).Keys == m.Keys - {k} && |m.Keys - {k}| < |m.Keys|;
      SumMapSplit(m, w', k);
      SumMapSame(m - {k}, w, w');
    }
  }

  // ----- the same for rational weights -----

  ghost function SumReal<K, V>(m: map<K, V>, w: (K, V) -> real): real
    decreases |m|
  {
    if m == map[] then 0.0
    else
      var k :| k in m;
      assert |m - {k}| < |m| by { assert (m - {k}).Keys == m.Keys - {k}; assert |m.Keys - {k}| < |m.Keys|; }
      w(k, m[k]) + SumReal(m - {k}, w)
  }

  lemma {:induction false} SumRealSplit<K, V>(m: map<K, V>, w: (K, V) -> real, k: K)
    requires k in m
    ensures SumReal(m, w) == w(k, m[k]) + SumReal(m - {k}, w)
    decreases |m|
  {
    var j :| j in m && SumReal(m, w) == w(j, m[j]) + SumReal(m - {j}, w);
    if j != k {
      assert (m - {j}).Keys == m.Keys - {j} && |m.Keys - {j}| < |m.Keys|;
      assert (m - {k}).Keys == m.Keys - {k} && |m.Keys - {k}| < |m.Keys|;
      SumRealSplit(m - {j}, w, k);
      SumRealSplit(m - {k}, w, j);
      assert m - {j} - {k} == m - {k} - {j};
    }
  }

  lemma SumRealInsert<K, V>(m: map<K, V>, w: (K, V) -> real, k: K, v: V)
    ensures k !in m ==> SumReal(m[k := v], w) == SumReal(m, w) + w(k, v)
    ensures k in m ==> SumReal(m[k := v], w) == SumReal(m, w) - w(k, m[k]) + w(k, v)
  {
    SumRealSplit(m[k := v], w, k);
    assert m[k := v] - {k} == m - {k};
    if k in m {
      SumRealSplit(m, w, k);
    } else {
      assert m - {k} == m;
    }
  }

  lemma {:induction false} SumRealNonNegative<K, V>(m: map<K, V>, w: (K, V) -> real)
    requires forall k :: k in m ==> w(k, m[k]) >= 0.0
    ensures SumReal(m, w) >= 0.0
    decreases |m|
  {
    if m != map[] {
      var k :| k in m && SumReal(m, w) == w(k, m[k]) + SumReal(m - {k}, w);
      assert (m - {k}).Keys == m.Keys - {k} && |m.Keys - {k}| < |m.Keys|;
      SumRealNonNegative(m - {k}, w);
    }
  }

  lemma SumRealAtLeast<K, V>(m: map<K, V>, w: (K, V) -> real, k: K)
    requires k in m && forall j :: j in m ==> w(j, m[j]) >= 0.0
    ensures SumReal(m, w) >= w(k, m[k])
  {
    SumRealSplit(m, w, k);
    SumRealNonNegative(m - {k}, w);
  }

  predicate AddsAt(g: real -> real, x: real, y: real) {
    g(x + y) == g(x) + g(y)
  }

  ghost predicate Additive(g: real -> real) {
    g(0.0) == 0.0 && forall x: real, y: real :: AddsAt(g, x, y)
  }

  /** An additive map comes out of the total. */
  lemma {:induction false} SumRealMapped<K, V>(m: map<K, V>, w: (K, V) -> real, g: real -> real, mapped: (K, V) -> real)
    requires Additive(g) && forall k :: k in m ==> mapped(k, m[k]) == g(w(k, m[k]))
    ensures SumReal(m, mapped) == g(SumReal(m, w))
    decreases |m|
  {
    if m != map[] {
      var k :| k in m && SumReal(m, w) == w(k, m[k]) + SumReal(m - {k}, w);
      assert (m - {k}).Keys == m.Keys - {k} && |m.Keys - {k}| < |m.Keys|;
      SumRealSplit(m, mapped, k);
      SumRealMapped(m - {k}, w, g, mapped);
      assert AddsAt(g, w(k, m[k]), SumReal(m - {k}, w));
    }
  }
}

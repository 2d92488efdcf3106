/**
 * The JavaScript `Map`: entries keep the order in which their keys were first
 * set, and setting an existing key replaces its value in place.
 */
module OrderedMap {
  import opened Wrappers

  type Entries<K, V> = seq<(K, V)>

  predicate Has<K(==), V>(m: Entries<K, V>, k: K) {
    exists i :: 0 <= i < |m| && m[i].0 == k
  }

  function Get<K(==), V>(m: Entries<K, V>, k: K): (r: Option<V>)
    ensures r.Some? <==> Has(m, k)
    ensures r.Some? ==> (k, r.value) in m
  {
    if m == [] then None
    else if m[0].0 == k then
      assert m[0] == (k, m[0].1);
      Some(m[0].1)
    else
      assert forall i :: 0 <= i < |m[1..]| ==> m[1..][i] == m[i + 1];
      Get(m[1..], k)
  }

  function Put<K(==), V>(m: Entries<K, V>, k: K, v: V): (r: Entries<K, V>) {
    if m == [] then [(k, v)]
    else if m[0].0 == k then [(k, v)] + m[1..]
    else [m[0]] + Put(m[1..], k, v)
  }

  ghost predicate DistinctKeys<K(!new), V(!new)>(m: Entries<K, V>) {
    forall i, j :: 0 <= i < j < |m| ==> m[i].0 != m[j].0
  }

  lemma {:induction false} GetPut<K, V>(m: Entries<K, V>, k: K, v: V, other: K)
    ensures Get(Put(m, k, v), other) == if other == k then Some(v) else Get(m, other)
  {
    if m != [] && m[0].0 != k {
      GetPut(m[1..], k, v, other);
    }
  }

  lemma {:induction false} PutDistinct<K(!new), V(!new)>(m: Entries<K, V>, k: K, v: V)
    requires DistinctKeys(m)
    ensures DistinctKeys(Put(m, k, v))
  {
    if m != [] && m[0].0 != k {
      PutDistinct(m[1..], k, v);
      GetPut(m[1..], k, v, m[0].0);
      assert !Has(m[1..], m[0].0);
      var rest := Put(m[1..], k, v);
      assert forall j :: 0 <= j < |rest| ==> rest[j].0 != m[0].0;
    }
  }

  /** A fresh key goes to the end. */
  lemma {:induction false} PutFresh<K, V>(m: Entries<K, V>, k: K, v: V)
    requires !Has(m, k)
    ensures Put(m, k, v) == m + [(k, v)]
  {
    if m != [] {
      assert m[0].0 != k;
      forall i | 0 <= i < |m[1..]| ensures m[1..][i].0 != k {
        assert m[1..][i] == m[i + 1];
      }
      PutFresh(m[1..], k, v);
    }
  }

  /** With distinct keys, `Get` finds the one entry of a key. */
  lemma {:induction false} GetDistinct<K(!new), V(!new)>(m: Entries<K, V>, i: nat)
    requires DistinctKeys(m) && i < |m|
    ensures Get(m, m[i].0) == Some(m[i].1)
  {
    if i > 0 {
      assert m[0].0 != m[i].0;
      assert m[1..][i - 1] == m[i];
      GetDistinct(m[1..], i - 1);
    }
  }
}

/** Sequences with an element taken out. */
module Sequences {
  function Without<T>(s: seq<T>, i: nat): seq<T>
    requires i < |s|
  {
    s[..i] + s[i + 1..]
  }

  lemma WithoutLater<T>(s: seq<T>, i: nat)
    requires 0 < i < |s|
    ensures Without(s, i) == [s[0]] + Without(s[1..], i - 1)
  {
  }

  lemma WithoutMultiset<T>(s: seq<T>, i: nat)
    requires i < |s|
    ensures multiset(s) == multiset(Without(s, i)) + multiset{s[i]}
  {
    assert s == s[..i] + [s[i]] + s[i + 1..];
  }

  lemma Associates<T>(a: seq<T>, b: seq<T>, c: seq<T>)
    ensures a + b + c == a + (b + c)
  {
  }

  /** Permutations stay permutations without an element of both. */
  lemma OneLess<T>(a: seq<T>, i: nat, b: seq<T>)
    requires multiset(a) == multiset(b) && b != [] && i < |a| && a[i] == b[0]
    ensures multiset(Without(a, i)) == multiset(b[1..])
  {
    WithoutMultiset(a, i);
    WithoutMultiset(b, 0);
    assert Without(b, 0) == b[1..];
    assert multiset(Without(a, i)) == multiset(a) - multiset{b[0]};
  }
}

/** Facts about sequences and maps that many proofs use. */
module Sequences {

  lemma SplitLast<T>(s: seq<T>)
    requires s != []
    ensures s == s[..|s| - 1] + [s[|s| - 1]]
  {
  }

  lemma SplitFirst<T>(s: seq<T>)
    requires s != []
    ensures s == [s[0]] + s[1..]
  {
  }

  lemma InitOfSnoc<T>(s: seq<T>, x: T)
    ensures (s + [x])[..|s + [x]| - 1] == s && (s + [x])[|s + [x]| - 1] == x
  {
  }

  lemma Assoc<T>(a: seq<T>, b: seq<T>, c: seq<T>)
    ensures a + b + c == a + (b + c)
  {
  }

  /** Consecutive elements are related, each pair in its own way. */
  ghost predicate Chain<T>(xs: seq<T>, related: (nat, T, T) -> bool) {
    forall i | 0 <= i < |xs| - 1 :: related(i, xs[i], xs[i + 1])
  }

  lemma ChainSnoc<T>(xs: seq<T>, x: T, related: (nat, T, T) -> bool)
    requires xs != [] && Chain(xs, related) && related(|xs| - 1, xs[|xs| - 1], x)
    ensures Chain(xs + [x], related)
  {
    forall i | 0 <= i < |xs + [x]| - 1
      ensures related(i, (xs + [x])[i], (xs + [x])[i + 1])
    {
      if i < |xs| - 1 { assert related(i, xs[i], xs[i + 1]); }
    }
  }

  lemma InsertRight<K, V>(a: map<K, V>, b: map<K, V>, k: K, v: V)
    ensures a + b[k := v] == (a + b)[k := v]
  {
  }

  lemma Overwrite<K, V>(m: map<K, V>, k: K, a: V, b: V)
    ensures m[k := a][k := b] == m[k := b]
  {
  }

  ghost predicate SameAt<K, V>(a: map<K, V>, b: map<K, V>, k: K) {
    (k in a <==> k in b) && (k in a ==> a[k] == b[k])
  }

  lemma SameEverywhere<K(!new), V>(a: map<K, V>, b: map<K, V>)
    requires forall k: K :: SameAt(a, b, k)
    ensures a == b
  {
    forall k: K
      ensures k in a <==> k in b
      ensures k in a ==> a[k] == b[k]
    {
      assert SameAt(a, b, k);
    }
  }

  lemma MapUpdated<K(!new), V>(before: map<K, V>, after: map<K, V>, k: K, v: V)
    requires forall x :: x in after <==> x in before || x == k
    requires forall x | x in after :: after[x] == if x == k then v else before[x]
    ensures after == before[k := v]
  {
  }
}

/** Maps read as partial functions, concatenation, and the lesser of two numbers.

    Two maps are equal when they read the same at every key. */
module Collections {
  import opened Wrappers

  function Get<K, V>(m: map<K, V>, k: K): Option<V> {
    if k in m then Some(m[k]) else None
  }

  /** Maps with the same entries are equal. */
  lemma SameMap<K, V>(a: map<K, V>, b: map<K, V>)
    requires forall k :: Get(a, k) == Get(b, k)
    ensures a == b
  {
    forall k ensures k in a <==> k in b {
      assert Get(a, k) == Get(b, k);
    }
    forall k | k in a ensures a[k] == b[k] {
      assert Get(a, k) == Get(b, k);
    }
  }

  lemma Associative<T>(a: seq<T>, b: seq<T>, c: seq<T>)
    ensures a + (b + c) == a + b + c
  {
  }

  function Least(a: nat, b: nat): nat {
    if a <= b then a else b
  }
}

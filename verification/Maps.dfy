/** Finite maps as caches and stores use them. */
module Maps {
  import opened Options

  function Get<K, V>(m: map<K, V>, k: K): Option<V> {
    if k in m then Some(m[k]) else None
  }

  /** Everything `a` binds, `b` binds to the same value. */
  ghost predicate Submap<K, V>(a: map<K, V>, b: map<K, V>) {
    forall k :: k in a ==> k in b && b[k] == a[k]
  }
}

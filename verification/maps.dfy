/** Frame conditions over maps, shared by the keyspace and the lease table. */
module Maps {

  /** `key` holds the same value, or is missing, in both maps. */
  predicate SameEntry<K, V(==)>(a: map<K, V>, b: map<K, V>, key: K) {
    && (key in a <==> key in b)
    && (key in a ==> a[key] == b[key])
  }
}

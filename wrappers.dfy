/** Optional values, and the lookup of a key-value store that may miss. */
module Wrappers {

  datatype Option<+T> = None | Some(value: T)

  /** A store read: the value under `k`, or None when `k` was never set. */
  function Get<K, V>(m: map<K, V>, k: K): Option<V>
  {
    if k in m then Some(m[k]) else None
  }
}

/** Optional values, lookups and bytes, shared by every component. */
module Options {

  datatype Option<+T> = None | Some(value: T)

  type Byte = n: nat | n < 256

  function Lookup<K, V>(m: map<K, V>, k: K): Option<V> {
    if k in m then Some(m[k]) else None
  }
}

/** The stock datatype for a value that may be absent. */
module Wrappers {
  datatype Option<+T> = None | Some(value: T)

  /** Looks `k` up in `m`, as a dictionary's `get` does. */
  function Lookup<K, V>(m: map<K, V>, k: K): Option<V> {
    if k in m then Some(m[k]) else None
  }
}

/** The Option datatype used for values that JavaScript represents as
    `undefined` or `null`, and the keyed read that produces one. */
module Wrappers {

  datatype Option<+T> = None | Some(value: T)

  /** `obj[key]` on a plain object: the value, or `undefined` when absent. */
  function Lookup<K, V>(m: map<K, V>, key: K): Option<V> {
    if key in m then Some(m[key]) else None
  }

}

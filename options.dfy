/** A value that may be missing: JavaScript's `undefined` beside a present value. */
module Options {
  datatype Option<+T> = None | Some(value: T)

  /** `m[k]` in JavaScript terms: the value, or `undefined` when the key is absent. */
  function Lookup<K, V>(m: map<K, V>, k: K): (r: Option<V>)
    ensures r.Some? <==> k in m
    ensures r.Some? ==> r.value == m[k]
  {
    if k in m then Some(m[k]) else None
  }
}

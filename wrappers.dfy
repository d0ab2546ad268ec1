/** The optional value used for dictionary lookups and for integer conversions that may fail. */
module Wrappers {

  datatype Option<+T> = None | Some(value: T)

  /** Dictionary lookup that yields None for a missing key, as Python's `dict.get(key)` yields `None`. */
  function Get<K, V>(m: map<K, V>, k: K): (r: Option<V>)
    ensures r.Some? <==> k in m
    ensures r.Some? ==> r.value == m[k]
  {
    if k in m then Some(m[k]) else None
  }
}

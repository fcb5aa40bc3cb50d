/** Optional values and results, as Rust's `Option` and `Result` are used by the broker. */
module Options {

  datatype Option<+T> = None | Some(value: T) {
    function Or(other: Option<T>): (r: Option<T>)
      ensures r.None? <==> None? && other.None?
    {
      if Some? then this else other
    }
  }

  datatype Result<+T, +E> = Ok(value: T) | Err(error: E)

  /** `HashMap::get`. */
  function Get<K, V>(m: map<K, V>, k: K): (r: Option<V>)
    ensures r.Some? <==> k in m
    ensures r.Some? ==> r.value == m[k]
  {
    if k in m then Some(m[k]) else None
  }
}

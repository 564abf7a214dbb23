/** Python's `dict.get` on string-keyed dictionaries. */
module PyDicts {

  /** An article, or any other `dict` whose values are strings. */
  type Item = map<string, string>

  /** `m.get(key, default)`. */
  function Get<V>(m: map<string, V>, key: string, default: V): (v: V)
    ensures key in m ==> v == m[key]
    ensures key !in m ==> v == default
  {
    if key in m then m[key] else default
  }
}

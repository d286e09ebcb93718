/** The APOD record as the script sees it: the decoded JSON object, with
    every value a string, and the two Python idioms the script applies to
    it (`d.get(key)` and the truthiness of an optional string). */
module Record {
  import opened Wrappers

  /** The decoded JSON body of one APOD response, keyed by field name. */
  type Record = map<string, string>

  /** `rec.get(key)`: the value when the key is present, None otherwise. */
  function Get(rec: Record, key: string): (r: Option<string>)
    ensures r.Some? <==> key in rec
    ensures r.Some? ==> r.value == rec[key]
  {
    if key in rec then Some(rec[key]) else None
  }

  /** Python truthiness of a value that is either None or a string:
      None and the empty string are both false. */
  predicate Truthy(o: Option<string>)
  {
    o.Some? && o.value != ""
  }
}

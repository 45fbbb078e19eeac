/**
 * The value `json.loads` produces. Parsing itself is library behaviour and is
 * not modelled: wherever the source calls `json.loads`, the model takes a
 * `Parser`, a function that either yields a value or fails with the text of
 * the `JSONDecodeError`.
 */
module JsonValues {
  import opened Wrappers

  /** A decoded JSON document. Numbers are kept as integers; objects keep their key order. */
  datatype Json =
    | JNull
    | JBool(b: bool)
    | JNumber(n: int)
    | JString(s: string)
    | JArray(items: seq<Json>)
    | JObject(fields: seq<(string, Json)>)

  /** `json.loads`: a value, or the message of the decode error it raises. */
  type Parser = string -> Result<Json>

  /** `d.get(key)` on a decoded object; `json.loads` keeps the last of repeated keys. */
  function Get(fields: seq<(string, Json)>, key: string): (r: Option<Json>)
    ensures r.None? ==> forall i :: 0 <= i < |fields| ==> fields[i].0 != key
    ensures r.Some? ==> exists i :: 0 <= i < |fields| && fields[i] == (key, r.value)
  {
    if fields == [] then None
    else if fields[|fields| - 1].0 == key then Some(fields[|fields| - 1].1)
    else
      var r := Get(fields[..|fields| - 1], key);
      assert forall i :: 0 <= i < |fields| - 1 ==> fields[..|fields| - 1][i] == fields[i];
      r
  }
}

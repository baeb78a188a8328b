/** Parsed JSON as Python's `json.loads` returns it. The parser itself is an
    oracle (a function parameter of the coordinator); only the shape of its
    result is modelled here. */
module Json {
  import opened Wrappers

  datatype JsonValue =
    | JNull
    | JBool(b: bool)
    | JInt(i: int)
    | JFloat(f: real)
    | JStr(s: string)
    | JArr(items: seq<JsonValue>)
    | JObj(fields: Object)

  /** A JSON object as a Python dict: its entries in insertion order. A dict
      holds one entry per key (`json.loads` keeps the last of duplicated
      keys), so the parser oracle is taken to produce objects satisfying
      `DistinctKeys`; the sequence type itself does not enforce it. */
  type Object = seq<(string, JsonValue)>

  predicate DistinctKeys(obj: Object) {
    forall i, j :: 0 <= i < j < |obj| ==> obj[i].0 != obj[j].0
  }

  /** `obj.get(key)`: the value of the first entry for `key`. */
  function Get(obj: Object, key: string): (r: Option<JsonValue>)
    ensures r.None? <==> forall i :: 0 <= i < |obj| ==> obj[i].0 != key
    ensures r.Some? ==> exists i :: 0 <= i < |obj| && obj[i] == (key, r.value)
  {
    if |obj| == 0 then None
    else if obj[0].0 == key then Some(obj[0].1)
    else
      var r := Get(obj[1..], key);
      assert r.Some? ==> exists i :: 0 <= i < |obj[1..]| && obj[1..][i] == (key, r.value);
      r
  }

  /** With distinct keys, the lookup returns the one entry holding the key. */
  lemma {:induction false} GetDistinct(obj: Object, i: int)
    requires DistinctKeys(obj) && 0 <= i < |obj|
    ensures Get(obj, obj[i].0) == Some(obj[i].1)
    decreases |obj|
  {
    if i > 0 {
      assert obj[0].0 != obj[i].0;
      assert DistinctKeys(obj[1..]) by {
        forall a, b | 0 <= a < b < |obj[1..]| ensures obj[1..][a].0 != obj[1..][b].0 {
          assert obj[1..][a] == obj[a + 1] && obj[1..][b] == obj[b + 1];
        }
      }
      GetDistinct(obj[1..], i - 1);
    }
  }

  /** The keys of a dict, in iteration order. */
  function Keys(obj: Object): (r: seq<JsonValue>)
    ensures |r| == |obj|
    ensures forall i :: 0 <= i < |obj| ==> r[i] == JStr(obj[i].0)
  {
    seq(|obj|, i requires 0 <= i < |obj| => JStr(obj[i].0))
  }
}

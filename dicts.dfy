/**
 * A JavaScript plain object used as a dictionary with string keys, such as `addresses` and
 * `totalBalance`. Besides the key-to-value mapping, such an object remembers the order in which
 * its keys were first inserted: that is the order `for ... in`, `Object.keys` and `Object.values`
 * visit them. Assigning to a key that is already present overwrites its value and keeps its place.
 */
module Dicts {
  datatype Dict<V> = Dict(keys: seq<string>, values: map<string, V>)

  /** No key is listed twice. */
  predicate Distinct(keys: seq<string>) {
    forall i, j :: 0 <= i < j < |keys| ==> keys[i] != keys[j]
  }

  /** The key list has no repetitions and lists exactly the keys of the mapping. */
  predicate Valid<V>(d: Dict<V>) {
    Distinct(d.keys)
    && (forall k :: k in d.values ==> k in d.keys)
    && (forall k :: k in d.keys ==> k in d.values)
  }

  /** `{}`. */
  function Empty<V>(): (d: Dict<V>)
    ensures Valid(d) && d.values == map[] && d.keys == []
  {
    Dict([], map[])
  }

  /** `d[k] = v`. */
  function Put<V>(d: Dict<V>, k: string, v: V): (r: Dict<V>)
    ensures Valid(d) ==> Valid(r)
    ensures r.values == d.values[k := v]
    ensures d.keys <= r.keys
    ensures Valid(d) ==> k in r.keys
    ensures k in d.values ==> r.keys == d.keys
    ensures Valid(d) && k !in d.values ==> r.keys == d.keys + [k]
  {
    if k in d.values then Dict(d.keys, d.values[k := v])
    else
      assert Valid(d) ==> forall i :: 0 <= i < |d.keys| ==> d.keys[i] != k;
      Dict(d.keys + [k], d.values[k := v])
  }
}

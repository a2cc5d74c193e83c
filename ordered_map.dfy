/** A JavaScript `Map` (or a plain object used as one) keyed by strings: lookups by key, and iteration
    in insertion order, where overwriting an existing key keeps its original position. */
module OrderedMap {
  import opened Wrappers
  import Seqs

  datatype OMap<V> = OMap(keys: seq<string>, vals: map<string, V>) {

    /** Every key is listed once, in insertion order, and the listed keys are exactly the stored ones. */
    predicate Valid() {
      Seqs.NoDups(keys) && vals.Keys == set k | k in keys
    }

    function Get(k: string): Option<V> {
      if k in vals then Some(vals[k]) else None
    }

    /** `map.set(k, v)`: a new key goes to the end of the iteration order, an existing key keeps its place. */
    function Put(k: string, v: V): (r: OMap<V>)
      requires Valid()
      ensures r.Valid()
      ensures r.keys == if k in vals then keys else keys + [k]
      ensures r.vals == vals[k := v]
    {
      if k in vals then OMap(keys, vals[k := v])
      else OMap(keys + [k], vals[k := v])
    }

    /** `Array.from(map.values())`. */
    function Values(): (r: seq<V>)
      requires Valid()
      ensures |r| == |keys|
      ensures forall i :: 0 <= i < |keys| ==> r[i] == vals[keys[i]]
    {
      seq(|keys|, i requires 0 <= i < |keys| && Valid() => vals[keys[i]])
    }
  }

  function Empty<V>(): (m: OMap<V>)
    ensures m.Valid() && m.keys == []
  {
    OMap([], map[])
  }
}

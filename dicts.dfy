/**
 * A JavaScript object used as a dictionary: its own keys in enumeration order
 * (what `Object.keys` returns) and the value stored under each.
 */
module Dicts {

  datatype Dict<V> = Dict(keys: seq<string>, fields: map<string, V>) {

    /** The key list names every field exactly once. */
    ghost predicate Valid() {
      && (forall i, j :: 0 <= i < j < |keys| ==> keys[i] != keys[j])
      && (forall k :: k in fields <==> k in keys)
    }

    /**
     * `o[k] = v`: only the entry for `k` changes. A key that is new goes last
     * in the enumeration order; a key already present keeps its place.
     * (Keys that look like array indices enumerate first in JavaScript; the
     * keys both scripts write never do.)
     */
    function Put(k: string, v: V): (d: Dict<V>)
      ensures Valid() ==> d.Valid()
      ensures k in d.fields && d.fields[k] == v
      ensures forall k' :: k' != k ==> (k' in d.fields <==> k' in fields)
      ensures forall k' :: k' != k && k' in fields ==> d.fields[k'] == fields[k']
      ensures |keys| <= |d.keys| && d.keys[..|keys|] == keys
      ensures |d.keys| == |keys| + (if k in fields then 0 else 1)
    {
      Dict(if k in fields then keys else keys + [k], fields[k := v])
    }
  }

  /** `{}`. */
  function Empty<V>(): (d: Dict<V>)
    ensures d.Valid() && d.fields == map[] && d.keys == []
  {
    Dict([], map[])
  }

  /** Storing a key that is not yet present appends it to the key list. */
  lemma PutNewKey<V>(d: Dict<V>, k: string, v: V)
    requires k !in d.fields
    ensures d.Put(k, v).keys == d.keys + [k]
  {
  }

  /** A valid dictionary has as many fields as its key list has entries. */
  lemma {:induction false} ValidSize<V>(d: Dict<V>)
    requires d.Valid()
    ensures |d.fields| == |d.keys|
  {
    DistinctCard(d.keys);
    assert d.fields.Keys == set k | k in d.keys;
  }

  lemma {:induction false} DistinctCard(s: seq<string>)
    requires forall i, j :: 0 <= i < j < |s| ==> s[i] != s[j]
    ensures |set k | k in s| == |s|
  {
    if |s| > 0 {
      var t := s[..|s| - 1];
      var last := s[|s| - 1];
      DistinctCard(t);
      assert (set k | k in s) == (set k | k in t) + {last};
      assert last !in (set k | k in t);
    }
  }
}

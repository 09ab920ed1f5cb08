/** Python dictionaries keep their keys in insertion order, and several
    results of the creator depend on that order (the frontier, link
    numbering, the first matching connection). An `OMap` is a map together
    with the order in which its keys were first inserted. */
module OMaps {

  datatype OMap<K, V> = OMap(keys: seq<K>, values: map<K, V>) {

    /** The keys are distinct and are exactly the keys of the map. */
    ghost predicate Valid() {
      (forall i, j :: 0 <= i < j < |keys| ==> keys[i] != keys[j]) &&
      values.Keys == (set k | k in keys)
    }

    /** `d[k] = v`: a new key goes to the end, an existing key keeps its
        place and gets the new value. This is the dictionary primitive; its
        ensures describe the new state, and the properties built on it are
        stated by the lemmas of the modules that use it. */
    function Put(k: K, v: V): (r: OMap<K, V>)
      ensures Valid() ==> r.Valid()
      ensures r.keys == if k in values then keys else keys + [k]
      ensures r.values == values[k := v]
    {
      if k in values then OMap(keys, values[k := v]) else OMap(keys + [k], values[k := v])
    }

    /** Puts the keys `ks`, in order, with their values in `src`. */
    function PutAll(ks: seq<K>, src: map<K, V>): (r: OMap<K, V>)
      requires Valid()
      requires forall k :: k in ks ==> k in src
      ensures r.Valid()
      ensures r.values == values + (map k | k in ks :: src[k])
      ensures keys <= r.keys
      decreases |ks|
    {
      if ks == [] then
        this
      else
        var r := Put(ks[0], src[ks[0]]).PutAll(ks[1..], src);
        PutFirst(values, ks, src);
        r
    }

    /** `d.update(other)`: the entries of `other` put one by one, in order. */
    function Update(other: OMap<K, V>): (r: OMap<K, V>)
      requires Valid() && other.Valid()
      ensures r.Valid()
      ensures r.values == values + other.values
      ensures keys <= r.keys
    {
      assert (map k | k in other.keys :: other.values[k]) == other.values;
      PutAll(other.keys, other.values)
    }
  }

  /** Putting the first key and then the rest is putting them all. */
  lemma PutFirst<K, V>(values: map<K, V>, ks: seq<K>, src: map<K, V>)
    requires |ks| > 0
    requires forall k :: k in ks ==> k in src
    ensures values[ks[0] := src[ks[0]]] + (map k | k in ks[1..] :: src[k]) == values + (map k | k in ks :: src[k])
  {
    var m := map k | k in ks :: src[k];
    var m' := map k | k in ks[1..] :: src[k];
    var lhs := values[ks[0] := src[ks[0]]] + m';
    assert m.Keys == (set k | k in ks) && m'.Keys == (set k | k in ks[1..]);
    forall k ensures k in lhs <==> k in values + m {
      assert k in ks <==> k == ks[0] || k in ks[1..];
    }
    forall k | k in lhs ensures lhs[k] == (values + m)[k] {
      if k in ks[1..] {
        assert k in ks;
      } else if k == ks[0] {
      } else {
        assert k !in m;
      }
    }
  }

  function Empty<K, V>(): (r: OMap<K, V>)
    ensures r.Valid() && r.keys == [] && r.values == map[]
  {
    OMap([], map[])
  }
}

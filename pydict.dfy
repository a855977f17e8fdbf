/**
 * Python dictionaries as the allocator uses them: a key order (insertion
 * order, which assignment to an existing key keeps) and the key-value map.
 */
module PyDict {

  import opened Common

  datatype Dict<K(==), V(==)> = Dict(keys: seq<K>, at: map<K, V>)
  {
    /** Keys are distinct and exactly the domain of the map. */
    ghost predicate Valid()
    {
      && Distinct(keys)
      && (forall k :: k in at ==> k in keys)
      && (forall k :: k in keys ==> k in at)
    }

    /** `d[k] = v`: an existing key keeps its place, a new key goes last. */
    function Set(k: K, v: V): (d: Dict<K, V>)
      requires Valid()
      ensures d.Valid()
      ensures d.at == at[k := v]
      ensures k in keys ==> d.keys == keys
      ensures k !in keys ==> d.keys == keys + [k]
    {
      if k in at then Dict(keys, at[k := v])
      else
        DistinctSnoc(keys, k);
        Dict(keys + [k], at[k := v])
    }

    /** `[k for k, x in d.items() if x == v]`. */
    function KeysWith(v: V): (r: seq<K>)
      requires Valid()
      ensures forall k :: k in r ==> k in keys && at[k] == v
      ensures forall k :: k in keys && at[k] == v ==> k in r
      ensures Distinct(r)
    {
      Select(keys, at, v)
    }

    /** `d.values()`, in key order. */
    function Values(): (vs: seq<V>)
      requires Valid()
      ensures |vs| == |keys|
      ensures forall i :: 0 <= i < |keys| ==> vs[i] == at[keys[i]]
    {
      seq(|keys|, i requires 0 <= i < |keys| => at[keys[i]])
    }
  }

  /** The dictionary `{k: v for k in ks}`. */
  function FromKeys<K(==), V(==)>(ks: seq<K>, v: V): (d: Dict<K, V>)
    requires Distinct(ks)
    ensures d.Valid() && d.keys == ks
    ensures forall k :: k in ks ==> d.at[k] == v
  {
    Dict(ks, map k | k in ks :: v)
  }

  /** The keys of `ks`, in order, that `m` maps to `v`. */
  function Select<K(==), V(==)>(ks: seq<K>, m: map<K, V>, v: V): (r: seq<K>)
    requires forall k :: k in ks ==> k in m
    requires Distinct(ks)
    ensures forall k :: k in r ==> k in ks && m[k] == v
    ensures forall k :: k in ks && m[k] == v ==> k in r
    ensures Distinct(r)
  {
    if ks == [] then []
    else
      DistinctTail(ks);
      var rest := Select(ks[1..], m, v);
      if m[ks[0]] == v then DistinctCons(ks[0], rest); [ks[0]] + rest else rest
  }

  /** The elements of `s` not in `gone`, in order. */
  function Without<K>(s: seq<K>, gone: set<K>): (r: seq<K>)
    ensures forall k :: k in r ==> k in s && k !in gone
    ensures forall k :: k in s && k !in gone ==> k in r
  {
    if s == [] then [] else if s[0] in gone then Without(s[1..], gone) else [s[0]] + Without(s[1..], gone)
  }

  /**
   * Changing values only on keys of `gone`, and never to `v`, removes
   * exactly those keys from the keys selected by `v`, keeping the order.
   */
  lemma {:induction false} SelectAfterRemoval<K, V>(ks: seq<K>, m: map<K, V>, m2: map<K, V>, v: V, gone: set<K>)
    requires forall k :: k in ks ==> k in m && k in m2
    requires Distinct(ks)
    requires forall k :: k in ks ==> (m2[k] == v <==> m[k] == v && k !in gone)
    ensures Select(ks, m2, v) == Without(Select(ks, m, v), gone)
  {
    if ks != [] {
      DistinctTail(ks);
      SelectAfterRemoval(ks[1..], m, m2, v, gone);
    }
  }
}

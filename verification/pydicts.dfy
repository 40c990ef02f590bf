/** Python's built-in `dict` as the modelled code uses it: a finite map that
    remembers the order in which keys were first inserted. `keys` is that order
    and `vals` the mapping; `Valid` ties the two together. */
module PyDicts {
  import Seqs

  datatype Dict<K(==), V> = Dict(keys: seq<K>, vals: map<K, V>) {

    /** Every key is listed once, and exactly the mapped keys are listed. */
    predicate Valid() {
      && Seqs.Distinct(keys)
      && vals.Keys == (set k | k in keys)
    }
  }

  /** `{}` */
  function Empty<K(==), V>(): (d: Dict<K, V>)
    ensures d.Valid() && d.keys == [] && d.vals == map[]
  {
    Dict([], map[])
  }

  /** `d[k] = v`: an existing key keeps its position, a new key goes last. */
  function Set<K(==), V>(d: Dict<K, V>, k: K, v: V): (r: Dict<K, V>)
    requires d.Valid()
    ensures r.Valid()
    ensures k in r.vals && r.vals[k] == v
    ensures r.vals.Keys == d.vals.Keys + {k}
    ensures forall k' :: k' in d.vals && k' != k ==> r.vals[k'] == d.vals[k']
    ensures k in d.vals ==> r.keys == d.keys
    ensures k !in d.vals ==> r.keys == d.keys + [k]
  {
    if k in d.vals then Dict(d.keys, d.vals[k := v]) else Dict(d.keys + [k], d.vals[k := v])
  }

  /** `d.setdefault(k, v)`: inserts `k` with `v` only when `k` is absent. */
  function SetDefault<K(==), V>(d: Dict<K, V>, k: K, v: V): (r: Dict<K, V>)
    requires d.Valid()
    ensures r.Valid()
    ensures k in r.vals && r.vals[k] == (if k in d.vals then d.vals[k] else v)
    ensures r.vals.Keys == d.vals.Keys + {k}
    ensures forall k' :: k' in d.vals && k' != k ==> r.vals[k'] == d.vals[k']
    ensures r.keys == if k in d.vals then d.keys else d.keys + [k]
  {
    if k in d.vals then d else Set(d, k, v)
  }

  /** `list(d.values())`, in key insertion order. */
  function Values<K(==), V>(d: Dict<K, V>): (r: seq<V>)
    requires d.Valid()
    ensures |r| == |d.keys|
    ensures forall i :: 0 <= i < |r| ==> r[i] == d.vals[d.keys[i]]
  {
    seq(|d.keys|, i requires 0 <= i < |d.keys| => d.vals[d.keys[i]])
  }

  /** After `d.setdefault(k, v)`, `list(d.values())` is unchanged when `k` was
      present and gains `v` at the end when it was new. */
  lemma ValuesSetDefault<K, V>(d: Dict<K, V>, k: K, v: V)
    requires d.Valid()
    ensures Values(SetDefault(d, k, v)) == if k in d.vals then Values(d) else Values(d) + [v]
  {
    if k !in d.vals {
      var r := SetDefault(d, k, v);
      assert forall i :: 0 <= i < |d.keys| ==> r.keys[i] == d.keys[i] && r.vals[d.keys[i]] == d.vals[d.keys[i]];
    }
  }

  /** Assigning to a present key replaces its value in place in `list(d.values())`. */
  lemma ValuesSet<K, V>(d: Dict<K, V>, k: K, v: V, i: nat)
    requires d.Valid() && i < |d.keys| && d.keys[i] == k
    ensures Values(Set(d, k, v)) == Values(d)[i := v]
  {
    var r := Set(d, k, v);
    forall j | 0 <= j < |d.keys|
      ensures Values(r)[j] == Values(d)[i := v][j]
    {
      if j != i {
        assert d.keys[j] != k;
      }
    }
  }

  /** The first value given for a key is the one that stays: a second
      `setdefault` on the same key changes nothing, whatever its default. */
  lemma SetDefaultFirstWins<K, V>(d: Dict<K, V>, k: K, v: V, w: V)
    requires d.Valid()
    ensures SetDefault(SetDefault(d, k, v), k, w) == SetDefault(d, k, v)
    ensures SetDefault(SetDefault(d, k, v), k, w).vals[k] == (if k in d.vals then d.vals[k] else v)
  {
  }
}

/** Python's `dict`: a finite map that remembers the order in which its keys were first inserted. */
module PyDict {

  datatype DictRep<K, V> = DictRep(keys: seq<K>, vals: map<K, V>) {
    /** Every key is listed once, and the listed keys are exactly the mapped ones. */
    predicate Valid() {
      && (forall i, j {:trigger KeyAt(keys, i), KeyAt(keys, j)} :: 0 <= i < j < |keys| ==> KeyAt(keys, i) != KeyAt(keys, j))
      && (forall k :: k in vals ==> k in keys)
      && (forall k :: k in keys ==> k in vals)
    }
  }

  /**
   * The key at a position. Distinctness is stated on it rather than on indexing, so that it is
   * brought in only where `KeysDistinct` asks for it.
   */
  function KeyAt<K>(keys: seq<K>, i: int): K
    requires 0 <= i < |keys|
  {
    keys[i]
  }

  /** No key is listed twice. */
  lemma KeysDistinct<K, V>(d: Dict<K, V>)
    ensures forall i, j :: 0 <= i < j < |d.keys| ==> d.keys[i] != d.keys[j]
  {
    forall i, j | 0 <= i < j < |d.keys|
      ensures d.keys[i] != d.keys[j]
    {
      assert KeyAt(d.keys, i) != KeyAt(d.keys, j);
    }
  }

  type Dict<K, V> = d: DictRep<K, V> | d.Valid() witness DictRep([], map[])

  function Empty<K, V>(): (r: Dict<K, V>)
    ensures r.keys == [] && r.vals == map[]
  {
    DictRep([], map[])
  }

  /** `d[k] = v`: a new key goes to the end, an existing key keeps its place. */
  function Put<K, V>(d: Dict<K, V>, k: K, v: V): (r: Dict<K, V>)
    ensures r.vals == d.vals[k := v]
    ensures r.keys == if k in d.vals then d.keys else d.keys + [k]
  {
    if k in d.vals then DictRep(d.keys, d.vals[k := v]) else KeysDistinct(d); DictRep(d.keys + [k], d.vals[k := v])
  }

  /** `d.get(k, default)`. */
  function Get<K, V>(d: Dict<K, V>, k: K, default: V): V {
    if k in d.vals then d.vals[k] else default
  }

  /** `list(d.items())`. */
  function Items<K, V>(d: Dict<K, V>): (r: seq<(K, V)>)
    ensures |r| == |d.keys|
    ensures forall i :: 0 <= i < |r| ==> r[i].0 == d.keys[i] && r[i].1 == d.vals[d.keys[i]]
  {
    seq(|d.keys|, i requires 0 <= i < |d.keys| => (d.keys[i], d.vals[d.keys[i]]))
  }

  /** `list(d.values())`. */
  function Values<K, V>(d: Dict<K, V>): (r: seq<V>)
    ensures |r| == |d.keys|
    ensures forall i :: 0 <= i < |r| ==> r[i] == d.vals[d.keys[i]]
  {
    seq(|d.keys|, i requires 0 <= i < |d.keys| => d.vals[d.keys[i]])
  }
}

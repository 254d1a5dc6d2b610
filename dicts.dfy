/** Python's insertion-ordered `dict`: the keys in insertion order, and the value of each. */
module Dicts {
  import opened Wrappers
  import opened Text

  datatype Dict<K(==,!new), V> = Dict(keys: seq<K>, values: map<K, V>)

  /** Every listed key has a value. */
  predicate Valid<K(==,!new), V>(d: Dict<K, V>) {
    forall i :: 0 <= i < |d.keys| ==> d.keys[i] in d.values
  }

  function Empty<K(==,!new), V>(): (d: Dict<K, V>)
    ensures Valid(d) && d.keys == [] && NoDup(d.keys)
  {
    Dict([], map[])
  }

  /** `d.get(k)`: the value stored under `k`, or `None` when `k` is not a key. */
  function Get<K(==,!new), V>(d: Dict<K, V>, k: K): (r: Option<V>)
    requires Valid(d)
    ensures r.Some? <==> k in d.keys
  {
    if k in d.keys then Some(d.values[k]) else None
  }

  /** `d.get(k, default)` */
  function GetOr<K(==,!new), V>(d: Dict<K, V>, k: K, default: V): (r: V)
    requires Valid(d)
    ensures k !in d.keys ==> r == default
    ensures k in d.keys ==> Some(r) == Get(d, k)
  {
    Get(d, k).GetOr(default)
  }

  /** `d[k] = v`: an existing key keeps its position, a new key goes to the end. */
  function Put<K(==,!new), V>(d: Dict<K, V>, k: K, v: V): (r: Dict<K, V>)
    requires Valid(d)
    ensures Valid(r)
    ensures Get(r, k) == Some(v)
    ensures forall k' :: k' != k ==> Get(r, k') == Get(d, k')
    ensures k in d.keys ==> r.keys == d.keys
    ensures k !in d.keys ==> r.keys == d.keys + [k]
  {
    Dict(if k in d.keys then d.keys else d.keys + [k], d.values[k := v])
  }

  /** A key is never listed twice: writing keeps the keys free of duplicates. */
  lemma PutNoDup<K(!new), V>(d: Dict<K, V>, k: K, v: V)
    requires Valid(d) && NoDup(d.keys)
    ensures NoDup(Put(d, k, v).keys)
  {
    if k !in d.keys {
      var ks := d.keys + [k];
      forall i, j | 0 <= i < j < |ks| ensures ks[i] != ks[j] {
        if j == |d.keys| {
          assert ks[i] == d.keys[i];
        }
      }
    }
  }

  /** Writing a key twice keeps only the second value, and the key keeps its first position. */
  lemma PutPut<K(!new), V>(d: Dict<K, V>, k: K, v1: V, v2: V)
    requires Valid(d)
    ensures Put(Put(d, k, v1), k, v2) == Put(d, k, v2)
  {
    assert d.values[k := v1][k := v2] == d.values[k := v2];
  }

  /** Writing back the value a key already holds changes nothing. */
  lemma PutSame<K(!new), V>(d: Dict<K, V>, k: K)
    requires Valid(d) && k in d.keys
    ensures Put(d, k, d.values[k]) == d
  {
    assert d.values[k := d.values[k]] == d.values;
  }
}

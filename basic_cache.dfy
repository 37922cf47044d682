/**
 * `BasicCache` (0x01-caching/0-basic_cache.py): a dictionary without any
 * capacity bound. `put` ignores a `None` key or item; `get` answers `None`
 * for a `None` or absent key.
 */
module BasicCaching {
  import opened Wrappers

  /** What `cache_data` is after `put(key, item)`. */
  function PutState<K(==), V>(cacheData: map<K, V>, key: Option<K>, item: Option<V>): (r: map<K, V>)
    ensures key.None? || item.None? ==> r == cacheData
    ensures key.Some? && item.Some? ==> key.value in r && r[key.value] == item.value
    ensures forall k | k in cacheData && (key.None? || item.None? || k != key.value) :: k in r && r[k] == cacheData[k]
    ensures forall k | k in r :: k in cacheData || (key.Some? && item.Some? && k == key.value)
    ensures |r| == if key.Some? && item.Some? && key.value !in cacheData then |cacheData| + 1 else |cacheData|
  {
    if key.None? || item.None? then cacheData else cacheData[key.value := item.value]
  }

  /** After `put(k, v)` of non-`None` values, `get(k)` answers `v`, whatever the cache held. */
  lemma PutThenGet<K, V>(cacheData: map<K, V>, k: K, v: V, other: K)
    ensures Lookup(PutState(cacheData, Some(k), Some(v)), Some(k)) == Some(v)
    ensures other != k ==> Lookup(PutState(cacheData, Some(k), Some(v)), Some(other)) == Lookup(cacheData, Some(other))
  {
  }

  /** What `get(key)` answers for a given `cache_data`. */
  function Lookup<K(==), V>(cacheData: map<K, V>, key: Option<K>): (r: Option<V>)
    ensures r.Some? <==> key.Some? && key.value in cacheData
    ensures r.Some? ==> r.value == cacheData[key.value]
  {
    if key.None? || key.value !in cacheData then None else Some(cacheData[key.value])
  }

  /** The cache: `cache_data` is the one attribute, changed in place by `put`. */
  class BasicCache<K(==), V> {
    var cacheData: map<K, V>

    /** `BasicCache()`: starts empty. */
    constructor ()
      ensures cacheData == map[]
    {
      cacheData := map[];
    }

    /** `put(key, item)`: stores `item` under `key` unless either is `None`. */
    method Put(key: Option<K>, item: Option<V>)
      modifies this
      ensures cacheData == PutState(old(cacheData), key, item)
    {
      if key.None? || item.None? {
        return;
      }
      cacheData := cacheData[key.value := item.value];
    }

    /** `get(key)`: the stored item, or `None`; the cache is not changed. */
    method Get(key: Option<K>) returns (r: Option<V>)
      ensures r == Lookup(cacheData, key)
    {
      if key.None? || key.value !in cacheData {
        return None;
      }
      return Some(cacheData[key.value]);
    }
  }
}

/**
 * `LIFOCache` (0x01-caching/2-lifo_cache.py): an `OrderedDict` in insertion
 * order that, when `put` finds it full, first drops its last entry and then
 * stores the item. The capacity test comes before any test of whether the
 * key is already present, so re-putting a present key into a full cache
 * still drops the last entry.
 */
module LifoCaching {
  import opened Wrappers
  import opened OrderedDicts
  import opened BaseCaching

  /**
   * What `cache_data` is after `put(key, item)`, with the discarded key.
   * The order of `cache_data` is the order in which keys were first stored.
   */
  function PutState<K(==), V>(d: OrderedDict<K, V>, key: Option<K>, item: Option<V>, maxItems: MaxItems)
    : (r: (OrderedDict<K, V>, Option<K>))
    requires d.Valid()
    ensures r.0.Valid()
    ensures key.None? || item.None? ==> r == (d, None)
    ensures r.1.Some? <==> key.Some? && item.Some? && |d.keys| >= maxItems
    ensures r.1.Some? ==> r.1.value == d.keys[|d.keys| - 1]
    ensures key.Some? && item.Some? ==>
      var kept := if r.1.Some? then d.keys[..|d.keys| - 1] else d.keys;
      && r.0.keys == (if key.value in kept then kept else kept + [key.value])
      && r.0.data == (if r.1.Some? then d.data - {r.1.value} else d.data)[key.value := item.value]
    ensures |d.keys| <= maxItems ==> |r.0.keys| <= maxItems
  {
    if key.None? || item.None? then (d, None)
    else if d.Len() >= maxItems then
      var (discard, rest) := d.PopItem();
      (rest.Assign(key.value, item.value), Some(discard))
    else
      (d.Assign(key.value, item.value), None)
  }

  /** After `put(k, v)` of non-`None` values, `get(k)` answers `v`. */
  lemma PutThenGet<K, V>(d: OrderedDict<K, V>, k: K, v: V, maxItems: MaxItems)
    requires d.Valid()
    ensures PutState(d, Some(k), Some(v), maxItems).0.Get(k) == Some(v)
  {
  }

  /**
   * The consequence of testing the capacity first: re-putting a present key
   * that is not the last one into a full cache discards the last key and
   * leaves one entry fewer than `MAX_ITEMS`.
   */
  lemma OverwriteWhenFullShrinks<K, V>(d: OrderedDict<K, V>, k: K, v: V, maxItems: MaxItems)
    requires d.Valid() && |d.keys| == maxItems
    requires k in d.data && k != d.keys[|d.keys| - 1]
    ensures var (d', discarded) := PutState(d, Some(k), Some(v), maxItems);
      && discarded == Some(d.keys[|d.keys| - 1])
      && d.keys[|d.keys| - 1] !in d'.data
      && |d'.keys| == maxItems - 1
  {
    var kept := d.keys[..|d.keys| - 1];
    var i :| 0 <= i < |d.keys| && d.keys[i] == k;
    assert kept[i] == k;
    assert d.Len() >= maxItems;
  }

  /** The cache: `cache_data` is an `OrderedDict` changed in place. */
  class LIFOCache<K(==), V> {
    const maxItems: MaxItems
    var cacheData: OrderedDict<K, V>

    ghost predicate Valid()
      reads this
    {
      cacheData.Valid()
    }

    /** `LIFOCache()`: starts with an empty `OrderedDict`. */
    constructor (maxItems: MaxItems)
      ensures Valid() && this.maxItems == maxItems && cacheData == Empty()
    {
      this.maxItems := maxItems;
      cacheData := Empty();
    }

    /** `put(key, item)`: when full, pop the last entry; then store the item. */
    method Put(key: Option<K>, item: Option<V>) returns (discarded: Option<K>)
      requires Valid()
      modifies this
      ensures Valid()
      ensures (cacheData, discarded) == PutState(old(cacheData), key, item, maxItems)
    {
      discarded := None;
      if key.None? || item.None? {
        return;
      }
      if cacheData.Len() >= maxItems {
        var (discard, rest) := cacheData.PopItem();
        cacheData := rest;
        discarded := Some(discard);
      }
      cacheData := cacheData.Assign(key.value, item.value);
    }

    /** `get(key)`: the stored item, or `None`; neither the entries nor their order change. */
    method Get(key: Option<K>) returns (r: Option<V>)
      ensures r.Some? <==> key.Some? && key.value in cacheData.data
      ensures r.Some? ==> r.value == cacheData.data[key.value]
    {
      if key.None? {
        return None;
      }
      return cacheData.Get(key.value);
    }
  }
}

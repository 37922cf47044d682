/**
 * `MRUCache` (0x01-caching/4-mru_cache.py): an `OrderedDict` kept in order
 * of use, the most recently used key last. `put` and a successful `get` move
 * their key to the end; `put` of a new key into a full cache first drops the
 * last key, the most recently used one.
 */
module MruCaching {
  import opened Wrappers
  import opened OrderedDicts
  import opened BaseCaching

  /** What `cache_data` is after `put(key, item)`, with the discarded key. */
  function PutState<K(==), V>(d: OrderedDict<K, V>, key: Option<K>, item: Option<V>, maxItems: MaxItems)
    : (r: (OrderedDict<K, V>, Option<K>))
    requires d.Valid()
    ensures r.0.Valid()
    ensures key.None? || item.None? ==> r == (d, None)
    ensures r.1.Some? <==> key.Some? && item.Some? && key.value !in d.data && |d.keys| >= maxItems
    ensures r.1.Some? ==> r.1.value == d.keys[|d.keys| - 1]
    ensures key.Some? && item.Some? ==>
      var kept := if r.1.Some? then d.keys[..|d.keys| - 1] else d.keys;
      && r.0.keys == Remove(kept, key.value) + [key.value]
      && r.0.data == (if r.1.Some? then d.data - {r.1.value} else d.data)[key.value := item.value]
    ensures key.Some? && item.Some? && key.value in d.data ==> |r.0.keys| == |d.keys|
    ensures |d.keys| <= maxItems ==> |r.0.keys| <= maxItems
  {
    if key.None? || item.None? then (d, None)
    else if key.value in d.data then
      (d.MoveToEnd(key.value).Assign(key.value, item.value), None)
    else if d.Len() >= maxItems then
      var (discard, rest) := d.PopItem();
      (rest.Assign(key.value, item.value), Some(discard))
    else
      (d.Assign(key.value, item.value), None)
  }

  /** What `cache_data` is after `get(key)`, with the answer. */
  function GetState<K(==), V>(d: OrderedDict<K, V>, key: Option<K>): (r: (OrderedDict<K, V>, Option<V>))
    requires d.Valid()
    ensures r.0.Valid() && r.0.data == d.data
    ensures r.1.Some? <==> key.Some? && key.value in d.data
    ensures r.1.Some? ==> r.1.value == d.data[key.value] && r.0.keys == Remove(d.keys, key.value) + [key.value]
    ensures r.1.None? ==> r.0 == d
  {
    if key.None? || key.value !in d.data then (d, None)
    else (d.MoveToEnd(key.value), Some(d.data[key.value]))
  }

  /** After `put(k, v)` of non-`None` values, `get(k)` answers `v`. */
  lemma PutThenGet<K, V>(d: OrderedDict<K, V>, k: K, v: V, maxItems: MaxItems)
    requires d.Valid()
    ensures GetState(PutState(d, Some(k), Some(v), maxItems).0, Some(k)).1 == Some(v)
  {
  }

  /**
   * A successful `get` moves only its key: the other keys keep their
   * relative order, and the key just read is the most recently used.
   */
  lemma {:induction false} GetKeepsOthersInOrder<K, V>(d: OrderedDict<K, V>, k: K, i: nat, j: nat)
    requires d.Valid() && k in d.data
    requires i < j < |d.keys| && d.keys[i] != k && d.keys[j] != k
    ensures var keys := GetState(d, Some(k)).0.keys;
      exists i', j' :: 0 <= i' < j' < |keys| - 1 && keys[i'] == d.keys[i] && keys[j'] == d.keys[j]
  {
    RemoveKeepsOrder(d.keys, k, i, j);
    var others := Remove(d.keys, k);
    var i', j' :| 0 <= i' < j' < |others| && others[i'] == d.keys[i] && others[j'] == d.keys[j];
    var keys := GetState(d, Some(k)).0.keys;
    assert keys == others + [k];
    assert keys[i'] == d.keys[i] && keys[j'] == d.keys[j];
  }

  /** Removing one value from a sequence keeps the relative order of the others. */
  lemma {:induction false} RemoveKeepsOrder<K>(s: seq<K>, k: K, i: nat, j: nat)
    requires i < j < |s| && s[i] != k && s[j] != k
    ensures exists i', j' :: 0 <= i' < j' < |Remove(s, k)| && Remove(s, k)[i'] == s[i] && Remove(s, k)[j'] == s[j]
  {
    var rest := Remove(s[1..], k);
    if i == 0 {
      assert s[j] in s[1..];
      var j' :| 0 <= j' < |rest| && rest[j'] == s[j];
      assert Remove(s, k) == [s[0]] + rest;
      assert Remove(s, k)[0] == s[0] && Remove(s, k)[j' + 1] == s[j];
    } else {
      RemoveKeepsOrder(s[1..], k, i - 1, j - 1);
      var i', j' :| 0 <= i' < j' < |rest| && rest[i'] == s[i] && rest[j'] == s[j];
      var head := if s[0] == k then [] else [s[0]];
      assert Remove(s, k) == head + rest;
      assert Remove(s, k)[|head| + i'] == s[i] && Remove(s, k)[|head| + j'] == s[j];
    }
  }

  /** The cache: `cache_data` is an `OrderedDict` changed in place by `put` and `get`. */
  class MRUCache<K(==), V> {
    const maxItems: MaxItems
    var cacheData: OrderedDict<K, V>

    ghost predicate Valid()
      reads this
    {
      cacheData.Valid()
    }

    /** `MRUCache()`: starts with an empty `OrderedDict`. */
    constructor (maxItems: MaxItems)
      ensures Valid() && this.maxItems == maxItems && cacheData == Empty()
    {
      this.maxItems := maxItems;
      cacheData := Empty();
    }

    /** `put(key, item)`: refresh a present key, or make room for a new one; then store. */
    method Put(key: Option<K>, item: Option<V>) returns (discarded: Option<K>)
      requires Valid()
      modifies this
      ensures Valid()
      ensures (cacheData, discarded) == PutState(old(cacheData), key, item, maxItems)
    {
      discarded := None;
      if key.None? || item.None? {
        return;
      }
      if key.value in cacheData.data {
        cacheData := cacheData.MoveToEnd(key.value);
      } else if cacheData.Len() >= maxItems {
        var (discard, rest) := cacheData.PopItem();
        cacheData := rest;
        discarded := Some(discard);
      }
      cacheData := cacheData.Assign(key.value, item.value);
    }

    /** `get(key)`: the stored item, moving its key to the end; `None` changes nothing. */
    method Get(key: Option<K>) returns (r: Option<V>)
      requires Valid()
      modifies this
      ensures Valid()
      ensures (cacheData, r) == GetState(old(cacheData), key)
    {
      if key.None? || key.value !in cacheData.data {
        return None;
      }
      cacheData := cacheData.MoveToEnd(key.value);
      return Some(cacheData.data[key.value]);
    }
  }
}

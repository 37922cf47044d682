/**
 * Python's `collections.OrderedDict`, as the caches use it: a mapping whose
 * keys also remember an order. A new key goes to the end; assigning to a key
 * already present keeps its place; `popitem()` removes the last key,
 * `pop(k)` removes `k`, `move_to_end(k)` moves `k` to the end, and
 * `next(iter(d))` is the first key.
 */
module OrderedDicts {
  import opened Wrappers

  /** No element occurs twice in `s`. */
  ghost predicate Distinct<K>(s: seq<K>) {
    forall i, j :: 0 <= i < j < |s| ==> s[i] != s[j]
  }

  /** `s` without `k`: every other element, in the order of `s`. */
  function Remove<K(==)>(s: seq<K>, k: K): (r: seq<K>)
    ensures forall x | x in r :: x in s && x != k
    ensures forall x | x in s && x != k :: x in r
    ensures Distinct(s) ==> Distinct(r)
    ensures Distinct(s) && k in s ==> |r| == |s| - 1
    ensures k !in s ==> r == s
  {
    if s == [] then []
    else
      var rest := Remove(s[1..], k);
      assert Distinct(s) ==> Distinct(s[1..]) && s[0] !in s[1..];
      (if s[0] == k then [] else [s[0]]) + rest
  }

  /** In a sequence without repetitions, removing the first element leaves the rest. */
  lemma RemoveFirst<K>(s: seq<K>)
    requires Distinct(s) && |s| > 0
    ensures Remove(s, s[0]) == s[1..]
  {
    assert s[0] !in s[1..];
  }

  /** In a sequence without repetitions, removing the last element leaves the prefix. */
  lemma {:induction false} RemoveLast<K>(s: seq<K>)
    requires Distinct(s) && |s| > 0
    ensures Remove(s, s[|s| - 1]) == s[..|s| - 1]
  {
    if |s| > 1 {
      RemoveLast(s[1..]);
      assert s[1..][..|s| - 2] == s[1..|s| - 1];
      assert s[..|s| - 1] == [s[0]] + s[1..|s| - 1];
    }
  }

  /** In a sequence without repetitions, removing the element at `m` closes the gap it leaves. */
  lemma {:induction false} RemoveAt<K>(s: seq<K>, m: nat)
    requires Distinct(s) && m < |s|
    ensures Remove(s, s[m]) == s[..m] + s[m + 1..]
  {
    if m == 0 {
      RemoveFirst(s);
    } else {
      var t := s[1..];
      assert t[m - 1] == s[m] && s[0] != s[m];
      RemoveAt(t, m - 1);
      assert Remove(s, s[m]) == [s[0]] + (t[..m - 1] + t[m..]);
      assert t[..m - 1] == s[1..m] && t[m..] == s[m + 1..];
      assert [s[0]] + s[1..m] == s[..m];
    }
  }

  /** A sequence without repetitions has as many elements as the set of its elements. */
  lemma {:induction false} DistinctCard<K>(s: seq<K>, ks: set<K>)
    requires Distinct(s)
    requires forall k | k in ks :: k in s
    requires forall k | k in s :: k in ks
    ensures |ks| == |s|
  {
    if s != [] {
      var rest := ks - {s[0]};
      forall k | k in rest || k in s[1..] ensures k in rest <==> k in s[1..] {
        if k in s[1..] {
          var j :| 0 <= j < |s[1..]| && s[1..][j] == k;
          assert s[j + 1] == k;
        }
        if k in s && k != s[0] {
          var j :| 0 <= j < |s| && s[j] == k;
          assert s[1..][j - 1] == k;
        }
      }
      DistinctCard(s[1..], rest);
    }
  }

  /** An `OrderedDict`: its keys in order, and what each key maps to. */
  datatype OrderedDict<K(==), V> = OrderedDict(keys: seq<K>, data: map<K, V>) {

    /** Every key occurs once in the order, and the order holds exactly the mapped keys. */
    ghost predicate Valid() {
      && Distinct(keys)
      && (forall k | k in data :: k in keys)
      && (forall k | k in keys :: k in data)
    }

    /** `len(d)`: the number of entries. */
    function Len(): (n: nat)
      requires Valid()
      ensures n == |data|
    {
      DistinctCard(keys, data.Keys);
      |keys|
    }

    /** `d.get(k)`: the value of `k`, or `None` when `k` is absent. */
    function Get(k: K): (r: Option<V>)
      ensures r.Some? <==> k in data
      ensures r.Some? ==> r.value == data[k]
    {
      if k in data then Some(data[k]) else None
    }

    /** `d[k] = v`: a new key goes to the end, a present key keeps its place. */
    function Assign(k: K, v: V): (d: OrderedDict<K, V>)
      requires Valid()
      ensures d.Valid()
      ensures d.data == data[k := v]
      ensures k in data ==> d.keys == keys
      ensures k !in data ==> d.keys == keys + [k]
    {
      OrderedDict(if k in data then keys else keys + [k], data[k := v])
    }

    /** `d.popitem()`: removes the last key and gives it back. */
    function PopItem(): (r: (K, OrderedDict<K, V>))
      requires Valid() && |keys| > 0
      ensures r.1.Valid()
      ensures r.0 == keys[|keys| - 1] && r.0 in data
      ensures r.1.keys == keys[..|keys| - 1]
      ensures r.1.data == data - {r.0}
    {
      var last := keys[|keys| - 1];
      RemoveLast(keys);
      (last, OrderedDict(Remove(keys, last), data - {last}))
    }

    /** `d.pop(k)`: removes the key `k`, keeping the others in order. */
    function Pop(k: K): (d: OrderedDict<K, V>)
      requires Valid() && k in data
      ensures d.Valid()
      ensures d.keys == Remove(keys, k) && |d.keys| == |keys| - 1
      ensures d.data == data - {k}
    {
      OrderedDict(Remove(keys, k), data - {k})
    }

    /** `d.move_to_end(k)`: `k` becomes the last key, the others keep their order. */
    function MoveToEnd(k: K): (d: OrderedDict<K, V>)
      requires Valid() && k in data
      ensures d.Valid()
      ensures d.keys == Remove(keys, k) + [k] && |d.keys| == |keys|
      ensures d.data == data
    {
      OrderedDict(Remove(keys, k) + [k], data)
    }

    /** `next(iter(d))`: the first key. */
    function First(): (k: K)
      requires Valid() && |keys| > 0
      ensures k in data && k == keys[0]
    {
      keys[0]
    }
  }

  /** A new, empty `OrderedDict()`. */
  function Empty<K(==), V>(): (d: OrderedDict<K, V>)
    ensures d.Valid() && d.keys == [] && d.data == map[]
  {
    OrderedDict([], map[])
  }
}

/**
 * `LFUCache` (0x01-caching/100-lfu_cache.py): a cache that, when full,
 * discards a least frequently used key.
 *
 * Its state is four attributes: `cache_data` (the entries), `frequency`
 * (how often each key was used), `lru` (for each frequency in use, a bucket:
 * an `OrderedDict` of the keys with that frequency, in the order they reached
 * it, each with the stamp it was given then) and `lru_counter` (the next
 * stamp). The victim is the first key of the bucket of the smallest
 * frequency: among the least frequently used keys, the one that reached that
 * frequency earliest.
 */
module LfuCaching {
  import opened Wrappers
  import opened OrderedDicts
  import opened BaseCaching

  /** The four attributes of an `LFUCache`, as one value. */
  datatype LfuState<K(==), V> = LfuState(
    cacheData: OrderedDict<K, V>,
    frequency: map<K, int>,
    lru: map<int, OrderedDict<K, int>>,
    lruCounter: nat)

  /** The stamps in bucket `b` are below `counter` and increase along its order. */
  ghost predicate StampsOrdered<K>(b: OrderedDict<K, int>, counter: int)
    requires b.Valid()
  {
    && (forall k | k in b.data :: 0 <= b.data[k] < counter)
    && (forall i, j | 0 <= i < j < |b.keys| :: b.data[b.keys[i]] < b.data[b.keys[j]])
  }

  /** A bucket in use: a well-formed, non-empty `OrderedDict` whose stamps record its order. */
  ghost predicate GoodBucket<K>(b: OrderedDict<K, int>, counter: int) {
    b.Valid() && |b.keys| > 0 && StampsOrdered(b, counter)
  }

  /**
   * The invariant the attributes keep: `frequency` has exactly the keys of
   * `cache_data`, every frequency is at least 1, each key lies in the bucket
   * of its frequency and in no other, no bucket is empty, and the stamps
   * record the order within each bucket.
   */
  ghost predicate Inv<K, V>(s: LfuState<K, V>) {
    && s.cacheData.Valid()
    && s.frequency.Keys == s.cacheData.data.Keys
    && Filed(s.frequency, s.lru, s.lruCounter)
  }

  /** The bookkeeping part of the invariant: `frequency` and `lru` agree. */
  ghost predicate Filed<K>(frequency: map<K, int>, lru: map<int, OrderedDict<K, int>>, counter: int) {
    && FrequenciesFiled(frequency, lru)
    && BucketsGood(lru, counter)
    && BucketsExact(frequency, lru)
  }

  /** Every key has a frequency of at least 1 and lies in the bucket of its frequency. */
  ghost predicate FrequenciesFiled<K>(frequency: map<K, int>, lru: map<int, OrderedDict<K, int>>) {
    forall k {:trigger FiledAt(frequency, lru, k)} | k in frequency :: FiledAt(frequency, lru, k)
  }

  /** Key `k` has a frequency of at least 1 and lies in the bucket of its frequency. */
  ghost predicate FiledAt<K>(frequency: map<K, int>, lru: map<int, OrderedDict<K, int>>, k: K)
    requires k in frequency
  {
    frequency[k] >= 1 && frequency[k] in lru && k in lru[frequency[k]].data
  }

  /** Every bucket is in use and well formed. */
  ghost predicate BucketsGood<K>(lru: map<int, OrderedDict<K, int>>, counter: int) {
    forall f {:trigger GoodAt(lru, f, counter)} | f in lru :: GoodAt(lru, f, counter)
  }

  /** Bucket `f` is in use and well formed. */
  ghost predicate GoodAt<K>(lru: map<int, OrderedDict<K, int>>, f: int, counter: int)
    requires f in lru
  {
    GoodBucket(lru[f], counter)
  }

  /** A bucket holds only keys of its frequency. */
  ghost predicate BucketsExact<K>(frequency: map<K, int>, lru: map<int, OrderedDict<K, int>>) {
    forall f, k {:trigger ExactAt(frequency, lru, f, k)} | f in lru && k in lru[f].data :: ExactAt(frequency, lru, f, k)
  }

  /** Key `k` of bucket `f` has frequency `f`. */
  ghost predicate ExactAt<K>(frequency: map<K, int>, lru: map<int, OrderedDict<K, int>>, f: int, k: K)
    requires f in lru && k in lru[f].data
  {
    k in frequency && frequency[k] == f
  }

  /** The state of a new cache: everything empty, `lru_counter` at 0. */
  function Init<K(==), V>(): (s: LfuState<K, V>)
    ensures Inv(s) && s.cacheData.keys == []
  {
    LfuState(Empty(), map[], map[], 0)
  }

  /** `lru[f]` of the `defaultdict`: the bucket, or an empty one. */
  function Bucket<K(==)>(lru: map<int, OrderedDict<K, int>>, f: int): OrderedDict<K, int> {
    if f in lru then lru[f] else Empty()
  }

  /** `lru[f].pop(k)`, then dropping the bucket `f` when it became empty. */
  function Unlink<K(==)>(lru: map<int, OrderedDict<K, int>>, f: int, k: K): (r: map<int, OrderedDict<K, int>>)
    requires f in lru && lru[f].Valid() && k in lru[f].data
    ensures r.Keys <= lru.Keys && forall g | g in lru && g != f :: g in r && r[g] == lru[g]
    ensures f in r ==> r[f] == lru[f].Pop(k) && |r[f].keys| > 0
    ensures f !in r ==> lru[f].keys == [k]
  {
    var b := lru[f].Pop(k);
    if b.keys == [] then
      assert lru[f].keys == [k] by {
        assert |lru[f].keys| == 1;
        assert k in lru[f].keys;
      }
      lru - {f}
    else lru[f := b]
  }

  /** `min(frequency.values())`, the values taken in the order of `keys`. */
  function MinFrequency<K>(keys: seq<K>, frequency: map<K, int>): (m: int)
    requires |keys| > 0 && forall i | 0 <= i < |keys| :: keys[i] in frequency
    ensures exists i :: 0 <= i < |keys| && frequency[keys[i]] == m
    ensures forall i | 0 <= i < |keys| :: m <= frequency[keys[i]]
  {
    if |keys| == 1 then frequency[keys[0]]
    else
      var rest := MinFrequency(keys[1..], frequency);
      if frequency[keys[0]] <= rest then frequency[keys[0]] else rest
  }

  /** The stamp-preserving part of the invariant survives removing key `k` from bucket `f`. */
  lemma PopKeepsStamps<K>(b: OrderedDict<K, int>, k: K, counter: int)
    requires b.Valid() && k in b.data && StampsOrdered(b, counter)
    ensures StampsOrdered(b.Pop(k), counter)
  {
    var m :| 0 <= m < |b.keys| && b.keys[m] == k;
    RemoveAt(b.keys, m);
    GapKeepsStamps(b, m, counter);
    assert b.Pop(k) == OrderedDict(b.keys[..m] + b.keys[m + 1..], b.data - {k});
  }

  /** Leaving out the key at `m` keeps the stamps of the other keys increasing along the order. */
  lemma GapKeepsStamps<K>(b: OrderedDict<K, int>, m: nat, counter: int)
    requires b.Valid() && m < |b.keys| && StampsOrdered(b, counter)
    ensures var keys, data := b.keys[..m] + b.keys[m + 1..], b.data - {b.keys[m]};
      forall i, j | 0 <= i < j < |keys| :: keys[i] in data && keys[j] in data && data[keys[i]] < data[keys[j]]
  {
    var s, k := b.keys, b.keys[m];
    var keys, data := s[..m] + s[m + 1..], b.data - {k};
    forall i, j | 0 <= i < j < |keys| ensures keys[i] in data && keys[j] in data && data[keys[i]] < data[keys[j]] {
      var i' := SkipIndex(s, m, i);
      var j' := SkipIndex(s, m, j);
      assert keys[i] == s[i'] != k && keys[j] == s[j'] != k;
      assert b.data[s[i']] < b.data[s[j']];
    }
  }

  /** Element `i` of `s` with element `m` left out is element `i'` of `s`, keeping the order of indices. */
  lemma SkipIndex<K>(s: seq<K>, m: nat, i: nat) returns (i': nat)
    requires m < |s| && i < |s| - 1
    ensures i' == if i < m then i else i + 1
    ensures i' < |s| && (s[..m] + s[m + 1..])[i] == s[i']
  {
    i' := if i < m then i else i + 1;
  }

  /** Appending a key with stamp `counter` to a bucket keeps the stamps ordered, now below `counter + 1`. */
  lemma AppendKeepsStamps<K>(b: OrderedDict<K, int>, k: K, counter: int)
    requires b.Valid() && k !in b.data && StampsOrdered(b, counter) && 0 <= counter
    ensures StampsOrdered(b.Assign(k, counter), counter + 1)
  {
    var a := b.Assign(k, counter);
    forall i, j | 0 <= i < j < |a.keys| ensures a.data[a.keys[i]] < a.data[a.keys[j]] {
      if j < |b.keys| {
        assert a.keys[i] == b.keys[i] && a.keys[j] == b.keys[j];
      } else {
        assert a.keys[i] == b.keys[i];
      }
    }
  }

  /** A key of bucket `f` has frequency `f`. */
  lemma InBucket<K>(frequency: map<K, int>, lru: map<int, OrderedDict<K, int>>, f: int, k: K)
    requires BucketsExact(frequency, lru) && f in lru && k in lru[f].data
    ensures k in frequency && frequency[k] == f
  {
    assert ExactAt(frequency, lru, f, k);
  }

  /** `frequency[k] += 1`: the count of `k` one higher, every other count as it was. */
  function Increment<K>(frequency: map<K, int>, k: K): (r: map<K, int>)
    requires k in frequency
    ensures r.Keys == frequency.Keys
    ensures r[k] == frequency[k] + 1
    ensures forall j | j in frequency && j != k :: r[j] == frequency[j]
  {
    frequency[k := frequency[k] + 1]
  }

  /** Bucket `g` of a well-formed `lru` is a well-formed `OrderedDict`. */
  lemma BucketValid<K>(lru: map<int, OrderedDict<K, int>>, counter: int, g: int)
    requires BucketsGood(lru, counter)
    ensures Bucket(lru, g).Valid()
  {
    if g in lru {
      assert GoodAt(lru, g, counter);
    }
  }

  /** A key without a frequency lies in no bucket. */
  lemma NotFiled<K>(frequency: map<K, int>, lru: map<int, OrderedDict<K, int>>, k: K, g: int)
    requires BucketsExact(frequency, lru) && k !in frequency
    ensures k !in Bucket(lru, g).data
  {
    if g in lru && k in lru[g].data {
      InBucket(frequency, lru, g, k);
    }
  }

  /** A key with a frequency lies in the bucket of that frequency, and no other. */
  lemma Filing<K>(frequency: map<K, int>, lru: map<int, OrderedDict<K, int>>, counter: int, k: K)
    requires Filed(frequency, lru, counter) && k in frequency
    ensures frequency[k] >= 1 && frequency[k] in lru && lru[frequency[k]].Valid() && k in lru[frequency[k]].data
    ensures Bucket(lru, frequency[k] + 1).Valid() && k !in Bucket(lru, frequency[k] + 1).data
  {
    assert FiledAt(frequency, lru, k);
    assert GoodAt(lru, frequency[k], counter);
    var g := frequency[k] + 1;
    BucketValid(lru, counter, g);
    if g in lru && k in lru[g].data {
      InBucket(frequency, lru, g, k);
    }
  }

  /** Taking `k` out of its bucket `f` leaves every other key in the bucket of its frequency. */
  lemma UnfileFrequencies<K>(frequency: map<K, int>, lru: map<int, OrderedDict<K, int>>, f: int, k: K)
    requires FrequenciesFiled(frequency, lru) && k in frequency && frequency[k] == f
    requires f in lru && lru[f].Valid() && k in lru[f].data
    ensures FrequenciesFiled(frequency - {k}, Unlink(lru, f, k))
  {
    var r := Unlink(lru, f, k);
    forall k' | k' in frequency - {k} ensures FiledAt(frequency - {k}, r, k') {
      assert FiledAt(frequency, lru, k');
      if frequency[k'] == f {
        assert k' in lru[f].Pop(k).data;
        assert k' in lru[f].keys;
      }
    }
  }

  /** Taking `k` out of bucket `f` leaves every bucket in use well formed. */
  lemma UnfileBuckets<K>(lru: map<int, OrderedDict<K, int>>, counter: int, f: int, k: K)
    requires BucketsGood(lru, counter) && f in lru && lru[f].Valid() && k in lru[f].data
    ensures BucketsGood(Unlink(lru, f, k), counter)
  {
    var r := Unlink(lru, f, k);
    forall g | g in r ensures GoodAt(r, g, counter) {
      assert GoodAt(lru, g, counter);
      if g == f {
        PopKeepsStamps(lru[f], k, counter);
      }
    }
  }

  /** Taking `k` out of `frequency` and out of its bucket `f` leaves every bucket exact. */
  lemma UnfileExact<K>(frequency: map<K, int>, lru: map<int, OrderedDict<K, int>>, f: int, k: K)
    requires BucketsExact(frequency, lru) && f in lru && lru[f].Valid() && k in lru[f].data
    ensures BucketsExact(frequency - {k}, Unlink(lru, f, k))
  {
    var r := Unlink(lru, f, k);
    var frequency' := frequency - {k};
    InBucket(frequency, lru, f, k);
    forall g, k' | g in r && k' in r[g].data ensures ExactAt(frequency', r, g, k') {
      if g == f {
        assert k' in lru[f].data && k' != k;
        InBucket(frequency, lru, f, k');
      } else {
        InBucket(frequency, lru, g, k');
      }
    }
  }

  /** Taking key `k` out of `frequency` and out of its bucket keeps the bookkeeping consistent. */
  lemma UnfileKeeps<K>(frequency: map<K, int>, lru: map<int, OrderedDict<K, int>>, counter: int, k: K)
    requires Filed(frequency, lru, counter) && k in frequency
    ensures frequency[k] in lru && lru[frequency[k]].Valid() && k in lru[frequency[k]].data
    ensures Filed(frequency - {k}, Unlink(lru, frequency[k], k), counter)
  {
    Filing(frequency, lru, counter, k);
    var f := frequency[k];
    UnfileFrequencies(frequency, lru, f, k);
    UnfileBuckets(lru, counter, f, k);
    UnfileExact(frequency, lru, f, k);
  }

  /** After filing `k` under `g`, every key lies in the bucket of its frequency. */
  lemma FileFrequencies<K>(frequency: map<K, int>, lru: map<int, OrderedDict<K, int>>, counter: int, k: K, g: int)
    requires FrequenciesFiled(frequency, lru) && Bucket(lru, g).Valid() && g >= 1
    ensures FrequenciesFiled(frequency[k := g], lru[g := Bucket(lru, g).Assign(k, counter)])
  {
    var lru' := lru[g := Bucket(lru, g).Assign(k, counter)];
    var frequency' := frequency[k := g];
    forall k' | k' in frequency' ensures FiledAt(frequency', lru', k') {
      if k' != k {
        assert FiledAt(frequency, lru, k');
        if frequency[k'] == g {
          assert k' in lru[g].data;
        }
      }
    }
  }

  /** After filing `k` under `g` with stamp `counter`, every bucket in use is well formed. */
  lemma FileBuckets<K>(lru: map<int, OrderedDict<K, int>>, counter: nat, k: K, g: int)
    requires BucketsGood(lru, counter) && k !in Bucket(lru, g).data
    ensures Bucket(lru, g).Valid()
    ensures BucketsGood(lru[g := Bucket(lru, g).Assign(k, counter)], counter + 1)
  {
    var b := Bucket(lru, g);
    BucketValid(lru, counter, g);
    assert StampsOrdered(b, counter) by {
      if g in lru {
        assert GoodAt(lru, g, counter);
      }
    }
    AppendKeepsStamps(b, k, counter);
    var lru' := lru[g := b.Assign(k, counter)];
    forall h | h in lru' ensures GoodAt(lru', h, counter + 1) {
      if h != g {
        assert GoodAt(lru, h, counter);
        assert StampsOrdered(lru[h], counter + 1);
      }
    }
  }

  /** After filing `k` under `g`, every bucket holds only keys of its frequency. */
  lemma FileExact<K>(frequency: map<K, int>, lru: map<int, OrderedDict<K, int>>, counter: int, k: K, g: int)
    requires BucketsExact(frequency, lru) && Bucket(lru, g).Valid() && k !in frequency
    ensures BucketsExact(frequency[k := g], lru[g := Bucket(lru, g).Assign(k, counter)])
  {
    var b := Bucket(lru, g);
    var lru' := lru[g := b.Assign(k, counter)];
    var frequency' := frequency[k := g];
    forall h, k' | h in lru' && k' in lru'[h].data ensures ExactAt(frequency', lru', h, k') {
      if h == g && k' != k {
        assert k' in b.data;
        InBucket(frequency, lru, g, k');
      } else if h != g {
        InBucket(frequency, lru, h, k');
      }
    }
  }

  /**
   * Giving a new key `k` the frequency `g` and appending it to bucket `g`
   * with the stamp `counter` keeps the bookkeeping consistent, the next
   * stamp being `counter + 1`.
   */
  lemma FileKeeps<K>(frequency: map<K, int>, lru: map<int, OrderedDict<K, int>>, counter: nat, k: K, g: int)
    requires Filed(frequency, lru, counter) && k !in frequency && g >= 1
    ensures Bucket(lru, g).Valid() && k !in Bucket(lru, g).data
    ensures Bucket(lru, g).Assign(k, counter).keys == Bucket(lru, g).keys + [k]
    ensures Filed(frequency[k := g], lru[g := Bucket(lru, g).Assign(k, counter)], counter + 1)
  {
    BucketValid(lru, counter, g);
    NotFiled(frequency, lru, k, g);
    FileFrequencies(frequency, lru, counter, k, g);
    FileBuckets(lru, counter, k, g);
    FileExact(frequency, lru, counter, k, g);
  }

  /**
   * Removing a key and putting it back one higher is incrementing it (kept
   * apart so that the map equality is proved in a small context).
   */
  lemma RemoveThenIncrement<A>(m: map<A, int>, a: A, b: int)
    requires a in m && b == m[a] + 1
    ensures (m - {a})[a := b] == Increment(m, a)
  {
  }

  /**
   * `lru` after `get` moves key `k` of bucket `f`: out of bucket `f`
   * (dropped when it empties), to the end of bucket `f + 1` with the stamp
   * `counter`.
   */
  function Refile<K(==)>(lru: map<int, OrderedDict<K, int>>, f: int, k: K, counter: int): map<int, OrderedDict<K, int>>
    requires f in lru && lru[f].Valid() && k in lru[f].data && Bucket(lru, f + 1).Valid()
  {
    assert Bucket(Unlink(lru, f, k), f + 1) == Bucket(lru, f + 1);
    Unlink(lru, f, k)[f + 1 := Bucket(Unlink(lru, f, k), f + 1).Assign(k, counter)]
  }

  /** `Refile` is taking the key out of bucket `f`, then filing it under `f + 1`. */
  lemma RefileIsUnfileThenFile<K>(lru: map<int, OrderedDict<K, int>>, f: int, k: K, counter: int)
    requires f in lru && lru[f].Valid() && k in lru[f].data && Bucket(lru, f + 1).Valid()
    ensures Bucket(Unlink(lru, f, k), f + 1) == Bucket(lru, f + 1)
    ensures Refile(lru, f, k, counter) == Unlink(lru, f, k)[f + 1 := Bucket(Unlink(lru, f, k), f + 1).Assign(k, counter)]
  {
  }

  /** After `Refile`, every key lies in the bucket of its new frequency. */
  lemma RefileFrequencies<K>(frequency: map<K, int>, lru: map<int, OrderedDict<K, int>>, counter: int, k: K)
    requires FrequenciesFiled(frequency, lru) && k in frequency
    requires frequency[k] in lru && lru[frequency[k]].Valid() && k in lru[frequency[k]].data
    requires Bucket(lru, frequency[k] + 1).Valid()
    ensures FrequenciesFiled(Increment(frequency, k), Refile(lru, frequency[k], k, counter))
  {
    var f := frequency[k];
    var g := f + 1;
    RefileIsUnfileThenFile(lru, f, k, counter);
    assert FiledAt(frequency, lru, k) && Bucket(Unlink(lru, f, k), g).Valid();
    UnfileFrequencies(frequency, lru, f, k);
    FileFrequencies(frequency - {k}, Unlink(lru, f, k), counter, k, g);
    RemoveThenIncrement(frequency, k, g);
  }

  /** After `Refile` with the stamp `counter`, every bucket in use is well formed. */
  lemma RefileBuckets<K>(lru: map<int, OrderedDict<K, int>>, counter: nat, f: int, k: K)
    requires BucketsGood(lru, counter) && f in lru && lru[f].Valid() && k in lru[f].data
    requires Bucket(lru, f + 1).Valid() && k !in Bucket(lru, f + 1).data
    ensures BucketsGood(Refile(lru, f, k, counter), counter + 1)
  {
    RefileIsUnfileThenFile(lru, f, k, counter);
    UnfileBuckets(lru, counter, f, k);
    var g := f + 1;
    FileBuckets(Unlink(lru, f, k), counter, k, g);
  }

  /** After `Refile`, every bucket holds only keys of its frequency. */
  lemma RefileExact<K>(frequency: map<K, int>, lru: map<int, OrderedDict<K, int>>, counter: int, k: K)
    requires BucketsExact(frequency, lru) && k in frequency
    requires frequency[k] in lru && lru[frequency[k]].Valid() && k in lru[frequency[k]].data
    requires Bucket(lru, frequency[k] + 1).Valid()
    ensures BucketsExact(Increment(frequency, k), Refile(lru, frequency[k], k, counter))
  {
    var f := frequency[k];
    var g := f + 1;
    RefileIsUnfileThenFile(lru, f, k, counter);
    UnfileExact(frequency, lru, f, k);
    FileExact(frequency - {k}, Unlink(lru, f, k), counter, k, g);
    RemoveThenIncrement(frequency, k, g);
  }

  /** Moving a key one frequency up, as `get` does, keeps the bookkeeping consistent. */
  lemma RefileKeeps<K>(frequency: map<K, int>, lru: map<int, OrderedDict<K, int>>, counter: nat, k: K)
    requires Filed(frequency, lru, counter) && k in frequency
    ensures frequency[k] in lru && lru[frequency[k]].Valid() && k in lru[frequency[k]].data
    ensures Bucket(lru, frequency[k] + 1).Valid() && k !in Bucket(lru, frequency[k] + 1).data
    ensures Filed(Increment(frequency, k), Refile(lru, frequency[k], k, counter), counter + 1)
  {
    Filing(frequency, lru, counter, k);
    var f := frequency[k];
    var frequency', lru' := Increment(frequency, k), Refile(lru, f, k, counter);
    assert FrequenciesFiled(frequency', lru') by {
      RefileFrequencies(frequency, lru, counter, k);
    }
    assert BucketsGood(lru', counter + 1) by {
      RefileBuckets(lru, counter, f, k);
    }
    assert BucketsExact(frequency', lru') by {
      RefileExact(frequency, lru, counter, k);
    }
  }

  /** `Refile` puts the key last in bucket `f + 1`, with the stamp `counter`. */
  lemma RefileAppends<K>(lru: map<int, OrderedDict<K, int>>, f: int, k: K, counter: int)
    requires f in lru && lru[f].Valid() && k in lru[f].data && Bucket(lru, f + 1).Valid() && k !in Bucket(lru, f + 1).data
    ensures var r := Refile(lru, f, k, counter);
      && f + 1 in r && r[f + 1].keys == Bucket(lru, f + 1).keys + [k] && r[f + 1].Get(k) == Some(counter)
  {
    RefileIsUnfileThenFile(lru, f, k, counter);
  }

  /** `Refile` takes the key out of bucket `f`, which keeps its other keys in order or goes when it empties. */
  lemma RefileLeaves<K>(lru: map<int, OrderedDict<K, int>>, f: int, k: K, counter: int)
    requires f in lru && lru[f].Valid() && k in lru[f].data && Bucket(lru, f + 1).Valid()
    ensures var r := Refile(lru, f, k, counter);
      && (f in r ==> r[f].keys == Remove(lru[f].keys, k))
      && (f !in r <==> lru[f].keys == [k])
  {
    RefileIsUnfileThenFile(lru, f, k, counter);
  }

  /** `Refile` leaves every bucket other than `f` and `f + 1` untouched and adds none. */
  lemma RefileKeepsOthers<K>(lru: map<int, OrderedDict<K, int>>, f: int, k: K, counter: int)
    requires f in lru && lru[f].Valid() && k in lru[f].data && Bucket(lru, f + 1).Valid()
    ensures var r := Refile(lru, f, k, counter);
      && (forall g | g in lru && g != f && g != f + 1 :: g in r && r[g] == lru[g])
      && (forall g | g in r :: g in lru || g == f + 1)
  {
    RefileIsUnfileThenFile(lru, f, k, counter);
  }

  /**
   * The attributes after `get` of a present key `k`: `cache_data` as it
   * was, the frequency of `k` one higher, `k` refiled, the counter advanced.
   */
  function Promote<K(==), V>(s: LfuState<K, V>, k: K): LfuState<K, V>
    requires Inv(s) && k in s.frequency
  {
    Filing(s.frequency, s.lru, s.lruCounter, k);
    LfuState(s.cacheData, Increment(s.frequency, k),
             Refile(s.lru, s.frequency[k], k, s.lruCounter), s.lruCounter + 1)
  }

  /**
   * What the attributes are after `get(key)`, with the answer. For a present
   * key: its value, `cache_data` unchanged, its frequency one higher, and
   * the stamp counter advanced; `None` or an absent key changes nothing.
   */
  function GetState<K(==), V>(s: LfuState<K, V>, key: Option<K>): (r: (LfuState<K, V>, Option<V>))
    requires Inv(s)
    ensures r.0.cacheData == s.cacheData
    ensures r.1.Some? <==> key.Some? && key.value in s.cacheData.data
    ensures r.1.None? ==> r.0 == s
    ensures r.1.Some? ==>
      && r.1.value == s.cacheData.data[key.value]
      && r.0.frequency == Increment(s.frequency, key.value)
      && r.0.lruCounter == s.lruCounter + 1
  {
    if key.None? || key.value !in s.cacheData.data then (s, None)
    else (Promote(s, key.value), Some(s.cacheData.data[key.value]))
  }

  /**
   * `get` of a present key moves it out of the bucket of its frequency,
   * which keeps its other keys in order or goes when it held only that key,
   * to the end of the bucket of the next frequency, with the current stamp.
   */
  lemma GetMovesToEnd<K, V>(s: LfuState<K, V>, k: K)
    requires Inv(s) && k in s.cacheData.data
    ensures var f := s.frequency[k];
      var r := GetState(s, Some(k)).0;
      && f in s.lru && k in s.lru[f].data && k !in Bucket(s.lru, f + 1).data
      && r.frequency[k] == f + 1
      && f + 1 in r.lru && r.lru[f + 1].keys == Bucket(s.lru, f + 1).keys + [k]
      && r.lru[f + 1].Get(k) == Some(s.lruCounter)
      && (f in r.lru ==> r.lru[f].keys == Remove(s.lru[f].keys, k))
      && (f !in r.lru <==> s.lru[f].keys == [k])
  {
    Filing(s.frequency, s.lru, s.lruCounter, k);
    var f := s.frequency[k];
    RefileAppends(s.lru, f, k, s.lruCounter);
    RefileLeaves(s.lru, f, k, s.lruCounter);
  }

  /** Promoting a key keeps the invariant. */
  lemma PromoteKeepsInv<K, V>(s: LfuState<K, V>, k: K)
    requires Inv(s) && k in s.frequency
    ensures Inv(Promote(s, k))
  {
    PromotedInv(s, k);
  }

  /** The attributes `Promote` builds satisfy the invariant. */
  lemma PromotedInv<K, V>(s: LfuState<K, V>, k: K)
    requires Inv(s) && k in s.frequency
    ensures s.frequency[k] in s.lru && s.lru[s.frequency[k]].Valid() && k in s.lru[s.frequency[k]].data
    ensures Bucket(s.lru, s.frequency[k] + 1).Valid()
    ensures Inv(LfuState(s.cacheData, Increment(s.frequency, k), Refile(s.lru, s.frequency[k], k, s.lruCounter), s.lruCounter + 1))
  {
    RefileKeeps(s.frequency, s.lru, s.lruCounter, k);
  }

  /** `get` keeps the invariant. */
  lemma GetKeepsInv<K, V>(s: LfuState<K, V>, key: Option<K>)
    requires Inv(s)
    ensures Inv(GetState(s, key).0)
  {
    if key.Some? && key.value in s.cacheData.data {
      PromoteKeepsInv(s, key.value);
    }
  }

  /**
   * `victim` may be discarded: a key of the cache whose frequency is the
   * smallest, and which reached that frequency before every other key that
   * shares it (its stamp in that bucket is the smallest).
   */
  ghost predicate Evictable<K, V>(s: LfuState<K, V>, victim: K) {
    && victim in s.frequency
    && (forall k | k in s.frequency :: s.frequency[victim] <= s.frequency[k])
    && var f := s.frequency[victim];
      && f in s.lru && victim in s.lru[f].data
      && (forall k | k in s.frequency && k != victim && s.frequency[k] == f ::
            k in s.lru[f].data && s.lru[f].data[victim] < s.lru[f].data[k])
  }

  /** The eviction rule names one key: two keys that may both be discarded are the same. */
  lemma EvictableUnique<K, V>(s: LfuState<K, V>, a: K, b: K)
    requires Evictable(s, a) && Evictable(s, b)
    ensures a == b
  {
  }

  /** `min(frequency.values())` is the frequency of a bucket in use. */
  lemma MinFrequencyInUse<K, V>(s: LfuState<K, V>)
    requires Inv(s) && |s.cacheData.keys| > 0
    ensures MinFrequency(s.cacheData.keys, s.frequency) in s.lru
  {
    var m := MinFrequency(s.cacheData.keys, s.frequency);
    var i :| 0 <= i < |s.cacheData.keys| && s.frequency[s.cacheData.keys[i]] == m;
    assert FiledAt(s.frequency, s.lru, s.cacheData.keys[i]);
  }

  /** The first key of the bucket of the smallest frequency may be discarded. */
  lemma FirstOfMinimalBucket<K, V>(s: LfuState<K, V>, minFreq: int)
    requires Inv(s) && minFreq in s.lru
    requires forall k | k in s.frequency :: minFreq <= s.frequency[k]
    ensures |s.lru[minFreq].keys| > 0 && Evictable(s, s.lru[minFreq].keys[0])
  {
    assert GoodAt(s.lru, minFreq, s.lruCounter);
    var b := s.lru[minFreq];
    var victim := b.keys[0];
    assert victim in b.data;
    InBucket(s.frequency, s.lru, minFreq, victim);
    forall k | k in s.frequency && k != victim && s.frequency[k] == minFreq
      ensures k in b.data && b.data[victim] < b.data[k]
    {
      assert FiledAt(s.frequency, s.lru, k);
      var j :| 0 <= j < |b.keys| && b.keys[j] == k;
      assert 0 < j;
    }
  }

  /**
   * The key `put` discards from a full cache: the first key of the bucket of
   * `min(frequency.values())`. It is the one key that may be discarded.
   */
  function Victim<K(==), V>(s: LfuState<K, V>): (victim: K)
    requires Inv(s) && |s.cacheData.keys| > 0
    ensures Evictable(s, victim)
    ensures |s.lru[s.frequency[victim]].keys| > 0
    ensures victim == s.lru[s.frequency[victim]].keys[0]
  {
    MinFrequencyInUse(s);
    var minFreq := MinFrequency(s.cacheData.keys, s.frequency);
    assert forall k | k in s.frequency :: minFreq <= s.frequency[k] by {
      forall k | k in s.frequency ensures minFreq <= s.frequency[k] {
        var j :| 0 <= j < |s.cacheData.keys| && s.cacheData.keys[j] == k;
      }
    }
    FirstOfMinimalBucket(s, minFreq);
    assert GoodAt(s.lru, minFreq, s.lruCounter);
    s.lru[minFreq].First()
  }

  /** Removing `victim` from `cache_data`, from `frequency` and from its bucket. */
  function Evict<K(==), V>(s: LfuState<K, V>, victim: K): LfuState<K, V>
    requires Inv(s) && victim in s.frequency
  {
    assert FiledAt(s.frequency, s.lru, victim);
    assert GoodAt(s.lru, s.frequency[victim], s.lruCounter);
    LfuState(s.cacheData.Pop(victim), s.frequency - {victim}, Unlink(s.lru, s.frequency[victim], victim), s.lruCounter)
  }

  /** Discarding a key keeps the invariant. */
  lemma EvictKeepsInv<K, V>(s: LfuState<K, V>, victim: K)
    requires Inv(s) && victim in s.frequency
    ensures Inv(Evict(s, victim))
  {
    UnfileKeeps(s.frequency, s.lru, s.lruCounter, victim);
  }

  /** Storing a new key with frequency 1 at the end of bucket 1, stamped with `lru_counter`. */
  function Insert<K(==), V>(s: LfuState<K, V>, k: K, v: V): LfuState<K, V>
    requires Inv(s)
  {
    BucketValid(s.lru, s.lruCounter, 1);
    LfuState(s.cacheData.Assign(k, v), s.frequency[k := 1],
             s.lru[1 := Bucket(s.lru, 1).Assign(k, s.lruCounter)], s.lruCounter + 1)
  }

  /** Storing a new key keeps the invariant. */
  lemma InsertKeepsInv<K, V>(s: LfuState<K, V>, k: K, v: V)
    requires Inv(s) && k !in s.cacheData.data
    ensures Bucket(s.lru, 1).Valid()
    ensures Inv(Insert(s, k, v))
  {
    assert s.frequency[k := 1].Keys == s.cacheData.data[k := v].Keys;
    FileKeeps(s.frequency, s.lru, s.lruCounter, k, 1);
  }

  /** A new key becomes the last (most recently used) key of bucket 1. */
  lemma InsertAppends<K, V>(s: LfuState<K, V>, k: K, v: V)
    requires Inv(s) && k !in s.cacheData.data
    ensures Bucket(s.lru, 1).Valid()
    ensures Insert(s, k, v).lru[1].keys == Bucket(s.lru, 1).keys + [k]
  {
    FileKeeps(s.frequency, s.lru, s.lruCounter, k, 1);
  }

  /** Assigning to a key already present keeps the invariant. */
  lemma AssignKeepsInv<K, V>(s: LfuState<K, V>, k: K, v: V)
    requires Inv(s) && k in s.cacheData.data
    ensures Inv(s.(cacheData := s.cacheData.Assign(k, v)))
  {
    assert s.cacheData.data[k := v].Keys == s.cacheData.data.Keys;
  }

  /** The attributes after `put` of a new key into a full cache, and the discarded key. */
  function EvictAndInsert<K(==), V>(s: LfuState<K, V>, k: K, v: V): (r: (LfuState<K, V>, K))
    requires Inv(s) && |s.cacheData.keys| > 0 && k !in s.cacheData.data
  {
    var victim := Victim(s);
    EvictKeepsInv(s, victim);
    InsertKeepsInv(Evict(s, victim), k, v);
    (Insert(Evict(s, victim), k, v), victim)
  }

  /**
   * What the attributes are after `put(key, item)`, with the discarded key.
   * A present key gets the new item and then the promotion of `get`, and
   * nothing is discarded; a new key into a full cache discards a key first.
   */
  function PutState<K(==), V>(s: LfuState<K, V>, key: Option<K>, item: Option<V>, maxItems: MaxItems)
    : (r: (LfuState<K, V>, Option<K>))
    requires Inv(s)
    ensures key.None? || item.None? ==> r == (s, None)
    ensures key.Some? && item.Some? ==> r.0.cacheData.Get(key.value) == item
    ensures r.1.Some? <==> key.Some? && item.Some? && key.value !in s.cacheData.data && |s.cacheData.keys| >= maxItems
  {
    if key.None? || item.None? then (s, None)
    else if key.value in s.cacheData.data then
      AssignKeepsInv(s, key.value, item.value);
      (GetState(s.(cacheData := s.cacheData.Assign(key.value, item.value)), key).0, None)
    else if s.cacheData.Len() >= maxItems then
      var (s', victim) := EvictAndInsert(s, key.value, item.value);
      (s', Some(victim))
    else
      InsertKeepsInv(s, key.value, item.value);
      (Insert(s, key.value, item.value), None)
  }

  /** `put` of a present key keeps the invariant. */
  lemma AssignThenGetKeepsInv<K, V>(s: LfuState<K, V>, k: K, v: V)
    requires Inv(s) && k in s.cacheData.data
    ensures Inv(s.(cacheData := s.cacheData.Assign(k, v)))
    ensures Inv(GetState(s.(cacheData := s.cacheData.Assign(k, v)), Some(k)).0)
  {
    AssignKeepsInv(s, k, v);
    GetKeepsInv(s.(cacheData := s.cacheData.Assign(k, v)), Some(k));
  }

  /** `put` of a new key into a full cache keeps the invariant. */
  lemma EvictAndInsertKeepsInv<K, V>(s: LfuState<K, V>, k: K, v: V)
    requires Inv(s) && |s.cacheData.keys| > 0 && k !in s.cacheData.data
    ensures Inv(EvictAndInsert(s, k, v).0)
  {
    var victim := Victim(s);
    EvictKeepsInv(s, victim);
    InsertKeepsInv(Evict(s, victim), k, v);
  }

  /** `put` keeps the invariant. */
  lemma PutKeepsInv<K, V>(s: LfuState<K, V>, key: Option<K>, item: Option<V>, maxItems: MaxItems)
    requires Inv(s)
    ensures Inv(PutState(s, key, item, maxItems).0)
  {
    if key.Some? && item.Some? {
      var k, v := key.value, item.value;
      var r := PutState(s, key, item, maxItems).0;
      if k in s.cacheData.data {
        AssignThenGetKeepsInv(s, k, v);
        assert r == GetState(s.(cacheData := s.cacheData.Assign(k, v)), key).0;
      } else if s.cacheData.Len() >= maxItems {
        EvictAndInsertKeepsInv(s, k, v);
        assert r == EvictAndInsert(s, k, v).0;
      } else {
        InsertKeepsInv(s, k, v);
        assert r == Insert(s, k, v);
      }
    }
  }

  /**
   * `put` of a key already present stores the new item in place, counts one
   * more use of the key and discards nothing.
   */
  lemma PutPresent<K, V>(s: LfuState<K, V>, k: K, v: V, maxItems: MaxItems)
    requires Inv(s) && k in s.cacheData.data
    ensures var r := PutState(s, Some(k), Some(v), maxItems);
      && r.1 == None
      && r.0.cacheData.keys == s.cacheData.keys
      && r.0.cacheData.data == s.cacheData.data[k := v]
      && r.0.frequency == Increment(s.frequency, k)
  {
  }

  /**
   * `put` of a new key discards a key exactly when the cache is full; the
   * discarded key is one that may be discarded and never the new key, and
   * the new key takes its place at the end of `cache_data`.
   */
  lemma PutEvicts<K, V>(s: LfuState<K, V>, k: K, v: V, maxItems: MaxItems)
    requires Inv(s) && k !in s.cacheData.data && |s.cacheData.keys| >= maxItems
    ensures var r := PutState(s, Some(k), Some(v), maxItems);
      && r.1.Some? && Evictable(s, r.1.value) && r.1.value != k
      && r.0.cacheData.keys == Remove(s.cacheData.keys, r.1.value) + [k]
      && r.0.cacheData.data == (s.cacheData.data - {r.1.value})[k := v]
      && r.0.frequency == (s.frequency - {r.1.value})[k := 1]
  {
  }

  /**
   * `put` of a new key into a cache that is not full appends it, with
   * frequency 1, and discards nothing.
   */
  lemma PutAppends<K, V>(s: LfuState<K, V>, k: K, v: V, maxItems: MaxItems)
    requires Inv(s) && k !in s.cacheData.data && |s.cacheData.keys| < maxItems
    ensures var r := PutState(s, Some(k), Some(v), maxItems);
      && r.1 == None
      && r.0.cacheData.keys == s.cacheData.keys + [k]
      && r.0.cacheData.data == s.cacheData.data[k := v]
      && r.0.frequency == s.frequency[k := 1]
  {
  }

  /**
   * A new key starts with frequency 1 as the most recently stamped key of
   * bucket 1, so it is the last of the keys used once to be discarded.
   */
  lemma PutNewKeyLast<K, V>(s: LfuState<K, V>, k: K, v: V, maxItems: MaxItems)
    requires Inv(s) && k !in s.cacheData.data
    ensures var r := PutState(s, Some(k), Some(v), maxItems);
      && r.0.frequency[k] == 1 && 1 in r.0.lru && |r.0.lru[1].keys| > 0
      && r.0.lru[1].keys[|r.0.lru[1].keys| - 1] == k
  {
    if |s.cacheData.keys| >= maxItems {
      var victim := Victim(s);
      EvictKeepsInv(s, victim);
      InsertAppends(Evict(s, victim), k, v);
    } else {
      InsertAppends(s, k, v);
    }
  }

  /** A cache holding at most `maxItems` keys still does after `put`. */
  lemma PutBounded<K, V>(s: LfuState<K, V>, key: Option<K>, item: Option<V>, maxItems: MaxItems)
    requires Inv(s) && |s.cacheData.keys| <= maxItems
    ensures |PutState(s, key, item, maxItems).0.cacheData.keys| <= maxItems
  {
  }

  /**
   * `get` of a present key, statement by statement: the bucket of its
   * frequency can give it up, the next bucket can take it, and the result is
   * `GetState`, which keeps the invariant.
   */
  lemma GetStep<K, V>(cacheData: OrderedDict<K, V>, frequency: map<K, int>, lru: map<int, OrderedDict<K, int>>, lruCounter: nat, k: K)
    requires Inv(LfuState(cacheData, frequency, lru, lruCounter)) && k in cacheData.data
    ensures frequency[k] in lru && lru[frequency[k]].Valid() && k in lru[frequency[k]].data
    ensures Bucket(Unlink(lru, frequency[k], k), frequency[k] + 1).Valid()
    ensures var unlinked := Unlink(lru, frequency[k], k);
      var s' := LfuState(cacheData, Increment(frequency, k),
                         unlinked[frequency[k] + 1 := Bucket(unlinked, frequency[k] + 1).Assign(k, lruCounter)], lruCounter + 1);
      && GetState(LfuState(cacheData, frequency, lru, lruCounter), Some(k)) == (s', Some(cacheData.data[k]))
      && Inv(s')
  {
    var s := LfuState(cacheData, frequency, lru, lruCounter);
    Filing(frequency, lru, lruCounter, k);
    RefileIsUnfileThenFile(lru, frequency[k], k, lruCounter);
    PromoteKeepsInv(s, k);
  }

  /** In a non-empty cache, the bucket of `min(frequency.values())` is in use. */
  lemma MinBucketStep<K, V>(cacheData: OrderedDict<K, V>, frequency: map<K, int>, lru: map<int, OrderedDict<K, int>>, lruCounter: nat)
    requires Inv(LfuState(cacheData, frequency, lru, lruCounter)) && |cacheData.keys| > 0
    ensures var minFreq := MinFrequency(cacheData.keys, frequency);
      minFreq in lru && lru[minFreq].Valid() && |lru[minFreq].keys| > 0
  {
    var s := LfuState(cacheData, frequency, lru, lruCounter);
    MinFrequencyInUse(s);
    assert GoodAt(lru, MinFrequency(cacheData.keys, frequency), lruCounter);
  }

  /**
   * Discarding from a full cache, statement by statement: the first key of
   * the bucket of the smallest frequency is `Victim`, and taking it out of
   * `cache_data`, `frequency` and its bucket is `Evict`, which keeps the
   * invariant.
   */
  lemma EvictStep<K, V>(cacheData: OrderedDict<K, V>, frequency: map<K, int>, lru: map<int, OrderedDict<K, int>>, lruCounter: nat,
                        minFreq: int, victim: K)
    requires Inv(LfuState(cacheData, frequency, lru, lruCounter)) && |cacheData.keys| > 0
    requires minFreq == MinFrequency(cacheData.keys, frequency)
    requires minFreq in lru && lru[minFreq].Valid() && |lru[minFreq].keys| > 0 && victim == lru[minFreq].First()
    ensures victim == Victim(LfuState(cacheData, frequency, lru, lruCounter))
    ensures victim in cacheData.data && victim in frequency && victim in lru[minFreq].data
    ensures Evict(LfuState(cacheData, frequency, lru, lruCounter), victim)
         == LfuState(cacheData.Pop(victim), frequency - {victim}, Unlink(lru, minFreq, victim), lruCounter)
    ensures Inv(LfuState(cacheData.Pop(victim), frequency - {victim}, Unlink(lru, minFreq, victim), lruCounter))
  {
    var s := LfuState(cacheData, frequency, lru, lruCounter);
    MinFrequencyInUse(s);
    assert victim == Victim(s);
    InBucket(frequency, lru, minFreq, victim);
    EvictKeepsInv(s, victim);
  }

  /**
   * Storing a new key, statement by statement: bucket 1 of the
   * `defaultdict` is well formed and the result is `Insert`, which keeps the
   * invariant.
   */
  lemma InsertStep<K, V>(cacheData: OrderedDict<K, V>, frequency: map<K, int>, lru: map<int, OrderedDict<K, int>>, lruCounter: nat, k: K, v: V)
    requires Inv(LfuState(cacheData, frequency, lru, lruCounter)) && k !in cacheData.data
    ensures Bucket(lru, 1).Valid()
    ensures var s' := LfuState(cacheData.Assign(k, v), frequency[k := 1], lru[1 := Bucket(lru, 1).Assign(k, lruCounter)], lruCounter + 1);
      Insert(LfuState(cacheData, frequency, lru, lruCounter), k, v) == s' && Inv(s')
  {
    InsertKeepsInv(LfuState(cacheData, frequency, lru, lruCounter), k, v);
  }

  /**
   * An `LFUCache` object: the four attributes, updated in place by `put` and
   * `get`; `Valid()` is the invariant they keep.
   */
  class LFUCache<K(==), V> {
    const maxItems: MaxItems
    var cacheData: OrderedDict<K, V>
    var frequency: map<K, int>
    var lru: map<int, OrderedDict<K, int>>
    var lruCounter: nat

    /** The attributes, as one value. */
    ghost function State(): LfuState<K, V>
      reads this
    {
      LfuState(cacheData, frequency, lru, lruCounter)
    }

    ghost predicate Valid()
      reads this
    {
      Inv(State())
    }

    /** `LFUCache()`: empty `cache_data`, `frequency` and `lru`, `lru_counter` at 0. */
    constructor (maxItems: MaxItems)
      ensures Valid() && this.maxItems == maxItems && State() == Init()
    {
      this.maxItems := maxItems;
      cacheData := Empty();
      frequency := map[];
      lru := map[];
      lruCounter := 0;
    }

    /**
     * `put(key, item)`: a present key gets the item and is used once as by
     * `get`; a new key into a full cache first discards the first key of the
     * bucket of the smallest frequency; a new key is stored with frequency 1
     * at the end of bucket 1.
     */
    method Put(key: Option<K>, item: Option<V>) returns (discarded: Option<K>)
      requires Valid()
      modifies this
      ensures Valid()
      ensures (State(), discarded) == PutState(old(State()), key, item, maxItems)
    {
      discarded := None;
      if key.None? || item.None? {
        return;
      }
      var k, v := key.value, item.value;
      if k in cacheData.data {
        AssignKeepsInv(State(), k, v);
        cacheData := cacheData.Assign(k, v);
        var _ := Get(key);
        return;
      }
      if cacheData.Len() >= maxItems {
        var lruKey := Discard();
        discarded := Some(lruKey);
      }
      Store(k, v);
    }

    /**
     * The discarding step of `put` on a full cache: the first key of the
     * bucket of `min(frequency.values())` leaves `cache_data`, `frequency`
     * and its bucket, and the bucket goes when it empties.
     */
    method Discard() returns (lruKey: K)
      requires Valid() && |cacheData.keys| > 0
      modifies this
      ensures lruKey == Victim(old(State())) && State() == Evict(old(State()), lruKey)
      ensures Valid()
    {
      MinBucketStep(cacheData, frequency, lru, lruCounter);
      var minFreq := MinFrequency(cacheData.keys, frequency);
      lruKey := lru[minFreq].First();
      EvictStep(cacheData, frequency, lru, lruCounter, minFreq, lruKey);
      cacheData := cacheData.Pop(lruKey);
      frequency := frequency - {lruKey};
      lru := Unlink(lru, minFreq, lruKey);
    }

    /**
     * The storing step of `put` for a new key: the item, frequency 1, and
     * the key at the end of bucket 1 with the next stamp.
     */
    method Store(k: K, v: V)
      requires Valid() && k !in cacheData.data
      modifies this
      ensures State() == Insert(old(State()), k, v)
      ensures Valid()
    {
      InsertStep(cacheData, frequency, lru, lruCounter, k, v);
      var bucket := Bucket(lru, 1);
      cacheData := cacheData.Assign(k, v);
      frequency := frequency[k := 1];
      lru := lru[1 := bucket.Assign(k, lruCounter)];
      lruCounter := lruCounter + 1;
    }

    /**
     * `get(key)`: the stored item of a present key, whose frequency goes one
     * up and which moves from its bucket to the end of the next one with a
     * fresh stamp; `None` or an absent key changes nothing.
     */
    method Get(key: Option<K>) returns (r: Option<V>)
      requires Valid()
      modifies this
      ensures Valid()
      ensures (State(), r) == GetState(old(State()), key)
    {
      if key.None? || key.value !in cacheData.data {
        return None;
      }
      var k := key.value;
      GetStep(cacheData, frequency, lru, lruCounter, k);
      var value := cacheData.data[k];
      var freq := frequency[k];
      frequency := Increment(frequency, k);
      lru := Unlink(lru, freq, k);
      lru := lru[freq + 1 := Bucket(lru, freq + 1).Assign(k, lruCounter)];
      lruCounter := lruCounter + 1;
      return Some(value);
    }
  }
}

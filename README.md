# Caching policies and pagination, modelled in Dafny

This project models two small Python exercises and proves properties of them.

**Caching (`0x01-caching`).** Each cache stores key/item pairs in `cache_data`.
`put(key, item)` ignores a `None` key or item. `get(key)` answers the stored
item, or `None`. The bounded caches hold at most `MAX_ITEMS` entries and
discard one when a new entry arrives and the cache is full.

- `BasicCache` (`basic_cache.dfy`) has no bound. `cache_data` is a `map`.
- `LIFOCache` (`lifo_cache.dfy`), when full, pops the last entry of its
  `OrderedDict` before storing.
- `MRUCache` (`mru_cache.dfy`) keeps the entries in order of use. `put` of a
  present key and a successful `get` move the key to the end. A full cache
  drops the last, most recently used, key.
- `LFUCache` (`lfu_cache.dfy`) keeps four attributes:
  - `cache_data`;
  - `frequency`, the use count per key;
  - `lru`, one bucket per frequency in use: an `OrderedDict` from key to the
    `lru_counter` stamp the key received when it reached that frequency;
  - `lru_counter`.

  When full, it discards the first key of the bucket of the smallest
  frequency. The invariant `Inv` ties the four attributes together. The
  model proves that `put` and `get` keep `Inv`. It also proves that the key
  discarded is the unique key that is least frequently used and, among keys
  with that frequency, reached it first.
- `OrderedDicts` (`ordered_dict.dfy`) models the parts of Python's
  `collections.OrderedDict` the caches use.

Each cache is a `class` whose methods update its attributes in place. Every
state-changing method is proved equal to a pure state-transition function
(`PutState`, `GetState`), and the properties are lemmas about those
functions. `LIFOCache.get` changes nothing, so its answer is stated directly.

**Pagination (`0x00-pagination`).**

- `index_range` and `Server.get_page` (`simple_pagination.dfy`). The dataset
  is a parameter. The model proves that the pages tile the dataset.
- `Server.indexed_dataset` and `Server.get_hyper_index`
  (`hypermedia_del_pagination.dfy`). The index map is a parameter, so rows
  can be deleted from it. `get_hyper_index` is a method with the source's two
  `while` loops. It is proved against `IsHyperPage`, a declarative
  description of the answer. Lemmas show that the answer is unique, that
  consecutive pages continue each other, and that without deletions a page
  is a plain slice.

Where the code differs from its own documentation, the model follows the
code:

- `LIFOCache.put` tests the capacity before it checks whether the key is
  present. Re-putting a present key into a full cache therefore pops the
  last entry first, and when that key is not the last one the cache shrinks
  (`LifoCaching.OverwriteWhenFullShrinks`).
- Both loops of `get_hyper_index` stop at `len(indexed_dataset)`, the number
  of rows left, not at the largest index. After a deletion, rows whose
  index is at or beyond the remaining row count are never reached
  (`HypermediaPagination.HoleHidesLastRow`).

## Model

| member | source | states |
|---|---|---|
| OrderedDicts.OrderedDict.Len | 0x01-caching/2-lifo_cache.py:45 | `len(d)` is the number of mapped keys |
| OrderedDicts.OrderedDict.Get | 0x01-caching/2-lifo_cache.py:63 | `d.get(k)` is `Some` exactly when `k` is mapped, with its value |
| OrderedDicts.OrderedDict.Assign | 0x01-caching/2-lifo_cache.py:48 | `d[k] = v` maps `k` to `v`; a new key goes last, a present key keeps its place; validity is kept |
| OrderedDicts.OrderedDict.PopItem | 0x01-caching/2-lifo_cache.py:46 | `popitem()` returns the last key and leaves the other keys in order, without it |
| OrderedDicts.OrderedDict.Pop | 0x01-caching/100-lfu_cache.py:60 | `pop(k)` removes `k` from the data and from the order; the others keep their order |
| OrderedDicts.OrderedDict.MoveToEnd | 0x01-caching/4-mru_cache.py:29 | `move_to_end(k)` makes `k` last; the other keys keep their order; the data is unchanged |
| OrderedDicts.OrderedDict.First | 0x01-caching/100-lfu_cache.py:59 | `next(iter(d))` is the first key, and it is mapped |
| OrderedDicts.Empty | 0x01-caching/2-lifo_cache.py:29 | `OrderedDict()` is valid and has no keys |
| OrderedDicts.Remove | 0x01-caching/100-lfu_cache.py:62 | removing a key keeps exactly the other elements, without repetitions, one fewer when the key was present |
| OrderedDicts.RemoveAt | 0x01-caching/100-lfu_cache.py:62 | removing the element at position `m` of a repetition-free order closes the gap |
| OrderedDicts.RemoveLast | 0x01-caching/2-lifo_cache.py:46 | removing the last element of a repetition-free order leaves its prefix |
| OrderedDicts.DistinctCard | 0x01-caching/2-lifo_cache.py:45 | a repetition-free key order has as many entries as the key set |
| BasicCaching.PutState | 0x01-caching/0-basic_cache.py:24-37 | `None` key or item leaves the cache unchanged; otherwise the key maps to the item, other keys keep their items, no other key appears, and the size grows by one exactly for a new key |
| BasicCaching.Lookup | 0x01-caching/0-basic_cache.py:39-51 | `get` answers `Some` exactly for a present non-`None` key, with its item |
| BasicCaching.PutThenGet | 0x01-caching/0-basic_cache.py:37-51 | after `put(k, v)`, `get(k)` is `v`, and `get` of any other key is as before |
| BasicCaching.BasicCache.constructor | 0x01-caching/0-basic_cache.py:18-22 | a new cache is empty |
| BasicCaching.BasicCache.Put | 0x01-caching/0-basic_cache.py:24-37 | the new `cache_data` is `PutState` of the old |
| BasicCaching.BasicCache.Get | 0x01-caching/0-basic_cache.py:39-51 | the answer is `Lookup` of `cache_data` |
| LifoCaching.PutState | 0x01-caching/2-lifo_cache.py:31-48 | `None` changes nothing; a key is discarded exactly when the cache is full, whether or not the key is present, and it is the last key; the new order and data follow; the bound is kept |
| LifoCaching.PutThenGet | 0x01-caching/2-lifo_cache.py:48-63 | after `put(k, v)`, `get(k)` answers `v` |
| LifoCaching.OverwriteWhenFullShrinks | 0x01-caching/2-lifo_cache.py:45-48 | re-putting a present key that is not the last into a full cache discards the last key, and one entry is lost |
| LifoCaching.LIFOCache.constructor | 0x01-caching/2-lifo_cache.py:20-29 | a new cache has an empty `OrderedDict` |
| LifoCaching.LIFOCache.Put | 0x01-caching/2-lifo_cache.py:31-48 | the new `cache_data` and the discarded key are `PutState` of the old `cache_data` |
| LifoCaching.LIFOCache.Get | 0x01-caching/2-lifo_cache.py:50-63 | answers the item exactly for a present non-`None` key, and `None` otherwise |
| MruCaching.PutState | 0x01-caching/4-mru_cache.py:19-34 | `None` changes nothing; a key is discarded exactly when a new key meets a full cache, and it is the last key; the put key ends up last; the other keys keep their order; size and bound follow |
| MruCaching.GetState | 0x01-caching/4-mru_cache.py:36-48 | `get` answers the item exactly for a present key and moves that key to the end; otherwise nothing changes |
| MruCaching.PutThenGet | 0x01-caching/4-mru_cache.py:34-48 | after `put(k, v)`, `get(k)` answers `v` |
| MruCaching.GetKeepsOthersInOrder | 0x01-caching/4-mru_cache.py:47 | a successful `get` keeps the relative order of every other pair of keys and puts them before the key read |
| MruCaching.RemoveKeepsOrder | 0x01-caching/4-mru_cache.py:29 | taking one key out of the order keeps the relative order of the others |
| MruCaching.MRUCache.constructor | 0x01-caching/4-mru_cache.py:15-17 | a new cache has an empty `OrderedDict` |
| MruCaching.MRUCache.Put | 0x01-caching/4-mru_cache.py:19-34 | the new `cache_data` and the discarded key are `PutState` of the old `cache_data` |
| MruCaching.MRUCache.Get | 0x01-caching/4-mru_cache.py:36-48 | the new `cache_data` and the answer are `GetState` of the old `cache_data` |
| LfuCaching.Init | 0x01-caching/100-lfu_cache.py:30-34 | the initial attributes satisfy the invariant and hold no entry |
| LfuCaching.Bucket | 0x01-caching/100-lfu_cache.py:33 | reading `lru[f]` of the `defaultdict`: the bucket of frequency `f`, or an empty `OrderedDict` when there is none |
| LfuCaching.Unlink | 0x01-caching/100-lfu_cache.py:90-92 | popping `k` from bucket `f` leaves other buckets alone; bucket `f` is dropped exactly when `k` was its only key |
| LfuCaching.MinFrequency | 0x01-caching/100-lfu_cache.py:58 | `min(frequency.values())` is the frequency of some key and at most every key's frequency |
| LfuCaching.Increment | 0x01-caching/100-lfu_cache.py:89 | `frequency[key] += 1` raises that one count and changes no other |
| LfuCaching.PopKeepsStamps | 0x01-caching/100-lfu_cache.py:62 | popping a key from a bucket keeps its stamps increasing along its order |
| LfuCaching.GapKeepsStamps | 0x01-caching/100-lfu_cache.py:62 | stamps stay increasing once the key at one position is removed |
| LfuCaching.AppendKeepsStamps | 0x01-caching/100-lfu_cache.py:69 | appending a key with the current counter keeps the stamps increasing |
| LfuCaching.UnfileKeeps | 0x01-caching/100-lfu_cache.py:60-64 | dropping a key from `frequency` and from its bucket keeps the bookkeeping invariant |
| LfuCaching.FileKeeps | 0x01-caching/100-lfu_cache.py:67-70 | filing an absent key at the end of a bucket with the next stamp keeps the bookkeeping invariant and appends it |
| LfuCaching.Refile | 0x01-caching/100-lfu_cache.py:90-94 | computes `lru` after `get` moves key `k` of bucket `f`: `Unlink`, then `k` appended to bucket `f + 1` with stamp `lru_counter` |
| LfuCaching.RefileKeeps | 0x01-caching/100-lfu_cache.py:88-94 | moving a key from bucket `f` to bucket `f + 1` with its frequency raised keeps the bookkeeping invariant |
| LfuCaching.RefileAppends | 0x01-caching/100-lfu_cache.py:93 | the refiled key is appended to bucket `f + 1` with the current stamp |
| LfuCaching.RefileLeaves | 0x01-caching/100-lfu_cache.py:90-92 | bucket `f` loses exactly the refiled key and keeps its other keys in order; it disappears exactly when it held only that key |
| LfuCaching.RefileKeepsOthers | 0x01-caching/100-lfu_cache.py:90-93 | no other bucket changes and no other bucket appears |
| LfuCaching.Promote | 0x01-caching/100-lfu_cache.py:88-94 | computes the attributes after `get` of a present key: `cache_data` unchanged, `Increment`ed frequency, `Refile`d `lru`, counter plus one |
| LfuCaching.GetState | 0x01-caching/100-lfu_cache.py:72-96 | `get` answers the item exactly for a present non-`None` key, raises its frequency by one and advances the counter; otherwise nothing changes; `cache_data` never changes |
| LfuCaching.GetMovesToEnd | 0x01-caching/100-lfu_cache.py:88-94 | `get` of a present key raises its frequency by one, appends it to the bucket of the next frequency with the current stamp, and removes it from its old bucket, which keeps its other keys in order or is dropped exactly when it held only that key |
| LfuCaching.PromoteKeepsInv | 0x01-caching/100-lfu_cache.py:86-94 | the promotion of a present key keeps the invariant |
| LfuCaching.PromotedInv | 0x01-caching/100-lfu_cache.py:88-94 | the refiled attributes are well formed and satisfy the invariant |
| LfuCaching.GetKeepsInv | 0x01-caching/100-lfu_cache.py:72-96 | `get` keeps the invariant |
| LfuCaching.EvictableUnique | 0x01-caching/100-lfu_cache.py:38-40 | at most one key is least frequently used and, among those, least recently refiled |
| LfuCaching.MinFrequencyInUse | 0x01-caching/100-lfu_cache.py:58-59 | in a non-empty cache the bucket of the minimal frequency exists |
| LfuCaching.FirstOfMinimalBucket | 0x01-caching/100-lfu_cache.py:58-59 | the first key of the minimal bucket has minimal frequency and the smallest stamp among its peers |
| LfuCaching.Victim | 0x01-caching/100-lfu_cache.py:57-59 | the key `put` discards is the first of its bucket and the least frequently used, least recently refiled key |
| LfuCaching.Evict | 0x01-caching/100-lfu_cache.py:60-64 | computes the attributes after discarding `victim`: popped from `cache_data` and `frequency`, and `Unlink`ed from its bucket |
| LfuCaching.EvictKeepsInv | 0x01-caching/100-lfu_cache.py:60-64 | discarding a key keeps the invariant |
| LfuCaching.Insert | 0x01-caching/100-lfu_cache.py:67-70 | computes the attributes after storing a new key: the item in `cache_data`, frequency 1, the key appended to bucket 1 with stamp `lru_counter`, counter plus one |
| LfuCaching.InsertKeepsInv | 0x01-caching/100-lfu_cache.py:67-70 | storing a new key with frequency 1 keeps the invariant |
| LfuCaching.InsertAppends | 0x01-caching/100-lfu_cache.py:69 | a new key becomes the last key of bucket 1 |
| LfuCaching.AssignKeepsInv | 0x01-caching/100-lfu_cache.py:53 | overwriting a present key's item keeps the invariant |
| LfuCaching.EvictAndInsert | 0x01-caching/100-lfu_cache.py:57-70 | computes `put` of a new key into a full cache: `Evict` of `Victim`, then `Insert`, with the discarded key |
| LfuCaching.PutState | 0x01-caching/100-lfu_cache.py:36-70 | `None` changes nothing; otherwise `get(key)` afterwards sees the item; a key is discarded exactly when a new key meets a full cache |
| LfuCaching.AssignThenGetKeepsInv | 0x01-caching/100-lfu_cache.py:52-55 | `put` of a present key keeps the invariant through both steps |
| LfuCaching.EvictAndInsertKeepsInv | 0x01-caching/100-lfu_cache.py:57-70 | `put` of a new key into a full cache keeps the invariant |
| LfuCaching.PutKeepsInv | 0x01-caching/100-lfu_cache.py:36-70 | `put` keeps the invariant |
| LfuCaching.PutPresent | 0x01-caching/100-lfu_cache.py:52-55 | `put` of a present key replaces its item in place, counts one use and discards nothing |
| LfuCaching.PutEvicts | 0x01-caching/100-lfu_cache.py:57-70 | `put` of a new key into a full cache discards an evictable key other than the new key and appends the new key with frequency 1 |
| LfuCaching.PutAppends | 0x01-caching/100-lfu_cache.py:67-70 | `put` of a new key into a cache that is not full appends it with frequency 1 and discards nothing |
| LfuCaching.PutNewKeyLast | 0x01-caching/100-lfu_cache.py:67-69 | a new key has frequency 1 and is the last key of bucket 1 |
| LfuCaching.PutBounded | 0x01-caching/100-lfu_cache.py:57-70 | `put` never takes the cache beyond `MAX_ITEMS` entries |
| LfuCaching.GetStep | 0x01-caching/100-lfu_cache.py:86-96 | `get`'s statements, in order, compute `GetState` and keep the invariant |
| LfuCaching.MinBucketStep | 0x01-caching/100-lfu_cache.py:58-59 | in a non-empty cache, `lru[min_freq]` is a non-empty bucket |
| LfuCaching.EvictStep | 0x01-caching/100-lfu_cache.py:58-64 | the discarding statements pick `Victim` and compute `Evict`, which keeps the invariant |
| LfuCaching.InsertStep | 0x01-caching/100-lfu_cache.py:67-70 | the storing statements compute `Insert`, which keeps the invariant |
| LfuCaching.LFUCache.constructor | 0x01-caching/100-lfu_cache.py:18-34 | a new cache has the initial attributes and the invariant |
| LfuCaching.LFUCache.Put | 0x01-caching/100-lfu_cache.py:36-70 | the new attributes and the discarded key are `PutState` of the old attributes; the invariant is kept |
| LfuCaching.LFUCache.Discard | 0x01-caching/100-lfu_cache.py:57-64 | the key removed is `Victim`, and the new attributes are `Evict` of the old |
| LfuCaching.LFUCache.Store | 0x01-caching/100-lfu_cache.py:67-70 | the new attributes are `Insert` of the old |
| LfuCaching.LFUCache.Get | 0x01-caching/100-lfu_cache.py:72-96 | the new attributes and the answer are `GetState` of the old attributes; the invariant is kept |
| SimplePagination.IndexRange | 0x00-pagination/1-simple_pagination.py:10-22 | a page spans `page_size` indices; page 1 starts at 0; no page from 1 on starts below 0 |
| SimplePagination.ConsecutivePages | 0x00-pagination/1-simple_pagination.py:20-22 | page `p + 1` starts where page `p` ends |
| SimplePagination.GetPage | 0x00-pagination/1-simple_pagination.py:47-71 | page below 1, then page size below 1, are refused; otherwise the rows of the range, in order, clamped to the dataset, none past its end |
| SimplePagination.PagesCover | 0x00-pagination/1-simple_pagination.py:65-71 | pages 1 to `n`, concatenated, are the first `n * page_size` rows, each once |
| SimplePagination.RowOnPage | 0x00-pagination/1-simple_pagination.py:65-71 | row `i` is on page `i / page_size + 1` at position `i % page_size` |
| HypermediaPagination.IndexCard | 0x00-pagination/3-hypermedia_del_pagination.py:36-38 | the index map over the first `n` rows has `n` entries |
| HypermediaPagination.IndexDataset | 0x00-pagination/3-hypermedia_del_pagination.py:36-38 | the index map holds exactly the indices `0 <= i < len(dataset)`, each mapped to its row |
| HypermediaPagination.PresentSplit | 0x00-pagination/3-hypermedia_del_pagination.py:63-67 | the rows present in `[a, c)` are those in `[a, b)` followed by those in `[b, c)` |
| HypermediaPagination.PresentSkipsHoles | 0x00-pagination/3-hypermedia_del_pagination.py:70-71 | a range of deleted indices adds no row |
| HypermediaPagination.PresentNoDeletions | 0x00-pagination/3-hypermedia_del_pagination.py:36-38 | without deletions, the rows present in `[a, b)` are the slice `dataset[a:b]` |
| HypermediaPagination.SameStop | 0x00-pagination/3-hypermedia_del_pagination.py:63-67 | the first loop can stop at only one index |
| HypermediaPagination.SameNext | 0x00-pagination/3-hypermedia_del_pagination.py:70-71 | the second loop can stop at only one index |
| HypermediaPagination.HyperPageUnique | 0x00-pagination/3-hypermedia_del_pagination.py:58-78 | for given index and page size there is one answer |
| HypermediaPagination.HyperPageFacts | 0x00-pagination/3-hypermedia_del_pagination.py:58-78 | the answer echoes `index`; `page_size` is the row count, at most the requested size; `data` is every row present from `index` up to `next_index`; `next_index` is a present index or `len`; a short page ends at `len` |
| HypermediaPagination.NextPageContinues | 0x00-pagination/3-hypermedia_del_pagination.py:63-75 | requesting the page at `next_index` continues the previous page without skipping or repeating a present row |
| HypermediaPagination.NoDeletions | 0x00-pagination/3-hypermedia_del_pagination.py:36-78 | without deletions, a page is `dataset[index:index + page_size]`, clamped, and `next_index` is `index` plus its row count |
| HypermediaPagination.HoleHidesLastRow | 0x00-pagination/3-hypermedia_del_pagination.py:63-71 | after deleting row 1 of three, the page at 0 ends at index 2 = `len` and never shows row 2 |
| HypermediaPagination.GetHyperIndex | 0x00-pagination/3-hypermedia_del_pagination.py:41-78 | a missing or out-of-range index, then a non-positive page size, are refused; otherwise the answer is the one described by `IsHyperPage` |

## Left out

- Reading `Popular_Baby_Names.csv` and memoising the dataset in `Server.dataset` and `Server.indexed_dataset`: the dataset is a parameter, and `IndexDataset` builds the index map from it.
- `truncated_dataset` in `indexed_dataset` is computed and never used, so it is not modelled.
- Deleting rows from the index map is not an operation of the source. The map given to `GetHyperIndex` may have any keys, which covers any deletion.
- `base_caching.py` is not part of this model. `MAX_ITEMS` is a constructor parameter of at least 1 (`BaseCaching.MaxItems`), and `print_cache` is left out.
- `print(f"DISCARD: ...")` is output. The bounded caches' `Put` returns the discarded key instead.
- `isinstance` checks are replaced by Dafny types. A Python `None` key, item or index is `Option.None`.
- A failing `assert` in `get_page` or `get_hyper_index` becomes an `Err` result naming the failed condition, not an exception.
- The default arguments (`page=1`, `page_size=10`, `index=None`) are left out. Callers pass every argument.
- LfuCaching.MinFrequency: takes `min` over the values in the order of `cache_data`'s keys. `frequency` has exactly those keys, so the value is the same.
- Python `defaultdict` is modelled by `Bucket`, which reads a missing bucket as empty. `frequency` is a plain `map`, because the source reads only present keys.
- Python's unbounded `int` matches Dafny's `int`, so no width is modelled.

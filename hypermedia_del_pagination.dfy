/**
 * Deletion-resilient hypermedia pagination
 * (0x00-pagination/3-hypermedia_del_pagination.py). The dataset is indexed
 * by position into a map from row number to row; rows may later be deleted
 * from that map, leaving holes. `get_hyper_index(index, page_size)` scans the
 * map upward from `index`, skipping holes, until it has `page_size` rows or
 * reaches `len(indexed_dataset)`, then moves `next_index` past any holes that
 * follow. Both scans stop at the number of rows left in the map, not at its
 * largest key. The map, which the source builds once from a CSV file, is a
 * parameter here.
 */
module HypermediaPagination {
  import opened Wrappers
  import SimplePagination

  /** Why `get_hyper_index` refuses its arguments: one of its two `assert`s fails. */
  datatype HyperError = IndexOutOfRange | PageSizeNotPositive

  /** The dictionary `get_hyper_index` answers with. */
  datatype HyperPage<Row> = HyperPage(index: int, nextIndex: int, pageSize: int, data: seq<Row>)

  /** The first `n` positions of the dataset, indexed, make a map of `n` entries. */
  lemma {:induction false} IndexCard<Row>(dataset: seq<Row>, n: nat)
    requires n <= |dataset|
    ensures |map i | 0 <= i < n :: dataset[i]| == n
  {
    if n > 0 {
      IndexCard(dataset, n - 1);
      var smaller := map i | 0 <= i < n - 1 :: dataset[i];
      assert n - 1 !in smaller;
      assert (map i | 0 <= i < n :: dataset[i]) == smaller[n - 1 := dataset[n - 1]];
    }
  }

  /**
   * `{i: dataset[i] for i in range(len(dataset))}`: every position of the
   * dataset is a key, mapped to its row, and there are as many keys as rows.
   */
  function IndexDataset<Row>(dataset: seq<Row>): (m: map<int, Row>)
    ensures forall i :: i in m <==> 0 <= i < |dataset|
    ensures forall i | 0 <= i < |dataset| :: m[i] == dataset[i]
    ensures |m| == |dataset|
  {
    IndexCard(dataset, |dataset|);
    map i | 0 <= i < |dataset| :: dataset[i]
  }

  /** The rows at the keys of `[lo, hi)` that `m` still has, in increasing key order. */
  function Present<Row>(m: map<int, Row>, lo: int, hi: int): seq<Row>
    decreases hi - lo
  {
    if hi <= lo then [] else Present(m, lo, hi - 1) + (if hi - 1 in m then [m[hi - 1]] else [])
  }

  /** Reading `[a, b)` and then `[b, c)` reads `[a, c)`. */
  lemma {:induction false} PresentSplit<Row>(m: map<int, Row>, a: int, b: int, c: int)
    requires a <= b <= c
    ensures Present(m, a, b) + Present(m, b, c) == Present(m, a, c)
    decreases c - b
  {
    if c > b {
      PresentSplit(m, a, b, c - 1);
      var last := if c - 1 in m then [m[c - 1]] else [];
      assert Present(m, a, b) + (Present(m, b, c - 1) + last) == (Present(m, a, b) + Present(m, b, c - 1)) + last;
    }
  }

  /** Keys missing from the map add nothing to a scan. */
  lemma {:induction false} PresentSkipsHoles<Row>(m: map<int, Row>, a: int, b: int, c: int)
    requires a <= b <= c
    requires forall j | b <= j < c :: j !in m
    ensures Present(m, a, c) == Present(m, a, b)
    decreases c - b
  {
    if c > b {
      assert c - 1 !in m;
      PresentSkipsHoles(m, a, b, c - 1);
    }
  }

  /** A scan of one more key finds at most one more row. */
  lemma PresentStep<Row>(m: map<int, Row>, a: int, b: int)
    requires a <= b
    ensures |Present(m, a, b + 1)| <= |Present(m, a, b)| + 1
  {
  }

  /** Without deletions, a scan of `[a, b)` reads `dataset[a..b]`. */
  lemma {:induction false} PresentNoDeletions<Row>(dataset: seq<Row>, a: int, b: int)
    requires 0 <= a <= b <= |dataset|
    ensures Present(IndexDataset(dataset), a, b) == dataset[a..b]
    decreases b - a
  {
    if b > a {
      PresentNoDeletions(dataset, a, b - 1);
      assert dataset[a..b] == dataset[a..b - 1] + [dataset[b - 1]];
    }
  }

  /**
   * Where the first loop of `get_hyper_index` stops: at the first key from
   * `index` on where `page_size` rows have been read, or at
   * `len(indexed_dataset)`, whichever comes first.
   */
  ghost predicate FirstScanStops<Row>(m: map<int, Row>, index: int, pageSize: int, stop: int) {
    && index <= stop <= |m|
    && (|Present(m, index, stop)| == pageSize || stop == |m|)
    && forall k | index <= k < stop :: |Present(m, index, k)| < pageSize
  }

  /**
   * Where the second loop takes `next_index` from `stop`: past the holes
   * that follow, to a key the map has or to `len(indexed_dataset)`.
   */
  ghost predicate SkipsHoles<Row>(m: map<int, Row>, stop: int, next: int) {
    && stop <= next <= |m|
    && (next == |m| || next in m)
    && forall j | stop <= j < next :: j !in m
  }

  /** `p` is the answer of `get_hyper_index(index, page_size)` on the map `m`. */
  ghost predicate IsHyperPage<Row>(m: map<int, Row>, index: int, pageSize: int, p: HyperPage<Row>) {
    && p.index == index
    && p.pageSize == |p.data|
    && exists stop | FirstScanStops(m, index, pageSize, stop) ::
         p.data == Present(m, index, stop) && SkipsHoles(m, stop, p.nextIndex)
  }

  /** The answer is determined by its arguments: two answers to the same request are equal. */
  lemma HyperPageUnique<Row>(m: map<int, Row>, index: int, pageSize: int, p: HyperPage<Row>, q: HyperPage<Row>)
    requires IsHyperPage(m, index, pageSize, p) && IsHyperPage(m, index, pageSize, q)
    ensures p == q
  {
    var s :| FirstScanStops(m, index, pageSize, s) && p.data == Present(m, index, s) && SkipsHoles(m, s, p.nextIndex);
    var t :| FirstScanStops(m, index, pageSize, t) && q.data == Present(m, index, t) && SkipsHoles(m, t, q.nextIndex);
    SameStop(m, index, pageSize, s, t);
    SameNext(m, s, p.nextIndex, q.nextIndex);
  }

  /** The first loop has one place to stop. */
  lemma SameStop<Row>(m: map<int, Row>, index: int, pageSize: int, s: int, t: int)
    requires FirstScanStops(m, index, pageSize, s) && FirstScanStops(m, index, pageSize, t)
    ensures s == t
  {
    assert s < t ==> |Present(m, index, s)| < pageSize;
    assert t < s ==> |Present(m, index, t)| < pageSize;
  }

  /** The second loop has one place to stop. */
  lemma SameNext<Row>(m: map<int, Row>, stop: int, a: int, b: int)
    requires SkipsHoles(m, stop, a) && SkipsHoles(m, stop, b)
    ensures a == b
  {
    assert a < b ==> a !in m;
    assert b < a ==> b !in m;
  }

  /**
   * What the answer promises: it echoes `index`; `"page_size"` counts the
   * rows, at most the requested size; `index <= next_index <= len`; the rows
   * are every row at a key in `[index, next_index)`, in key order, holes
   * skipped; `next_index` is a key the map has, or the end; and a short page
   * means the end was reached.
   */
  lemma HyperPageFacts<Row>(m: map<int, Row>, index: int, pageSize: int, p: HyperPage<Row>)
    requires IsHyperPage(m, index, pageSize, p) && pageSize > 0
    ensures p.index == index && p.pageSize == |p.data| <= pageSize
    ensures index <= p.nextIndex <= |m|
    ensures p.data == Present(m, index, p.nextIndex)
    ensures p.nextIndex == |m| || p.nextIndex in m
    ensures |p.data| < pageSize ==> p.nextIndex == |m|
  {
    var s :| FirstScanStops(m, index, pageSize, s) && p.data == Present(m, index, s) && SkipsHoles(m, s, p.nextIndex);
    if s > index {
      assert |Present(m, index, s - 1)| < pageSize;
      PresentStep(m, index, s - 1);
    }
    PresentSkipsHoles(m, index, s, p.nextIndex);
  }

  /**
   * Following `next_index` from page to page reads every row once: the rows
   * of a page and of the page at its `next_index` are all the rows from the
   * first page's `index` to the second page's `next_index`.
   */
  lemma NextPageContinues<Row>(m: map<int, Row>, pageSize: int, p: HyperPage<Row>, q: HyperPage<Row>)
    requires pageSize > 0
    requires IsHyperPage(m, p.index, pageSize, p) && IsHyperPage(m, p.nextIndex, pageSize, q)
    ensures p.data + q.data == Present(m, p.index, q.nextIndex)
  {
    HyperPageFacts(m, p.index, pageSize, p);
    HyperPageFacts(m, p.nextIndex, pageSize, q);
    PresentSplit(m, p.index, p.nextIndex, q.nextIndex);
  }

  /**
   * With no deletions (the map built by `IndexDataset`), a page is the slice
   * of the dataset from `index`, `page_size` rows long or up to the end, and
   * `next_index` is the position just after it.
   */
  lemma NoDeletions<Row>(dataset: seq<Row>, index: int, pageSize: int, p: HyperPage<Row>)
    requires 0 <= index < |dataset| && pageSize > 0
    requires IsHyperPage(IndexDataset(dataset), index, pageSize, p)
    ensures p.data == dataset[index..SimplePagination.Min(index + pageSize, |dataset|)]
    ensures p.nextIndex == index + |p.data|
  {
    var m := IndexDataset(dataset);
    var s :| FirstScanStops(m, index, pageSize, s) && p.data == Present(m, index, s) && SkipsHoles(m, s, p.nextIndex);
    PresentNoDeletions(dataset, index, s);
    if s > index + pageSize {
      PresentNoDeletions(dataset, index, index + pageSize);
    }
    assert s == SimplePagination.Min(index + pageSize, |dataset|);
    assert s < |dataset| ==> s in m;
  }

  /**
   * Both scans stop at `len(indexed_dataset)`, so after a deletion the rows
   * at the highest keys are out of reach: with row 1 deleted from three rows,
   * a page of 10 from index 0 holds only row 0 and ends at `next_index` 2,
   * and index 2 itself is refused.
   */
  lemma HoleHidesLastRow<Row>(a: Row, b: Row)
    ensures IsHyperPage(map[0 := a, 2 := b], 0, 10, HyperPage(0, 2, 1, [a]))
    ensures 2 >= |map[0 := a, 2 := b]|
  {
    var m := map[0 := a, 2 := b];
    assert m.Keys == {0, 2};
    assert Present(m, 0, 1) == [a];
    assert FirstScanStops(m, 0, 10, 2);
  }

  /**
   * `get_hyper_index(index, page_size)`: refuses a missing index or one
   * outside `[0, len(indexed_dataset))`, then a page size below 1; otherwise
   * answers the page `IsHyperPage` describes.
   */
  method GetHyperIndex<Row>(indexed: map<int, Row>, index: Option<int>, pageSize: int)
    returns (r: Result<HyperPage<Row>, HyperError>)
    ensures index.None? || index.value < 0 || index.value >= |indexed| ==> r == Err(IndexOutOfRange)
    ensures index.Some? && 0 <= index.value < |indexed| && pageSize <= 0 ==> r == Err(PageSizeNotPositive)
    ensures r.Ok? <==> index.Some? && 0 <= index.value < |indexed| && pageSize > 0
    ensures r.Ok? ==> IsHyperPage(indexed, index.value, pageSize, r.value)
  {
    if index.None? || !(0 <= index.value < |indexed|) {
      return Err(IndexOutOfRange);
    }
    if pageSize <= 0 {
      return Err(PageSizeNotPositive);
    }
    var start := index.value;
    var data: seq<Row> := [];
    var nextIndex := start;
    var currentSize := 0;
    while currentSize < pageSize && nextIndex < |indexed|
      invariant start <= nextIndex <= |indexed|
      invariant data == Present(indexed, start, nextIndex)
      invariant currentSize == |data| <= pageSize
      invariant forall k | start <= k < nextIndex :: |Present(indexed, start, k)| < pageSize
      decreases |indexed| - nextIndex
    {
      if nextIndex in indexed {
        data := data + [indexed[nextIndex]];
        currentSize := currentSize + 1;
      }
      nextIndex := nextIndex + 1;
    }
    ghost var stop := nextIndex;
    assert FirstScanStops(indexed, start, pageSize, stop);
    while nextIndex < |indexed| && nextIndex !in indexed
      invariant stop <= nextIndex <= |indexed|
      invariant forall j | stop <= j < nextIndex :: j !in indexed
      decreases |indexed| - nextIndex
    {
      nextIndex := nextIndex + 1;
    }
    r := Ok(HyperPage(start, nextIndex, currentSize, data));
  }
}

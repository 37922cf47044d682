/**
 * Simple pagination (0x00-pagination/1-simple_pagination.py): `index_range`
 * turns a 1-based page number and a page size into the half-open range of
 * row indices of that page, and `Server.get_page` cuts that range out of the
 * dataset, clamped to its end. The dataset, which the source reads once from
 * a CSV file, is a parameter here.
 */
module SimplePagination {
  import opened Wrappers

  /** Why `get_page` refuses its arguments: one of its two `assert`s fails. */
  datatype PageError = PageNotPositive | PageSizeNotPositive

  /** The smaller of `a` and `b`, as Python's `min`. */
  function Min(a: int, b: int): int {
    if a < b then a else b
  }

  /**
   * `index_range(page, page_size)`: the start and end index of a page. A page
   * spans `page_size` indices, the first page starts at 0, and no page from
   * the first on starts below 0.
   */
  function IndexRange(page: int, pageSize: int): (r: (int, int))
    ensures r.1 - r.0 == pageSize
    ensures page == 1 ==> r.0 == 0
    ensures page >= 1 && pageSize >= 0 ==> r.0 >= 0
  {
    var start := (page - 1) * pageSize;
    (start, start + pageSize)
  }

  /** Consecutive pages are contiguous: page `page + 1` starts where page `page` ends. */
  lemma ConsecutivePages(page: int, pageSize: int)
    ensures IndexRange(page + 1, pageSize).0 == IndexRange(page, pageSize).1
  {
    assert page * pageSize == (page - 1) * pageSize + pageSize;
  }

  /**
   * `get_page(page, page_size)`: refuses a page below 1, then a page size
   * below 1; otherwise the rows of the page's range that the dataset has, in
   * dataset order: none when the range starts at or past the end, and at most
   * `page_size` of them.
   */
  function GetPage<Row>(dataset: seq<Row>, page: int, pageSize: int): (r: Result<seq<Row>, PageError>)
    ensures page <= 0 ==> r == Err(PageNotPositive)
    ensures page > 0 && pageSize <= 0 ==> r == Err(PageSizeNotPositive)
    ensures r.Ok? <==> page > 0 && pageSize > 0
    ensures r.Ok? ==> |r.value| <= pageSize
    ensures r.Ok? ==> var start := IndexRange(page, pageSize).0;
      && (start >= |dataset| ==> r.value == [])
      && (start < |dataset| ==> |r.value| == Min(pageSize, |dataset| - start))
      && forall j | 0 <= j < |r.value| :: 0 <= start + j < |dataset| && r.value[j] == dataset[start + j]
  {
    if page <= 0 then Err(PageNotPositive)
    else if pageSize <= 0 then Err(PageSizeNotPositive)
    else
      var (start, end) := IndexRange(page, pageSize);
      if start >= |dataset| then Ok([])
      else Ok(dataset[start..Min(end, |dataset|)])
  }

  /** Pages `1` to `n` of the dataset, one after the other. */
  function Pages<Row>(dataset: seq<Row>, pageSize: int, n: nat): seq<Row>
    requires pageSize > 0
  {
    if n == 0 then [] else Pages(dataset, pageSize, n - 1) + GetPage(dataset, n, pageSize).value
  }

  /**
   * The pages tile the dataset: pages `1` to `n`, read in turn, are the first
   * `n * page_size` rows (all rows once the dataset runs out), each row once.
   */
  lemma {:induction false} PagesCover<Row>(dataset: seq<Row>, pageSize: int, n: nat)
    requires pageSize > 0
    ensures Pages(dataset, pageSize, n) == dataset[..Min(n * pageSize, |dataset|)]
  {
    if n > 0 {
      var start := (n - 1) * pageSize;
      var end := start + pageSize;
      assert end == n * pageSize;
      assert start >= 0;
      PagesCover(dataset, pageSize, n - 1);
      var before := Pages(dataset, pageSize, n - 1);
      assert before == dataset[..Min(start, |dataset|)];
      var page := GetPage(dataset, n, pageSize).value;
      assert IndexRange(n, pageSize) == (start, end);
      if start >= |dataset| {
        assert page == [];
      } else {
        assert page == dataset[start..Min(end, |dataset|)];
        assert dataset[..start] + dataset[start..Min(end, |dataset|)] == dataset[..Min(end, |dataset|)];
      }
    }
  }

  /** Row `i` is on page `i / page_size + 1`, at position `i % page_size`. */
  lemma RowOnPage<Row>(dataset: seq<Row>, pageSize: int, i: int)
    requires pageSize > 0 && 0 <= i < |dataset|
    ensures var r := GetPage(dataset, i / pageSize + 1, pageSize);
      r.Ok? && i % pageSize < |r.value| && r.value[i % pageSize] == dataset[i]
  {
    var page := i / pageSize + 1;
    assert IndexRange(page, pageSize).0 == i - i % pageSize by {
      assert (page - 1) * pageSize + i % pageSize == i;
    }
  }
}

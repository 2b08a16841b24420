/** Paging of query results: the `GetPaged` extension, which fills a page
    record from a query, and the row arithmetic of `PagedResultBase`. */
module Pagination {
  import opened Query

  /** The page record `GetPaged` fills in. */
  datatype PagedResult<T> = PagedResult(
    pageIndex: int,
    pageSize: int,
    totalCount: nat,
    totalPages: nat,
    lowerBound: int,
    upperBound: int,
    results: seq<T>)

  /** Integer ceiling of n / d: what `Math.Ceiling((double)n / d)` yields
      for 32-bit operands, whose quotient a double holds exactly enough. */
  function CeilDiv(n: nat, d: nat): (q: nat)
    requires d > 0
    ensures q * d >= n
    ensures n > 0 ==> (q - 1) * d < n
    ensures n == 0 ==> q == 0
  {
    (n + d - 1) / d
  }

  /** `query.Skip(skip).Take(take)` */
  function SkipTake<T>(query: seq<T>, skip: nat, take: nat): (r: seq<T>)
    ensures |r| <= take
    ensures skip >= |query| ==> r == []
    ensures skip < |query| ==> |r| == if |query| - skip < take then |query| - skip else take
    ensures forall i :: 0 <= i < |r| ==> skip + i < |query| && r[i] == query[skip + i]
  {
    if skip >= |query| then []
    else if |query| - skip < take then query[skip..]
    else query[skip..skip + take]
  }

  /** `GetPaged(page, pageSize)` over a query already filtered and ordered. */
  function GetPaged<T>(query: seq<T>, page: int, pageSize: int): (r: PagedResult<T>)
    requires page >= 1 && pageSize > 0
    ensures r.pageIndex == page && r.pageSize == pageSize && r.lowerBound == page
    ensures r.totalCount == |query|
    ensures r.upperBound == r.totalPages
    ensures r.totalPages * pageSize >= r.totalCount
    ensures r.totalCount > 0 ==> (r.totalPages - 1) * pageSize < r.totalCount
    ensures |r.results| <= pageSize
    ensures forall i :: 0 <= i < |r.results| ==>
              (page - 1) * pageSize + i < |query| && r.results[i] == query[(page - 1) * pageSize + i]
    ensures (page - 1) * pageSize < |query| ==>
              |r.results| == if |query| - (page - 1) * pageSize < pageSize then |query| - (page - 1) * pageSize else pageSize
    ensures page > r.totalPages ==> r.results == []
  {
    var totalPages := CeilDiv(|query|, pageSize);
    assert page > totalPages ==> (page - 1) * pageSize >= totalPages * pageSize by {
      if page > totalPages {
        assert page - 1 >= totalPages;
        MulMonotone(totalPages, page - 1, pageSize);
      }
    }
    PagedResult(page, pageSize, |query|, totalPages, page, totalPages,
                SkipTake(query, (page - 1) * pageSize, pageSize))
  }

  lemma MulMonotone(a: nat, b: nat, c: nat)
    requires a <= b
    ensures a * c <= b * c
  {
  }

  /** A page of a query ordered by a descending key is in that order too. */
  lemma {:induction false} PageKeepsOrder<T>(query: seq<T>, page: int, pageSize: int, key: T -> int)
    requires page >= 1 && pageSize > 0
    requires SortedDesc(query, key)
    ensures SortedDesc(GetPaged(query, page, pageSize).results, key)
  {
    var r := GetPaged(query, page, pageSize).results;
    var skip := (page - 1) * pageSize;
    forall i, j | 0 <= i < j < |r|
      ensures key(r[i]) >= key(r[j])
    {
      assert r[i] == query[skip + i] && r[j] == query[skip + j];
    }
  }

  /** A property every element of the query has holds of every element of a page. */
  lemma PageKeepsProperty<T>(query: seq<T>, page: int, pageSize: int, P: T -> bool)
    requires page >= 1 && pageSize > 0
    requires forall i :: 0 <= i < |query| ==> P(query[i])
    ensures forall i :: 0 <= i < |GetPaged(query, page, pageSize).results| ==> P(GetPaged(query, page, pageSize).results[i])
  {
  }

  /** Every row of a page is a row of the query. */
  lemma PageWithin<T>(query: seq<T>, page: int, pageSize: int)
    requires page >= 1 && pageSize > 0
    ensures forall i :: 0 <= i < |GetPaged(query, page, pageSize).results| ==> GetPaged(query, page, pageSize).results[i] in query
  {
  }

  /** A page of a query without repeated rows repeats no row either. */
  lemma {:induction false} PageDistinct<T>(query: seq<T>, page: int, pageSize: int)
    requires page >= 1 && pageSize > 0
    requires Distinct(query)
    ensures Distinct(GetPaged(query, page, pageSize).results)
  {
    var r := GetPaged(query, page, pageSize).results;
    var skip := (page - 1) * pageSize;
    forall i, j | 0 <= i < j < |r|
      ensures r[i] != r[j]
    {
      assert r[i] == query[skip + i] && r[j] == query[skip + j];
    }
  }

  /** The same page metadata around results projected from the page's rows. */
  function WithResults<T, U>(p: PagedResult<T>, results: seq<U>): PagedResult<U>
  {
    PagedResult(p.pageIndex, p.pageSize, p.totalCount, p.totalPages, p.lowerBound, p.upperBound, results)
  }

  /** The properties of the `PagedResultBase` model. */
  datatype PagedResultBase = PagedResultBase(currentPage: int, pageCount: int, pageSize: int, rowCount: int)

  /** `FirstRowOnPage`: one-based number of the page's first row. */
  function FirstRowOnPage(p: PagedResultBase): (r: int)
    ensures p.currentPage == 1 ==> r == 1
    ensures p.pageSize >= 0 && p.currentPage >= 1 ==> r >= 1
  {
    (p.currentPage - 1) * p.pageSize + 1
  }

  /** `LastRowOnPage`: one-based number of the page's last row. */
  function LastRowOnPage(p: PagedResultBase): (r: int)
    ensures r <= p.rowCount && r <= p.currentPage * p.pageSize
    ensures r == p.rowCount || r == p.currentPage * p.pageSize
  {
    if p.currentPage * p.pageSize <= p.rowCount then p.currentPage * p.pageSize else p.rowCount
  }

  /** A page never spans more rows than its size. */
  lemma RowsOnPageAtMostPageSize(p: PagedResultBase)
    ensures LastRowOnPage(p) - FirstRowOnPage(p) + 1 <= p.pageSize
  {
    assert p.currentPage * p.pageSize - (p.currentPage - 1) * p.pageSize == p.pageSize;
  }
}

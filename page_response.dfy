/** One page of a listing together with its paging figures (`dto/PageResponse.java`).
    Page numbers count from 0. */
module Paging {
  import opened Common

  datatype PageResponse<T> = PageResponse(
    content: seq<T>,
    pageNumber: int,
    pageSize: int,
    totalElements: int,
    totalPages: int,
    isLast: bool,
    isFirst: bool)

  /** ⌈a / b⌉ for a positive divisor. */
  function CeilDiv(a: nat, b: nat): (q: nat)
    requires b > 0
    ensures (q - 1) * b < a <= q * b || (a == 0 && q == 0)
  {
    (a + b - 1) / b
  }

  /** `(int) Math.ceil((double) totalElements / pageSize)` when both are positive, else 0.
      The cast to `int` saturates at the largest `int`. */
  function TotalPages(pageSize: int, totalElements: int): (n: int)
    ensures 0 <= n <= INT_MAX
    ensures pageSize <= 0 || totalElements <= 0 ==> n == 0
    ensures pageSize > 0 && totalElements > 0 && n < INT_MAX ==>
              (n - 1) * pageSize < totalElements <= n * pageSize
  {
    if pageSize > 0 && totalElements > 0 then
      var q := CeilDiv(totalElements, pageSize);
      if q > INT_MAX then INT_MAX else q
    else 0
  }

  /** `new PageResponse(content, pageNumber, pageSize, totalElements)`. */
  function MakePage<T>(content: seq<T>, pageNumber: int, pageSize: int, totalElements: int): (p: PageResponse<T>)
    requires IsInt32(pageNumber) && IsInt32(pageSize)
    ensures p.content == content && p.pageNumber == pageNumber
    ensures p.pageSize == pageSize && p.totalElements == totalElements
    ensures p.totalPages == TotalPages(pageSize, totalElements)
    ensures p.isFirst <==> pageNumber == 0
    ensures pageNumber < INT_MAX ==> (p.isLast <==> pageNumber + 1 >= p.totalPages)
  {
    var totalPages := TotalPages(pageSize, totalElements);
    PageResponse(content, pageNumber, pageSize, totalElements, totalPages,
                 Wrap32(pageNumber + 1) >= totalPages, pageNumber == 0)
  }

  /** With nothing to list, every page from the first on is the last. */
  lemma EmptyListingEveryPageLast<T>(content: seq<T>, pageNumber: int, pageSize: int, totalElements: int)
    requires IsInt32(pageNumber) && IsInt32(pageSize)
    requires totalElements <= 0 && 0 <= pageNumber < INT_MAX
    ensures MakePage(content, pageNumber, pageSize, totalElements).isLast
    ensures MakePage(content, pageNumber, pageSize, totalElements).totalPages == 0
  {
  }

  /** A page is the last exactly when it reaches the end of the listing: the pages up to
      and including it hold at least totalElements items. */
  lemma IsLastReachesEnd<T>(content: seq<T>, pageNumber: int, pageSize: int, totalElements: int)
    requires IsInt32(pageNumber) && IsInt32(pageSize)
    requires 0 <= pageNumber < INT_MAX && pageSize > 0 && 0 < totalElements
    requires CeilDiv(totalElements, pageSize) <= INT_MAX
    ensures MakePage(content, pageNumber, pageSize, totalElements).isLast <==>
            (pageNumber + 1) * pageSize >= totalElements
  {
    var n := TotalPages(pageSize, totalElements);
    if pageNumber + 1 >= n {
      MulMono(n, pageNumber + 1, pageSize);
    } else {
      MulMono(pageNumber + 1, n - 1, pageSize);
    }
  }

  lemma MulMono(a: int, b: int, c: nat)
    requires a <= b
    ensures a * c <= b * c
  {
  }
}

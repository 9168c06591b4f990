/** Page arithmetic of the reviews endpoint, with Go's 64-bit multiplication. */
module Pagination {
  import opened Wrappers
  import opened Arithmetic

  const DEFAULT_PAGE := 1
  const DEFAULT_PAGE_SIZE := 10
  const MAX_PAGE_SIZE := 100

  // ---------------------------------------------------------------- request parameters

  /** A query parameter: missing or empty, not an int64, or an int64. */
  datatype Query = Absent | Malformed | Number(n: int)

  ghost predicate InInt64(q: Query) {
    q.Number? ==> -MAX_INT64 - 1 <= q.n <= MAX_INT64
  }

  datatype PageRequest = PageRequest(page: int, pageSize: int)
  datatype BadRequest = BadPage | BadPageSize

  /** A page is any positive int64; a page size is 1 to 100; a bad page is reported first. */
  method ParsePagination(page: Query, pageSize: Query) returns (r: Result<PageRequest, BadRequest>)
    requires InInt64(page) && InInt64(pageSize)
    ensures r == Err(BadPage) <==> page == Malformed || (page.Number? && page.n <= 0)
    ensures r == Err(BadPageSize) <==>
              r != Err(BadPage) && (pageSize == Malformed || (pageSize.Number? && !(0 < pageSize.n <= 100)))
    ensures r.Ok? ==>
              r.value == PageRequest(if page.Number? then page.n else 1, if pageSize.Number? then pageSize.n else 10)
    ensures r.Ok? ==> 1 <= r.value.page <= MAX_INT64 && 1 <= r.value.pageSize <= MAX_PAGE_SIZE
  {
    var p, size := DEFAULT_PAGE, DEFAULT_PAGE_SIZE;
    if !page.Absent? {
      if page.Malformed? || page.n < 1 {
        return Err(BadPage);
      }
      p := page.n;
    }
    if !pageSize.Absent? {
      if pageSize.Malformed? || pageSize.n < 1 || pageSize.n > MAX_PAGE_SIZE {
        return Err(BadPageSize);
      }
      size := pageSize.n;
    }
    return Ok(PageRequest(p, size));
  }

  /** Ceiling division; a page size below one gives no pages. */
  function TotalPages(total: nat, pageSize: int): int {
    if pageSize > 0 then CeilDiv(total, pageSize) else 0
  }

  // ---------------------------------------------------------------- pages of a listing

  /** The slice `[offset : offset + limit]` clipped to the listing, empty from the end on. */
  function Slice<T>(listing: seq<T>, offset: nat, limit: nat): seq<T> {
    if offset >= |listing| then []
    else listing[offset..if offset + limit > |listing| then |listing| else offset + limit]
  }

  /** Page `page` as the listing defines it, without overflow. */
  function Page<T>(listing: seq<T>, page: nat, pageSize: nat): seq<T>
    requires page >= 1
  {
    Slice(listing, (page - 1) * pageSize, pageSize)
  }

  /** The pages 1 to `n`, one after the other. */
  function FirstPages<T>(listing: seq<T>, n: nat, pageSize: nat): seq<T> {
    if n == 0 then [] else FirstPages(listing, n - 1, pageSize) + Page(listing, n, pageSize)
  }

  lemma {:induction false} FirstPagesArePrefix<T>(listing: seq<T>, n: nat, pageSize: nat)
    requires pageSize >= 1
    ensures FirstPages(listing, n, pageSize) == if n * pageSize >= |listing| then listing else listing[..n * pageSize]
  {
    if n > 0 {
      FirstPagesArePrefix(listing, n - 1, pageSize);
      assert n * pageSize == (n - 1) * pageSize + pageSize;
    } else {
      assert listing[..0] == [];
    }
  }

  /** Reaching the end takes exactly the ceiling of total / pageSize pages. */
  lemma TotalPagesBound(total: nat, pageSize: nat, p: nat)
    requires pageSize >= 1
    ensures TotalPages(total, pageSize) >= 0
    ensures p <= TotalPages(total, pageSize) <==> p == 0 || (p - 1) * pageSize < total
  {
    if p > 0 {
      CeilDivBound(total, pageSize, p - 1);
    }
  }

  lemma SliceHasContent<T>(listing: seq<T>, offset: nat, limit: nat)
    requires limit >= 1
    ensures Slice(listing, offset, limit) != [] <==> offset < |listing|
  {
  }

  /** All pages in order are the whole listing, and a page has content exactly up to the last. */
  lemma PagesPartitionListing<T>(listing: seq<T>, pageSize: nat, page: nat)
    requires pageSize >= 1 && page >= 1
    ensures TotalPages(|listing|, pageSize) >= 0
    ensures FirstPages(listing, TotalPages(|listing|, pageSize), pageSize) == listing
    ensures Page(listing, page, pageSize) != [] <==> page <= TotalPages(|listing|, pageSize)
  {
    TotalPagesBound(|listing|, pageSize, page);
    SliceHasContent(listing, (page - 1) * pageSize, pageSize);
    AllPages(listing, pageSize);
  }

  lemma AllPages<T>(listing: seq<T>, pageSize: nat)
    requires pageSize >= 1
    ensures TotalPages(|listing|, pageSize) >= 0
    ensures FirstPages(listing, TotalPages(|listing|, pageSize), pageSize) == listing
  {
    var total := TotalPages(|listing|, pageSize);
    TotalPagesBound(|listing|, pageSize, total + 1);
    hide TotalPages;
    assert total * pageSize >= |listing|;
    FirstPagesArePrefix(listing, total, pageSize);
  }

  /** Each entry of a duplicate-free listing is on exactly one page. */
  lemma OnExactlyOnePage<T>(listing: seq<T>, pageSize: nat, i: nat, page: nat)
    requires pageSize >= 1 && page >= 1 && i < |listing|
    requires forall a, b :: 0 <= a < b < |listing| ==> listing[a] != listing[b]
    ensures listing[i] in Page(listing, page, pageSize) <==> page == i / pageSize + 1
  {
    SliceHolds(listing, (page - 1) * pageSize, pageSize, i);
    QuotientIff(i, pageSize, page - 1);
  }

  lemma SliceHolds<T>(listing: seq<T>, offset: nat, limit: nat, i: nat)
    requires i < |listing|
    requires forall a, b :: 0 <= a < b < |listing| ==> listing[a] != listing[b]
    ensures listing[i] in Slice(listing, offset, limit) <==> offset <= i < offset + limit
  {
    var slice := Slice(listing, offset, limit);
    if offset <= i < offset + limit {
      assert slice[i - offset] == listing[i];
    }
  }

  lemma QuotientIff(i: nat, d: nat, q: nat)
    requires d >= 1
    ensures q * d <= i < q * d + d <==> i / d == q
  {
    assert i == (i / d) * d + i % d;
    if i / d < q {
      assert (i / d + 1) * d <= q * d;
    } else if i / d > q {
      assert (q + 1) * d <= (i / d) * d;
    }
  }

  // ---------------------------------------------------------------- overflow

  /** What the service's offset computation makes of a page number: a slice, or the run-time panic
      a negative slice bound causes. */
  datatype Served<T> = Entries(entries: seq<T>) | SliceBoundsPanic

  function ServeOffset<T>(listing: seq<T>, offset: int, pageSize: int): Served<T>
    requires pageSize >= 0
  {
    var wrapped := WrapInt64(offset);
    if wrapped < 0 then SliceBoundsPanic else Entries(Slice(listing, wrapped, pageSize))
  }

  function ServePage<T>(listing: seq<T>, page: int, pageSize: int): Served<T>
    requires pageSize >= 0
  {
    ServeOffset(listing, (page - 1) * pageSize, pageSize)
  }

  /** The handler does not cap `page`, and a slice has at most MAX_INT64 entries. A page is served
      right exactly when its offset fits in an int64, or wraps to one that is past the end as well. */
  lemma PageIsRightIff<T>(listing: seq<T>, page: int, pageSize: int)
    requires 1 <= page && 1 <= pageSize && |listing| <= MAX_INT64
    ensures ServePage(listing, page, pageSize) == Entries(Page(listing, page, pageSize))
            <==> (page - 1) * pageSize <= MAX_INT64 || WrapInt64((page - 1) * pageSize) >= |listing|
  {
    var offset: nat := (page - 1) * pageSize;
    hide WrapInt64;
    if offset > MAX_INT64 && 0 <= WrapInt64(offset) {
      SliceHasContent(listing, WrapInt64(offset), pageSize);
    }
  }

  /** Every page that exists is served right. */
  lemma ExistingPagesServed<T>(listing: seq<T>, page: int, pageSize: int)
    requires 1 <= pageSize && |listing| <= MAX_INT64 && 1 <= page <= TotalPages(|listing|, pageSize)
    ensures ServePage(listing, page, pageSize) == Entries(Page(listing, page, pageSize))
  {
    TotalPagesBound(|listing|, pageSize, page);
    PageIsRightIff(listing, page, pageSize);
  }

  /** One request that overflows to the first page. */
  lemma OverflowServesFirstPage(listing: seq<int>)
    requires listing != []
    ensures var page := 0x4000_0000_0000_0001;
            && ServePage(listing, page, 4) == ServePage(listing, 1, 4)
            && Page(listing, 1, 4) != [] && (|listing| <= MAX_INT64 ==> Page(listing, page, 4) == [])
  {
    assert 0x4000_0000_0000_0000 * 4 == TWO_TO_64;
  }
}

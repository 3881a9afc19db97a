/**
 * The two paging scopes of the models package: classic pages (offset and limit) and scrolling
 * pages (rows above a starting id). A scope is modelled as the clauses it adds to a query.
 */
module Pagination {
  import opened Wrappers
  import opened Bytes

  /** The ordering both scopes add. */
  const IdAsc: string := "id asc"

  const Two63: int := 0x8000_0000_0000_0000

  /** The clauses a scope adds: an ordering, an optional row offset, an optional `id > ?` bound, a limit. */
  datatype Scope = Scope(order: string, offset: Option<int64>, idAbove: Option<int64>, limit: int64)

  datatype NormalPage = NormalPage(no: int64, size: int64)
  datatype ScrollPage = ScrollPage(start: int64, size: int64)

  /** The page number: page numbers below 1 become 1. */
  function PageNo(no: int64): (r: int64)
    ensures r >= 1 && (no > 0 ==> r == no) && (no <= 0 ==> r == 1)
  {
    if no > 0 then no else 1
  }

  /** The page size: above 100 becomes 100, 0 or below becomes 10. */
  function PageSize(size: int64): (r: int64)
    ensures 1 <= r <= 100
    ensures size > 100 ==> r == 100
    ensures size <= 0 ==> r == 10
    ensures 1 <= size <= 100 ==> r == size
  {
    if size > 100 then 100 else if size <= 0 then 10 else size
  }

  /** NormalPaginate: ordered by id, offset (pageNo - 1) * pageSize in Go's int, limit pageSize. */
  function NormalPaginate(page: NormalPage): (s: Scope)
    ensures s.order == IdAsc && s.idAbove == None && s.offset.Some?
    ensures 1 <= s.limit <= 100
  {
    var pageNo := PageNo(page.no);
    var pageSize := PageSize(page.size);
    Scope(IdAsc, Some(Wrap64((pageNo - 1) * pageSize)), None, pageSize)
  }

  /** ScrollingPaginate: ordered by id, rows with id above start (-1 for a start of 0 or below). */
  function ScrollingPaginate(page: ScrollPage): (s: Scope)
    ensures s.order == IdAsc && s.offset == None && s.idAbove.Some?
    ensures page.start > 0 ==> s.idAbove == Some(page.start)
    ensures page.start <= 0 ==> s.idAbove == Some(-1)
    ensures s.limit == PageSize(page.size)
  {
    var start := if page.start > 0 then page.start else -1;
    Scope(IdAsc, None, Some(start), PageSize(page.size))
  }

  /** Page 1 (and every page number below it) starts at row 0. */
  lemma FirstPage(page: NormalPage)
    requires page.no <= 1
    ensures NormalPaginate(page).offset == Some(0)
  {
  }

  /** Without overflow, the offset is (pageNo - 1) * limit and never negative. */
  lemma NormalOffset(page: NormalPage)
    requires (PageNo(page.no) - 1) * PageSize(page.size) < Two63
    ensures NormalPaginate(page).offset.value == (PageNo(page.no) - 1) * NormalPaginate(page).limit
    ensures NormalPaginate(page).offset.value >= 0
  {
    var n: int := PageNo(page.no) - 1;
    var l: int := PageSize(page.size);
    MulNonNegative(n, l);
    assert NormalPaginate(page).offset.value == Wrap64(n * l);
  }

  lemma MulNonNegative(a: int, b: int)
    requires a >= 0 && b >= 0
    ensures a * b >= 0
  {
  }

  /** Page n + 1 begins exactly limit rows after page n. */
  lemma PagesContiguous(n: int64, size: int64)
    requires 1 <= n < Two63 - 1 && n * PageSize(size) < Two63
    ensures NormalPaginate(NormalPage(n + 1, size)).offset.value
         == NormalPaginate(NormalPage(n, size)).offset.value + PageSize(size)
  {
    var l: int := PageSize(size);
    MulNonNegative(n - 1, l);
    assert (n - 1) * l + l == n * l;
    NormalOffset(NormalPage(n, size));
    NormalOffset(NormalPage(n + 1, size));
  }

  /** A page number high enough wraps the offset negative: page 2^57 + 1 of size 100. */
  lemma OffsetOverflow()
    ensures NormalPaginate(NormalPage(0x200_0000_0000_0001, 100)).offset == Some(-0x3800_0000_0000_0000)
  {
  }
}

/** The demo model's copy of the two paging scopes. */
module DemoPagination {
  import opened Wrappers
  import opened Bytes
  import P = Pagination

  /** NormalPaginate of the demo model. */
  function NormalPaginate(page: P.NormalPage): (s: P.Scope)
    ensures s.order == P.IdAsc && s.idAbove == None && 1 <= s.limit <= 100
  {
    var pageNo := if page.no > 0 then page.no else 1;
    var pageSize := if page.size > 100 then 100 else if page.size <= 0 then 10 else page.size;
    P.Scope(P.IdAsc, Some(Wrap64((pageNo - 1) * pageSize)), None, pageSize)
  }

  /** ScrollingPaginate of the demo model. */
  function ScrollingPaginate(page: P.ScrollPage): (s: P.Scope)
    ensures s.order == P.IdAsc && s.offset == None && 1 <= s.limit <= 100
  {
    var start := if page.start > 0 then page.start else -1;
    var pageSize := if page.size > 100 then 100 else if page.size <= 0 then 10 else page.size;
    P.Scope(P.IdAsc, None, Some(start), pageSize)
  }

  /** The demo copies build exactly the scopes of the models package. */
  lemma SameScopes(normal: P.NormalPage, scroll: P.ScrollPage)
    ensures NormalPaginate(normal) == P.NormalPaginate(normal)
    ensures ScrollingPaginate(scroll) == P.ScrollingPaginate(scroll)
  {
  }
}

/** Page numbers from the query string, the 64-bit offset computed from them, and the pages they select. */
module Paging {
  import opened Prelude

  const MAX_INT: int := 0x7FFF_FFFF_FFFF_FFFF
  const MODULUS: int := 0x1_0000_0000_0000_0000

  /** Go's `int`: the low 64 bits of `x`, as a signed number. */
  function Wrap(x: int): int {
    (x + MAX_INT + 1) % MODULUS - MAX_INT - 1
  }

  /** `intQuery`; `scan` stands for `fmt.Sscan` into an int, None when it errs. */
  function IntQuery(v: string, scan: string -> Option<int>, default: int): int {
    if v == "" then default
    else match scan(v)
      case None => default
      case Some(n) => if n < 1 then default else n
  }

  /** The page is at least 1, the page size from 1 to 100; numbers in range are taken as they are. */
  method PaginationQuery(pageText: string, perPageText: string, scan: string -> Option<int>)
      returns (page: int, perPage: int)
    ensures page >= 1 && 1 <= perPage <= 100
    ensures page == if pageText != "" && scan(pageText).Some? && scan(pageText).value >= 1 then scan(pageText).value
            else 1
    ensures perPage == if perPageText != "" && scan(perPageText).Some? && 1 <= scan(perPageText).value <= 100
                       then scan(perPageText).value else 50
  {
    page := IntQuery(pageText, scan, 1);
    perPage := IntQuery(perPageText, scan, 50);
    if page < 1 {
      page := 1;
    }
    if perPage < 1 || perPage > 100 {
      perPage := 50;
    }
  }

  /** `(page - 1) * perPage` in 64 bits. */
  function Offset(page: int, perPage: int): int {
    Wrap((page - 1) * perPage)
  }

  function Min(a: int, b: int): int { if a < b then a else b }

  /** LIMIT and OFFSET over an ordered snapshot. */
  function Slice<T>(rows: seq<T>, offset: nat, limit: nat): seq<T> {
    rows[Min(offset, |rows|)..Min(offset + limit, |rows|)]
  }

  /** The page arithmetic promises, without machine integers. */
  function Page<T>(rows: seq<T>, page: int, perPage: int): seq<T>
    requires page >= 1 && perPage >= 1
  {
    Slice(rows, (page - 1) * perPage, perPage)
  }

  /** `List` over the rows in their order; the database refuses a negative offset. */
  method List<T>(rows: seq<T>, page: int, perPage: int) returns (r: Result<seq<T>, string>, total: nat)
    requires 1 <= page <= MAX_INT && 1 <= perPage <= 100
    ensures if Offset(page, perPage) >= 0
            then r == Ok(Slice(rows, Offset(page, perPage), perPage)) && total == |rows|
            else r.Err? && total == 0
  {
    var offset := Offset(page, perPage);
    total := |rows|;
    if offset < 0 {
      return Err("OFFSET must not be negative"), 0;
    }
    var first, last := Min(offset, |rows|), Min(offset + perPage, |rows|);
    var users: seq<T> := [];
    for i := first to last
      invariant users == rows[first..i]
    {
      users := users + [rows[i]];
    }
    r := Ok(users);
  }

  lemma MulMonotone(a: int, b: int, d: int)
    requires a <= b && d >= 0
    ensures a * d <= b * d
  {
  }

  lemma DivideBound(x: int, d: int, m: int)
    requires d >= 1 && m >= 0
    ensures x * d <= m <==> x <= m / d
  {
    var q := m / d;
    assert q * d <= m < q * d + d;
    if x <= q {
      MulMonotone(x, q, d);
    } else {
      MulMonotone(q + 1, x, d);
    }
  }

  /** The offset is the intended one exactly when the product fits in 64 bits. */
  lemma OffsetExact(page: int, perPage: int)
    requires page >= 1 && perPage >= 1
    ensures Offset(page, perPage) == (page - 1) * perPage <==> page - 1 <= MAX_INT / perPage
  {
    DivideBound(page - 1, perPage, MAX_INT);
    MulMonotone(0, page - 1, perPage);
  }

  /** Pages 1 to k, one after the other. */
  function Pages<T>(rows: seq<T>, perPage: int, k: nat): seq<T>
    requires perPage >= 1
  {
    if k == 0 then [] else Pages(rows, perPage, k - 1) + Page(rows, k, perPage)
  }

  /** They are the first k * perPage rows: no row is missed and none comes twice. */
  lemma {:induction false} PagesPrefix<T>(rows: seq<T>, perPage: int, k: nat)
    requires perPage >= 1
    ensures k * perPage >= 0
    ensures Pages(rows, perPage, k) == rows[..Min(k * perPage, |rows|)]
  {
    if k > 0 {
      PagesPrefix(rows, perPage, k - 1);
      assert k * perPage == (k - 1) * perPage + perPage;
    }
  }

  /** The number of pages that hold anything. */
  function PageCount(n: nat, perPage: int): nat
    requires perPage >= 1
  {
    (n + perPage - 1) / perPage
  }

  lemma PageCountBounds(n: nat, perPage: int)
    requires perPage >= 1
    ensures n <= PageCount(n, perPage) * perPage < n + perPage
  {
  }

  /** What `List` returns for a page whose offset it gets right is the intended page. */
  lemma ListedPage<T>(rows: seq<T>, page: int, perPage: int)
    requires page >= 1 && perPage >= 1 && page - 1 <= MAX_INT / perPage
    ensures Offset(page, perPage) >= 0 && Slice(rows, Offset(page, perPage), perPage) == Page(rows, page, perPage)
  {
    OffsetExact(page, perPage);
    MulMonotone(0, page - 1, perPage);
  }

  /**
   `List` returns the intended page if and only if the offset fits in 64 bits, or its wrapped value is past the end
   (then both are empty).
   */
  lemma ListedIff<T>(rows: seq<T>, page: int, perPage: int)
    requires page >= 1 && perPage >= 1 && |rows| <= MAX_INT
    ensures Offset(page, perPage) >= 0 && Slice(rows, Offset(page, perPage), perPage) == Page(rows, page, perPage)
       <==> page - 1 <= MAX_INT / perPage || Offset(page, perPage) >= |rows|
  {
    if page - 1 <= MAX_INT / perPage {
      ListedPage(rows, page, perPage);
    } else {
      DivideBound(page - 1, perPage, MAX_INT);
      assert Page(rows, page, perPage) == [];
      if 0 <= Offset(page, perPage) < |rows| {
        assert |Slice(rows, Offset(page, perPage), perPage)| > 0;
      }
    }
  }

  /** The pages partition the snapshot: 1 to ceil(n / perPage) give every row once and in order. */
  lemma PagesPartition<T>(rows: seq<T>, perPage: int)
    requires perPage >= 1
    ensures Pages(rows, perPage, PageCount(|rows|, perPage)) == rows
  {
    PageCountBounds(|rows|, perPage);
    PagesPrefix(rows, perPage, PageCount(|rows|, perPage));
  }

  /** Each of those pages is in range, so `List` returns it as intended. */
  lemma EarlyPageListed<T>(rows: seq<T>, perPage: int, page: int)
    requires 1 <= perPage && |rows| <= MAX_INT && 1 <= page <= PageCount(|rows|, perPage)
    ensures Offset(page, perPage) >= 0 && Slice(rows, Offset(page, perPage), perPage) == Page(rows, page, perPage)
  {
    var k := PageCount(|rows|, perPage);
    PageCountBounds(|rows|, perPage);
    MulMonotone(page - 1, k - 1, perPage);
    assert (k - 1) * perPage == k * perPage - perPage;
    DivideBound(page - 1, perPage, MAX_INT);
    ListedPage(rows, page, perPage);
  }

  /** A later page is empty as long as its offset fits in 64 bits. */
  lemma LaterPageEmpty<T>(rows: seq<T>, perPage: int, page: int)
    requires 1 <= perPage && PageCount(|rows|, perPage) < page && page - 1 <= MAX_INT / perPage
    ensures Offset(page, perPage) >= 0 && Slice(rows, Offset(page, perPage), perPage) == []
  {
    var k := PageCount(|rows|, perPage);
    PageCountBounds(|rows|, perPage);
    OffsetExact(page, perPage);
    MulMonotone(k, page - 1, perPage);
    MulMonotone(0, page - 1, perPage);
  }

  /** Beyond that bound the promise fails: with 64 rows a page, page 2^58 + 1 is page 1 again. */
  lemma WrappedPage<T>(rows: seq<T>)
    ensures var page := 0x400_0000_0000_0001;
            page <= MAX_INT && Offset(page, 64) == 0 && Slice(rows, Offset(page, 64), 64) == Page(rows, 1, 64)
  {
  }
}

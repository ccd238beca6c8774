/** Page arithmetic for the list endpoints: the number of pages by integer
    ceiling division, and the slice of rows that one page shows. */
module Pagination {

  function Min(a: int, b: int): int { if a <= b then a else b }

  /** What `paginate` hands back: the rows of the requested page and the page count. */
  datatype PageSlice<T> = PageSlice(items: seq<T>, pages: nat)

  /** Number of pages of `perPage` rows needed for `total` rows. */
  function TotalPages(total: nat, perPage: nat): nat
    requires perPage >= 1
  {
    (total + perPage - 1) / perPage
  }

  /** Index of the first row of page `page` (pages are numbered from 1). */
  function Start(page: int, perPage: int): int
  {
    (page - 1) * perPage
  }

  /** Pages start at a non-negative index, and each page starts `perPage`
      rows after the previous one. */
  lemma NextStart(page: int, perPage: int)
    requires page >= 1 && perPage >= 1
    ensures 0 <= Start(page, perPage)
    ensures Start(page + 1, perPage) == Start(page, perPage) + perPage
  {
  }

  /** Python's `rows[lo:hi]` for bounds `0 <= lo <= hi`: both are clipped to the length. */
  function Slice<T>(rows: seq<T>, lo: nat, hi: nat): seq<T>
    requires lo <= hi
  {
    rows[Min(lo, |rows|)..Min(hi, |rows|)]
  }

  /** The at most `perPage` rows from index `start` on, clipped to the table. */
  function RowsFrom<T>(rows: seq<T>, start: nat, perPage: int): (items: seq<T>)
    requires perPage >= 1
    ensures |items| <= perPage
    ensures start >= |rows| ==> items == []
    ensures start < |rows| ==> |items| == Min(perPage, |rows| - start)
    ensures forall i :: 0 <= i < |items| ==> items[i] == rows[start + i]
    ensures forall x :: x in items ==> x in rows
  {
    Slice(rows, start, start + perPage)
  }

  /** The rows of page `page` and the total number of pages. */
  function Paginate<T>(rows: seq<T>, page: int, perPage: int): (p: PageSlice<T>)
    requires page >= 1 && perPage >= 1
    ensures p.pages == TotalPages(|rows|, perPage)
    ensures |p.items| <= perPage
    ensures Start(page, perPage) >= |rows| ==> p.items == []
    ensures Start(page, perPage) < |rows| ==>
              |p.items| == Min(perPage, |rows| - Start(page, perPage))
    ensures forall i :: 0 <= i < |p.items| ==> p.items[i] == rows[Start(page, perPage) + i]
    ensures forall x :: x in p.items ==> x in rows
  {
    NextStart(page, perPage);
    PageSlice(RowsFrom(rows, Start(page, perPage), perPage), TotalPages(|rows|, perPage))
  }

  /** The page count is the least number of pages that holds every row:
      zero exactly for an empty table, and otherwise the last page is
      neither empty nor over-full. */
  lemma TotalPagesBounds(total: nat, perPage: nat)
    requires perPage >= 1
    ensures TotalPages(total, perPage) == 0 <==> total == 0
    ensures total <= TotalPages(total, perPage) * perPage
    ensures total > 0 ==> (TotalPages(total, perPage) - 1) * perPage < total
  {
  }

  /** Multiplying by a non-negative factor keeps order. */
  lemma MulMonotone(a: int, b: int, c: int)
    requires a <= b && c >= 0
    ensures a * c <= b * c
  {
  }

  /** A page has rows exactly when its number is at most the page count. */
  lemma PageEmptyIff<T>(rows: seq<T>, page: int, perPage: int)
    requires page >= 1 && perPage >= 1
    ensures Paginate(rows, page, perPage).items == [] <==> page > TotalPages(|rows|, perPage)
  {
    TotalPagesBounds(|rows|, perPage);
    var pages := TotalPages(|rows|, perPage);
    if page <= pages {
      MulMonotone(page - 1, pages - 1, perPage);
    } else {
      MulMonotone(pages, page - 1, perPage);
    }
  }

  /** The rows of pages 1 to `n`, one page after the other. */
  function PagesUpTo<T>(rows: seq<T>, perPage: int, n: nat): seq<T>
    requires perPage >= 1
  {
    if n == 0 then [] else PagesUpTo(rows, perPage, n - 1) + Paginate(rows, n, perPage).items
  }

  /** Pages 1 to `n` together are the rows before page `n + 1` (or all of them). */
  lemma {:induction false} PagesUpToPrefix<T>(rows: seq<T>, perPage: int, n: nat)
    requires perPage >= 1
    ensures PagesUpTo(rows, perPage, n) == rows[..Min(Start(n + 1, perPage), |rows|)]
  {
    if n > 0 {
      PagesUpToPrefix(rows, perPage, n - 1);
      NextStart(n, perPage);
      var start := Start(n, perPage);
      var items := Paginate(rows, n, perPage).items;
      if start < |rows| {
        var hi := Min(start + perPage, |rows|);
        assert rows[..hi] == rows[..start] + items;
      }
    }
  }

  /** Reading pages 1 to the page count in order gives back the table: no
      row is lost, repeated or moved. */
  lemma PagesCoverRows<T>(rows: seq<T>, perPage: int)
    requires perPage >= 1
    ensures PagesUpTo(rows, perPage, TotalPages(|rows|, perPage)) == rows
  {
    var pages := TotalPages(|rows|, perPage);
    TotalPagesBounds(|rows|, perPage);
    NextStart(pages + 1, perPage);
    PagesUpToPrefix(rows, perPage, pages);
  }
}

/**
  Pagination state: the current page number, the page size and the total
  number of rows, with setters that ignore out-of-range values and getters
  for the first row of the page, the number of pages and the window of page
  numbers shown around the current page.
 */
module Paging {

  /** Largest value of a Java `int`. */
  const IntMax := 0x7FFF_FFFF

  /** A value a Java `int` can hold. */
  predicate IsInt(x: int)
  {
    -IntMax - 1 <= x <= IntMax
  }

  class Page {
    /** Current page number, counted from 1. */
    var current: int
    /** Rows per page. */
    var limit: int
    /** Total number of rows. */
    var rows: int

    /** The ranges the setters maintain, within Java's `int`. */
    ghost predicate Valid()
      reads this
    {
      1 <= current <= IntMax && 1 <= limit <= 100 && 0 <= rows <= IntMax
    }

    /** A new page object: first page, ten rows per page, no rows. */
    constructor ()
      ensures Valid()
      ensures current == 1 && limit == 10 && rows == 0
    {
      current, limit, rows := 1, 10, 0;
    }

    /** Takes a page number of at least 1 and ignores any other. */
    method SetCurrent(x: int)
      requires Valid() && IsInt(x)
      modifies this
      ensures Valid()
      ensures current == (if x >= 1 then x else old(current))
      ensures limit == old(limit) && rows == old(rows)
    {
      if x >= 1 {
        current := x;
      }
    }

    /** Takes a page size between 1 and 100 and ignores any other. */
    method SetLimit(x: int)
      requires Valid() && IsInt(x)
      modifies this
      ensures Valid()
      ensures limit == (if 1 <= x <= 100 then x else old(limit))
      ensures current == old(current) && rows == old(rows)
    {
      if x >= 1 && x <= 100 {
        limit := x;
      }
    }

    /** Takes a non-negative row count and ignores a negative one. */
    method SetRows(x: int)
      requires Valid() && IsInt(x)
      modifies this
      ensures Valid()
      ensures rows == (if x >= 0 then x else old(rows))
      ensures current == old(current) && limit == old(limit)
    {
      if x >= 0 {
        rows := x;
      }
    }

    /** Index of the first row of the current page: the rows of all earlier pages. */
    function Offset(): (r: int)
      reads this
      requires Valid()
      ensures r >= 0 && r + limit == current * limit
    {
      (current - 1) * limit
    }

    /** Number of pages: the smallest count of full-size pages that holds every row. */
    function Total(): (r: int)
      reads this
      requires Valid()
      ensures r >= 0
      ensures r * limit >= rows
      ensures (r - 1) * limit < rows
      ensures r == 0 <==> rows == 0
    {
      if rows % limit == 0 then rows / limit else rows / limit + 1
    }

    /** First page number shown: two before the current one, but never below 1. */
    function From(): (r: int)
      reads this
      requires Valid()
      ensures 1 <= r <= current
      ensures current - r <= 2
      ensures r > 1 ==> r == current - 2
    {
      var from := current - 2;
      if from < 1 then 1 else from
    }

    /** Last page number shown: two after the current one, but never past the last page. */
    function To(): (r: int)
      reads this
      requires Valid()
      ensures r <= Total() && r <= current + 2
      ensures r == Total() || r == current + 2
    {
      var to := current + 2;
      var total := Total();
      if to > total then total else to
    }

    /** The current page holds at least one row exactly when it is one of the pages. */
    lemma OffsetInsideRows()
      requires Valid()
      ensures Offset() < rows <==> current <= Total()
    {
      var total := Total();
      if current <= total {
        MulMonotone(current - 1, total - 1, limit);
      } else {
        MulMonotone(total, current - 1, limit);
      }
    }

    /** When the current page is one of the pages, the window of page numbers contains it. */
    lemma WindowContainsCurrent()
      requires Valid() && current <= Total()
      ensures From() <= current <= To()
    {
    }

    /** With no rows the window is empty: it ends at page 0, before it starts. */
    lemma EmptyWindowWithoutRows()
      requires Valid() && rows == 0
      ensures To() == 0 < From()
    {
    }
  }

  /** Multiplying by a positive factor keeps the order. */
  lemma MulMonotone(a: int, b: int, k: int)
    requires a <= b && k > 0
    ensures a * k <= b * k
  {
  }
}

/** `PagedList<T>`: one page of items with the paging figures derived from the total. */
module PagedLists {
  import opened Clr

  /** Ceiling of `a / b`, `b` not zero (`/` is floor division for a positive divisor). */
  function CeilDiv(a: int, b: int): int
    requires b != 0
  {
    if b > 0 then -((-a) / b) else -(a / (-b))
  }

  /** `(int)Math.Ceiling(count / (double)pageSize)`. The quotient of two `int`s as a
      `double` is never rounded across an integer, so its ceiling is the exact one; the
      conversion to `int` saturates. Dividing by zero gives an infinity (positive count),
      negative infinity (negative count) or NaN (zero count), which convert to
      `int.MaxValue`, `int.MinValue` and 0. */
  function TotalPages(count: Int32, pageSize: Int32): (r: Int32)
    ensures pageSize > 0 && count >= 0 ==> (r - 1) * pageSize < count <= r * pageSize
    ensures pageSize > 0 && count >= 0 ==> r >= 0
    ensures pageSize == 0 ==> (r > 0 <==> count > 0) && (r == 0 <==> count == 0)
  {
    if pageSize == 0 then
      if count > 0 then MaxInt32 else if count < 0 then MinInt32 else 0
    else
      Saturate32(CeilDiv(count, pageSize))
  }

  datatype PagedList<T> = PagedList(
    items: seq<T>,
    pageNumber: Int32,
    pageSize: Int32,
    totalCount: Int32,
    totalPages: Int32)
  {
    /** `HasPreviousPage`. */
    predicate HasPreviousPage() { pageNumber > 1 }

    /** `HasNextPage`. */
    predicate HasNextPage() { pageNumber < totalPages }
  }

  /** The constructor: the arguments are stored unchanged, unvalidated, and the number of
      pages derived from the count. */
  function NewPagedList<T>(items: seq<T>, count: Int32, pageNumber: Int32, pageSize: Int32): (r: PagedList<T>)
    ensures r.items == items && r.totalCount == count
    ensures r.pageNumber == pageNumber && r.pageSize == pageSize
    ensures r.totalPages == TotalPages(count, pageSize)
  {
    PagedList(items, pageNumber, pageSize, count, TotalPages(count, pageSize))
  }

  lemma MulMonotone(x: int, y: int, s: int)
    requires x <= y && s >= 0
    ensures x * s <= y * s
  {
    assert y * s - x * s == (y - x) * s;
  }

  lemma MulLessCancel(x: int, y: int, s: int)
    requires s > 0 && x * s < y * s
    ensures x < y
  {
    if x >= y {
      MulMonotone(y, x, s);
      assert false;
    }
  }

  /** At most one number of pages fits the ceiling bounds. */
  lemma CeilingUnique(count: int, s: int, a: int, b: int)
    requires s > 0
    requires (a - 1) * s < count <= a * s
    requires (b - 1) * s < count <= b * s
    ensures a == b
  {
    MulLessCancel(a - 1, b, s);
    MulLessCancel(b - 1, a, s);
  }

  /** For a non-negative count and a positive size the page count is the integer formula
      `(count + pageSize - 1) / pageSize`. */
  lemma TotalPagesFormula(count: Int32, pageSize: Int32)
    requires count >= 0 && pageSize > 0
    ensures TotalPages(count, pageSize) == (count + pageSize - 1) / pageSize
  {
    var q := (count + pageSize - 1) / pageSize;
    var rem := (count + pageSize - 1) % pageSize;
    assert count + pageSize - 1 == q * pageSize + rem;
    assert (q - 1) * pageSize == q * pageSize - pageSize;
    CeilingUnique(count, pageSize, TotalPages(count, pageSize), q);
  }

  /** An exact multiple `k * pageSize` fills exactly `k` pages. */
  lemma TotalPagesOfExactMultiple(k: nat, pageSize: Int32)
    requires pageSize > 0 && k * pageSize <= MaxInt32
    ensures TotalPages(k * pageSize, pageSize) == k
  {
    assert (k - 1) * pageSize == k * pageSize - pageSize;
    CeilingUnique(k * pageSize, pageSize, TotalPages(k * pageSize, pageSize), k);
  }

  /** With no items there is no next page from any page numbered 0 or more. */
  lemma NoNextPageWhenEmpty<T>(items: seq<T>, pageNumber: Int32, pageSize: Int32)
    requires pageNumber >= 0
    ensures !NewPagedList(items, 0, pageNumber, pageSize).HasNextPage()
  {
  }

  /** Page numbers are not clamped: with no items, any page numbered below 0 still reports a
      next page, because the page count is 0. */
  lemma NextPageWhenEmptyBelowZero<T>(items: seq<T>, pageNumber: Int32, pageSize: Int32)
    requires pageNumber < 0
    ensures NewPagedList(items, 0, pageNumber, pageSize).HasNextPage()
  {
  }

  /** For a page numbered 1 or more and a positive size, there is a next page exactly when
      the items counted run past the end of this page. */
  lemma HasNextPageIffItemsRemain<T>(items: seq<T>, count: Int32, pageNumber: Int32, pageSize: Int32)
    requires count >= 0 && pageNumber >= 1 && pageSize > 0
    ensures NewPagedList(items, count, pageNumber, pageSize).HasNextPage() <==> pageNumber * pageSize < count
  {
    var r := TotalPages(count, pageSize);
    if pageNumber < r {
      MulMonotone(pageNumber, r - 1, pageSize);
    } else {
      MulMonotone(r, pageNumber, pageSize);
    }
  }

  /** There is a previous page exactly when this page does not start at the first item. */
  lemma HasPreviousPageIffNotFirst<T>(items: seq<T>, count: Int32, pageNumber: Int32, pageSize: Int32)
    requires pageNumber >= 1 && pageSize > 0
    ensures NewPagedList(items, count, pageNumber, pageSize).HasPreviousPage() <==> (pageNumber - 1) * pageSize > 0
  {
    if pageNumber > 1 {
      MulMonotone(1, pageNumber - 1, pageSize);
    }
  }
}

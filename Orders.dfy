/** The orders page's pagination: page count, Previous/Next clamps, page buttons and the "Showing X to Y of N" line. */
module Orders {

  const ItemsPerPage := 10

  function Min(a: int, b: int): int { if a <= b then a else b }
  function Max(a: int, b: int): int { if a >= b then a else b }

  /** `Math.ceil(n / itemsPerPage)`: the fewest pages of ten that hold `n` orders. */
  function TotalPages(n: nat): (r: nat)
    ensures r * ItemsPerPage >= n
    ensures r > 0 ==> (r - 1) * ItemsPerPage < n
  {
    (n + ItemsPerPage - 1) / ItemsPerPage
  }

  /** Previous: `Math.max(1, currentPage - 1)`. */
  function PrevPage(page: int): int {
    Max(1, page - 1)
  }

  /** Next: `Math.min(totalPages, currentPage + 1)`. */
  function NextPage(page: int, totalPages: nat): int {
    Min(totalPages, page + 1)
  }

  predicate PrevDisabled(page: int) { page == 1 }

  predicate NextDisabled(page: int, totalPages: nat) { page == totalPages }

  /** The first order number shown: `Math.min((currentPage - 1) * itemsPerPage + 1, n)`. */
  function ShowingStart(page: int, n: nat): int {
    Min((page - 1) * ItemsPerPage + 1, n)
  }

  /** The last order number shown: `Math.min(currentPage * itemsPerPage, n)`. */
  function ShowingEnd(page: int, n: nat): int {
    Min(page * ItemsPerPage, n)
  }

  /** `Array.from({length: totalPages}, (_, i) => i + 1)`. */
  function PageNumbers(totalPages: nat): seq<int> {
    seq(totalPages, i requires 0 <= i < totalPages => i + 1)
  }

  /** Previous never goes below page 1, and Next never goes past the last page. */
  lemma ClampsBound(page: int, totalPages: nat)
    ensures PrevPage(page) >= 1
    ensures NextPage(page, totalPages) <= totalPages
  {
  }

  /** From a page in 1..totalPages, Previous and Next both land on a page in 1..totalPages, at most one step away. */
  lemma ClampsStayInRange(page: int, n: nat)
    requires 1 <= page <= TotalPages(n)
    ensures 1 <= PrevPage(page) <= TotalPages(n) && page - 1 <= PrevPage(page) <= page
    ensures 1 <= NextPage(page, TotalPages(n)) <= TotalPages(n) && page <= NextPage(page, TotalPages(n)) <= page + 1
  {
  }

  /** On a page in 1..totalPages, a button is disabled exactly when pressing it would leave the page where it is. */
  lemma DisabledExactlyWhenStuck(page: int, totalPages: nat)
    requires 1 <= page <= totalPages
    ensures PrevDisabled(page) <==> PrevPage(page) == page
    ensures NextDisabled(page, totalPages) <==> NextPage(page, totalPages) == page
  {
  }

  /** With no orders there are no pages, yet Next is enabled on page 1 and moves to page 0. */
  lemma NextOnEmptyList()
    ensures TotalPages(0) == 0
    ensures !NextDisabled(1, TotalPages(0)) && NextPage(1, TotalPages(0)) == 0
  {
  }

  /** Neither end of the "Showing" range exceeds the number of orders. */
  lemma ShowingWithinCount(page: int, n: nat)
    ensures ShowingStart(page, n) <= n && ShowingEnd(page, n) <= n
  {
  }

  /**
   * On a page in 1..totalPages of a non-empty list, the range starts at the
   * page's first order and holds at most ten orders: all the orders left from
   * that point, up to ten.
   */
  lemma ShowingRangeOfPage(page: int, n: nat)
    requires n > 0 && 1 <= page <= TotalPages(n)
    ensures ShowingStart(page, n) == (page - 1) * ItemsPerPage + 1
    ensures 1 <= ShowingStart(page, n) <= ShowingEnd(page, n) <= n
    ensures ShowingEnd(page, n) - ShowingStart(page, n) + 1 == Min(ItemsPerPage, n - (page - 1) * ItemsPerPage)
  {
    assert (TotalPages(n) - 1) * ItemsPerPage < n;
  }

  /** The page buttons are exactly 1..totalPages, in increasing order. */
  lemma PageNumbersAreOneToTotal(totalPages: nat)
    ensures |PageNumbers(totalPages)| == totalPages
    ensures forall i, j :: 0 <= i < j < totalPages ==> PageNumbers(totalPages)[i] < PageNumbers(totalPages)[j]
    ensures forall p :: p in PageNumbers(totalPages) <==> 1 <= p <= totalPages
  {
    var r := PageNumbers(totalPages);
    forall p | 1 <= p <= totalPages ensures p in r {
      assert r[p - 1] == p;
    }
  }
}

/**
 * The paging arithmetic of the admin list endpoints (spreads and users): the
 * `page` and `limit` query parameters, the row offset, the LIMIT/OFFSET window
 * the query returns, and the page count reported back.
 */
module Paging {
  import opened Common
  import Text

  /** `parseInt(searchParams.get(name) || fallback)`; None is NaN. */
  function IntParam(raw: Option<string>, fallback: nat): (r: Option<int>)
    ensures !Truthy(raw) ==> r == Some(fallback)
    ensures Truthy(raw) ==> r == Text.ParseInt(raw.value)
  {
    Text.ParseIntToString(fallback);
    Text.ParseInt(OrElse(raw, Text.NatToString(fallback)))
  }

  /** `(page - 1) * limit`. */
  function Offset(page: int, limit: int): (r: int)
    ensures page >= 1 && limit >= 0 ==> r >= 0
    ensures r + limit == page * limit
  {
    (page - 1) * limit
  }

  /** Math.ceil on the exact quotient. */
  function Ceil(x: real): (r: int)
    ensures (r - 1) as real < x <= r as real
  {
    -((-x).Floor)
  }

  /**
   * `Math.ceil(total / limit)`. A zero limit divides by zero (Infinity, or NaN
   * for an empty table), written None.
   */
  function TotalPages(total: nat, limit: int): (r: Option<int>)
    ensures r.None? <==> limit == 0
    ensures limit > 0 ==> r.Some? && (r.value - 1) * limit < total <= r.value * limit
  {
    if limit == 0 then None
    else
      var pages := Ceil(total as real / limit as real);
      PagesCover(total, limit, pages);
      Some(pages)
  }

  lemma PagesCover(total: nat, limit: int, pages: int)
    requires limit != 0
    requires (pages - 1) as real < total as real / limit as real <= pages as real
    ensures limit > 0 ==> (pages - 1) * limit < total <= pages * limit
  {
    if limit < 0 { return; }
    var q := total as real / limit as real;
    assert q * limit as real == total as real;
    assert (pages - 1) as real * limit as real < q * limit as real;
    assert q * limit as real <= pages as real * limit as real;
  }

  /**
   * The rows a query with LIMIT `limit` OFFSET `offset` returns from the ordered
   * result `rows`; a negative offset or limit is an error in the database.
   */
  function Window<T>(rows: seq<T>, offset: int, limit: int): (r: Option<seq<T>>)
    ensures r.None? <==> offset < 0 || limit < 0
    ensures r.Some? ==> |r.value| <= limit && forall j :: 0 <= j < |r.value| ==> offset + j < |rows| && r.value[j] == rows[offset + j]
    ensures r.Some? && offset + limit <= |rows| ==> |r.value| == limit
    ensures r.Some? ==>
      |r.value| == if offset >= |rows| then 0 else if limit < |rows| - offset then limit else |rows| - offset
  {
    if offset < 0 || limit < 0 then None
    else
      var lo := if offset < |rows| then offset else |rows|;
      var hi := if offset + limit < |rows| then offset + limit else |rows|;
      Some(rows[lo..hi])
  }

  /**
   * With a positive limit every row appears on exactly the page its index
   * says, and that page is within the reported page count.
   */
  lemma EveryRowOnItsPage<T>(rows: seq<T>, limit: int, k: int)
    requires limit > 0 && 0 <= k < |rows|
    ensures var page := k / limit + 1;
      var w := Window(rows, Offset(page, limit), limit);
      && 1 <= page <= TotalPages(|rows|, limit).value
      && w.Some? && k % limit < |w.value| && w.value[k % limit] == rows[k]
  {
    var q, m := k / limit, k % limit;
    var pages := TotalPages(|rows|, limit).value;
    var off := Offset(q + 1, limit);
    QuotientParts(k, limit);
    assert off + m == k;
    var w := Window(rows, off, limit);
    assert w.Some? && m < |w.value|;
    assert w.value[m] == rows[off + m];
    assert q * limit < pages * limit;
    BelowByFactor(q, pages, limit);
  }

  /** The page of row `k` starts `k % limit` rows before it. */
  lemma QuotientParts(k: int, limit: int)
    requires limit > 0 && k >= 0
    ensures k / limit >= 0 && 0 <= k % limit < limit
    ensures Offset(k / limit + 1, limit) == k - k % limit == (k / limit) * limit
  {
  }

  lemma BelowByFactor(a: int, b: int, c: int)
    requires c > 0 && a * c < b * c
    ensures a < b
  {
    assert (b - a) * c == b * c - a * c;
  }

  /** Pages past the reported count are empty. */
  lemma PagesBeyondCountEmpty<T>(rows: seq<T>, limit: int, page: int)
    requires limit > 0 && page > TotalPages(|rows|, limit).value
    ensures Window(rows, Offset(page, limit), limit) == Some([])
  {
    var pages := TotalPages(|rows|, limit).value;
    assert (page - 1) * limit >= pages * limit;
  }

  /** The paged listing the GET handlers return. */
  datatype Page<T> = Page(items: seq<T>, total: nat, page: int, totalPages: Option<int>)

  /**
   * A GET listing of `rows` (already filtered by the search term and ordered
   * newest first by the query): `page` defaults to 1 and `limit` to 10. None
   * stands for the 500 answer when a parameter is not a number or the window
   * is negative.
   */
  function Listing<T>(rows: seq<T>, pageParam: Option<string>, limitParam: Option<string>): (r: Option<Page<T>>)
    ensures r.Some? <==>
      var page, limit := IntParam(pageParam, 1), IntParam(limitParam, 10);
      page.Some? && limit.Some? && Offset(page.value, limit.value) >= 0 && limit.value >= 0
    ensures r.Some? ==>
      var page, limit := IntParam(pageParam, 1).value, IntParam(limitParam, 10).value;
      && Window(rows, Offset(page, limit), limit) == Some(r.value.items)
      && r.value.total == |rows| && r.value.page == page
      && r.value.totalPages == TotalPages(|rows|, limit)
  {
    var page, limit := IntParam(pageParam, 1), IntParam(limitParam, 10);
    if page.None? || limit.None? || Offset(page.value, limit.value) < 0 || limit.value < 0 then None
    else
      var items := Window(rows, Offset(page.value, limit.value), limit.value).value;
      Some(Page(items, |rows|, page.value, TotalPages(|rows|, limit.value)))
  }

  /** Without parameters a listing is the first ten rows and reports ceil(total / 10) pages. */
  lemma DefaultListing<T>(rows: seq<T>)
    ensures var r := Listing(rows, None, None);
      && r.Some? && r.value.items == rows[..if |rows| < 10 then |rows| else 10]
      && r.value.page == 1 && r.value.totalPages == TotalPages(|rows|, 10)
  {
    var r := Listing(rows, None, None);
    assert IntParam(None, 1) == Some(1) && IntParam(None, 10) == Some(10);
    var w := Window(rows, 0, 10).value;
    assert w == rows[..|w|];
  }
}

/** Page and limit arithmetic of the list endpoints: the controllers' clamping
    of the query string, the services' `take`/`skip`/`orderBy`, and the
    `totalPages` of the paginated envelope. */
module Pagination {
  import opened Wrappers
  import opened Json

  /** `Number(x) || d`, for a query value that parses to an integer; `None` is a
      missing value. */
  function NumberOr(x: Option<int>, d: int): (r: int)
    ensures x.Some? && x.value != 0 ==> r == x.value
    ensures x.None? || x.value == 0 ==> r == d
  {
    match x
    case Some(v) => if v != 0 then v else d
    case None => d
  }

  const DefaultPage := 1
  const DefaultLimit := 10

  /** `Math.max(Number(q) || d, 1)`. */
  function Clamp(q: Option<int>, d: int): (r: int)
    requires d >= 1
    ensures r >= 1
    ensures q.Some? && q.value >= 1 ==> r == q.value
    ensures q.Some? && q.value < 0 ==> r == 1
    ensures q.None? || q.value == 0 ==> r == d
  {
    var n := NumberOr(q, d);
    if n >= 1 then n else 1
  }

  function ClampPage(q: Option<int>): (page: int)
    ensures page >= 1
  {
    Clamp(q, DefaultPage)
  }

  function ClampLimit(q: Option<int>): (limit: int)
    ensures limit >= 1
    ensures q.None? || q.value == 0 ==> limit == DefaultLimit
  {
    Clamp(q, DefaultLimit)
  }

  /** The arguments of `findMany`: `take`, `skip` and the `createdAt` order. */
  datatype Query = Query(take: int, skip: int, orderBy: string)

  /** `findAll(page, limit, orderBy)` of the users and the students services. */
  function FindAllQuery(page: Option<int>, limit: Option<int>, orderBy: Option<string>): (q: Query)
    ensures q.take == NumberOr(limit, DefaultLimit)
    ensures q.skip == (NumberOr(page, DefaultPage) - 1) * q.take
    ensures orderBy.None? || orderBy.value == "" ==> q.orderBy == "desc"
    ensures orderBy.Some? && orderBy.value != "" ==> q.orderBy == orderBy.value
  {
    var take := NumberOr(limit, DefaultLimit);
    var skip := (NumberOr(page, DefaultPage) - 1) * NumberOr(limit, DefaultLimit);
    var order := match orderBy case Some(o) => if o != "" then o else "desc" case None => "desc";
    Query(take, skip, order)
  }

  /** Row `n` (counting from 0) is on the page that `q` selects. */
  predicate OnPage(q: Query, n: int) {
    q.skip <= n < q.skip + q.take
  }

  /** Page 1 starts at row 0, and the offset is a whole number of pages. */
  lemma OffsetIsWholePages(page: int, limit: int, orderBy: Option<string>)
    requires page >= 1 && limit >= 1
    ensures var q := FindAllQuery(Some(page), Some(limit), orderBy);
      q.take == limit && q.skip == (page - 1) * limit && q.skip >= 0
    ensures FindAllQuery(Some(1), Some(limit), orderBy).skip == 0
  {
    MulMonotone(0, page - 1, limit);
  }

  /** Multiplying by a non-negative number keeps the order. */
  lemma {:induction false} MulMonotone(a: int, b: int, m: int)
    requires a <= b && m >= 0
    ensures a * m <= b * m
    decreases b - a
  {
    if a < b {
      MulMonotone(a + 1, b, m);
      assert (a + 1) * m == a * m + m;
    }
  }

  /** Consecutive pages are adjacent, and every row `n >= 0` is on exactly one
      page, `n / limit + 1`. */
  lemma PagesPartitionRows(limit: int, orderBy: Option<string>, n: int, page: int)
    requires limit >= 1 && n >= 0 && page >= 1
    ensures FindAllQuery(Some(page + 1), Some(limit), orderBy).skip ==
            FindAllQuery(Some(page), Some(limit), orderBy).skip + limit
    ensures OnPage(FindAllQuery(Some(page), Some(limit), orderBy), n) <==> page == n / limit + 1
  {
    var q := FindAllQuery(Some(page), Some(limit), orderBy);
    assert page * limit == (page - 1) * limit + limit;
    var p0 := n / limit + 1;
    assert n == (p0 - 1) * limit + n % limit;
    if page < p0 {
      MulMonotone(page, p0 - 1, limit);
    } else if page > p0 {
      MulMonotone(p0, page - 1, limit);
      assert p0 * limit == (p0 - 1) * limit + limit;
    }
  }

  /** `Math.ceil(count / limit)`. */
  function TotalPages(count: nat, limit: int): (pages: nat)
    requires limit >= 1
    ensures count == 0 ==> pages == 0
    ensures count > 0 ==> (pages - 1) * limit < count <= pages * limit
  {
    var t := (count + limit - 1) / limit;
    assert count + limit - 1 == limit * t + (count + limit - 1) % limit;
    assert t * limit == limit * t;
    t
  }

  /** `PaginatedResponse`: the rows with their `pagination` block. */
  datatype PaginationInfo = PaginationInfo(page: int, limit: int, totalItems: nat, totalPages: nat)
  datatype PageBody = PageBody(data: seq<Record>, pagination: PaginationInfo)

  /** The rows fetched for a list request: the total count and the page's rows. */
  datatype Listing = Listing(count: nat, rows: seq<Record>)

  /** The envelope `{ data, pagination: { page, limit, totalItems, totalPages } }`. */
  function Envelope(listing: Listing, page: int, limit: int): (b: PageBody)
    requires limit >= 1
    ensures b.data == listing.rows
    ensures b.pagination.page == page && b.pagination.limit == limit
    ensures b.pagination.totalItems == listing.count
    ensures b.pagination.totalPages == TotalPages(listing.count, limit)
  {
    PageBody(listing.rows, PaginationInfo(page, limit, listing.count, TotalPages(listing.count, limit)))
  }
}

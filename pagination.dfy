/**
 * `PaginationDto` (src/shared/domain/dto/pagination.dto.ts): page and limit with their
 * defaults and bounds, and the `offset` and `take` getters used to address one page.
 */
module Pagination {
  import opened Wrappers

  const DefaultPage := 1
  const DefaultLimit := 10
  const MaxLimit := 100

  datatype PaginationDto = PaginationDto(page: int, limit: int)

  /** The bounds the validator enforces: page at least 1, limit between 1 and 100. */
  predicate Valid(d: PaginationDto)
  {
    d.page >= 1 && 1 <= d.limit <= MaxLimit
  }

  /**
   * A query's page and limit after the field defaults apply to absent values,
   * or None when the validator rejects them.
   */
  function FromQuery(page: Option<int>, limit: Option<int>): (r: Option<PaginationDto>)
    ensures r.Some? <==> page.GetOr(DefaultPage) >= 1 && 1 <= limit.GetOr(DefaultLimit) <= MaxLimit
    ensures r.Some? ==> Valid(r.value)
    ensures r.Some? ==> r.value.page == page.GetOr(DefaultPage) && r.value.limit == limit.GetOr(DefaultLimit)
    ensures page.None? && limit.None? ==> r == Some(PaginationDto(1, 10))
  {
    var d := PaginationDto(page.GetOr(DefaultPage), limit.GetOr(DefaultLimit));
    if Valid(d) then Some(d) else None
  }

  /** The `offset` getter: the number of entries on the pages before this one. */
  function Offset(d: PaginationDto): (r: int)
    ensures Valid(d) ==> r >= 0
    ensures d.page == 1 ==> r == 0
  {
    (d.page - 1) * d.limit
  }

  /** The `take` getter. */
  function Take(d: PaginationDto): (r: int)
    ensures Valid(d) ==> 1 <= r <= MaxLimit
  {
    d.limit
  }

  /** The next page starts exactly where this one ends. */
  lemma NextPageFollows(d: PaginationDto)
    ensures Offset(d.(page := d.page + 1)) == Offset(d) + Take(d)
  {
  }

  /** A later page starts no earlier than the end of an earlier one: pages never overlap. */
  lemma {:induction false} PagesDoNotOverlap(d: PaginationDto, later: int)
    requires Valid(d) && later > d.page
    ensures Offset(d.(page := later)) >= Offset(d) + Take(d)
    decreases later - d.page
  {
    if later == d.page + 1 {
      NextPageFollows(d);
    } else {
      PagesDoNotOverlap(d, later - 1);
      NextPageFollows(d.(page := later - 1));
    }
  }
}

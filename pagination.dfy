/** The pagination arithmetic shared by the book and genre listings:
    `page`/`limit` defaults, the row offset `skip`, `totalPages` and the
    `prev_page`/`next_page` links of the response's `meta`. */
module Pagination {
  import opened Common

  /** A sort direction of a listing. */
  datatype Direction = Asc | Desc

  const DefaultPage := 1
  const DefaultLimit := 10

  datatype Meta = Meta(
    page: int,
    limit: int,
    totalItems: nat,
    totalPages: int,
    prevPage: Option<int>,
    nextPage: Option<int>)

  /** `parseInt(x) || d`: a value that does not parse (NaN, given as None)
      or parses to zero falls back to the default `d`. */
  function ParamOr(parsed: Option<int>, d: int): int {
    if parsed.None? || parsed.value == 0 then d else parsed.value
  }

  /** `Math.ceil(a / b)` for a non-zero divisor of either sign. */
  function CeilDiv(a: int, b: int): (r: int)
    requires b != 0
    ensures b > 0 ==> (r - 1) * b < a <= r * b
    ensures b < 0 ==> r * b <= a < (r - 1) * b
  {
    if b > 0 then -((-a) / b) else -(a / (-b))
  }

  /** `(page - 1) * limit`, the number of rows before the page. */
  function Skip(page: int, limit: int): int {
    (page - 1) * limit
  }

  /** The response's `meta` for a listing of `totalItems` rows. */
  function PageMeta(page: int, limit: int, totalItems: nat): Meta
    requires limit != 0
  {
    var totalPages := CeilDiv(totalItems, limit);
    Meta(page, limit, totalItems, totalPages,
         if page > 1 then Some(page - 1) else None,
         if page < totalPages then Some(page + 1) else None)
  }

  /** Page and limit as the listings read them: never zero, 1 and 10 when
      the parameters are absent, and a negative `skip` (which the database
      refuses) exactly for a negative page with a positive limit or a page
      past the first with a negative limit. */
  lemma ParamDefaults(pageParam: Option<int>, limitParam: Option<int>)
    ensures ParamOr(pageParam, DefaultPage) != 0 && ParamOr(limitParam, DefaultLimit) != 0
    ensures ParamOr(None, DefaultPage) == 1 && ParamOr(None, DefaultLimit) == 10
    ensures var page, limit := ParamOr(pageParam, DefaultPage), ParamOr(limitParam, DefaultLimit);
      Skip(page, limit) < 0 <==> (page < 0 && limit > 0) || (page > 1 && limit < 0)
  {
    var page, limit := ParamOr(pageParam, DefaultPage), ParamOr(limitParam, DefaultLimit);
    if page < 0 && limit > 0 {
      MulNegPos(page - 1, limit);
    } else if page > 1 && limit < 0 {
      MulNegPos(limit, page - 1);
    } else if page == 1 {
      assert Skip(page, limit) == 0;
    } else if limit > 0 {
      MulPos(page - 1, limit);
    } else {
      MulPos(1 - page, -limit);
      assert Skip(page, limit) == (1 - page) * (-limit);
    }
  }

  /** With a positive limit, `totalPages` is the least page count whose pages
      hold every row: zero exactly when there are no rows. */
  lemma {:induction false} TotalPagesCoverRows(limit: int, totalItems: nat)
    requires limit > 0
    ensures var m := PageMeta(1, limit, totalItems);
      && m.totalPages >= 0
      && (m.totalPages - 1) * limit < totalItems <= m.totalPages * limit
      && (m.totalPages == 0 <==> totalItems == 0)
  {
    var t := CeilDiv(totalItems, limit);
    if t < 0 {
      MulNegPos(t, limit);
    }
  }

  /** `next_page` is present exactly when rows remain after this page, and
      `prev_page` exactly when rows come before it (for a positive limit). */
  lemma {:induction false} LinksFollowRows(page: int, limit: int, totalItems: nat)
    requires limit > 0
    ensures var m := PageMeta(page, limit, totalItems);
      && (m.nextPage.Some? <==> page * limit < totalItems)
      && (m.nextPage.Some? ==> m.nextPage.value == page + 1)
      && (m.prevPage.Some? <==> Skip(page, limit) > 0)
      && (m.prevPage.Some? ==> m.prevPage.value == page - 1)
  {
    var t := CeilDiv(totalItems, limit);
    if page < t {
      // page <= t - 1, so page * limit <= (t - 1) * limit < totalItems
      MulMonotone(page, t - 1, limit);
    } else {
      // t <= page, so totalItems <= t * limit <= page * limit
      MulMonotone(t, page, limit);
    }
    if page > 1 {
      MulPos(page - 1, limit);
    } else {
      MulMonotone(page - 1, 0, limit);
    }
  }

  /** Every page from 1 to `totalPages` starts at a row that exists, so no page
      inside the range is empty (for a positive limit). */
  lemma {:induction false} PagesInRangeAreNonEmpty(page: int, limit: int, totalItems: nat)
    requires limit > 0
    requires 1 <= page <= PageMeta(page, limit, totalItems).totalPages
    ensures 0 <= Skip(page, limit) < totalItems
  {
    var t := CeilDiv(totalItems, limit);
    MulMonotone(page - 1, t - 1, limit);
    MulMonotone(0, page - 1, limit);
  }

  lemma MulMonotone(a: int, b: int, c: int)
    requires a <= b && c > 0
    ensures a * c <= b * c
  {
    assert b * c - a * c == (b - a) * c;
    MulNonNeg(b - a, c);
  }

  lemma MulNonNeg(a: int, c: int)
    requires a >= 0 && c > 0
    ensures a * c >= 0
  {
  }

  lemma MulPos(a: int, c: int)
    requires a > 0 && c > 0
    ensures a * c > 0
  {
  }

  lemma MulNegPos(a: int, c: int)
    requires a < 0 && c > 0
    ensures a * c < 0
  {
    MulPos(-a, c);
    assert a * c == -((-a) * c);
  }
}

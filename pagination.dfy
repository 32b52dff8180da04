/** The shared page/limit query and the skip/take window it selects. */
module Pagination {
  import opened Base

  /** The query parameters; `None` is an absent parameter. */
  datatype PaginationQuery = PaginationQuery(page: Option<int>, limit: Option<int>)

  /** What the validation pipe lets through: page at least 1, limit between 1 and 100, when given. */
  predicate Validated(q: PaginationQuery) {
    (q.page.None? || 1 <= q.page.value) && (q.limit.None? || 1 <= q.limit.value <= 100)
  }

  function PageOf(q: PaginationQuery): int {
    q.page.GetOr(1)
  }

  function GetTake(q: PaginationQuery): (r: int)
    ensures q.limit.None? ==> r == 20
    ensures Validated(q) ==> 1 <= r <= 100
  {
    q.limit.GetOr(20)
  }

  function GetSkip(q: PaginationQuery): (r: int) {
    (PageOf(q) - 1) * GetTake(q)
  }

  /** A validated query never skips a negative number of rows; the first page skips none. */
  lemma SkipNonNegative(q: PaginationQuery)
    requires Validated(q)
    ensures 0 <= GetSkip(q)
    ensures PageOf(q) == 1 ==> GetSkip(q) == 0
  {
  }

  /** The skip of page n is n - 1 whole pages: the first page starts at 0 and each next page where the previous ends. */
  lemma {:induction false} SkipIsWholePages(limit: Option<int>, n: nat)
    requires 1 <= n
    ensures GetSkip(PaginationQuery(Some(n), limit)) ==
      if n == 1 then 0 else GetSkip(PaginationQuery(Some(n - 1), limit)) + GetTake(PaginationQuery(Some(n - 1), limit))
  {
  }

  /** Consecutive pages are adjacent: the next page starts where this one ends. */
  lemma NextPageAdjacent(q: PaginationQuery)
    requires Validated(q)
    ensures var next := q.(page := Some(PageOf(q) + 1));
      Validated(next) && GetSkip(next) == GetSkip(q) + GetTake(q)
  {
  }

  /** Two adjacent windows of a result list together read the double-size window: nothing is skipped or repeated. */
  lemma AdjacentPagesCover<T>(s: seq<T>, skip: nat, take: nat)
    ensures Page(s, skip, take) + Page(s, skip + take, take) == Page(s, skip, 2 * take)
  {
  }
}

/**
 * Pagination normalisation of GetTodos and GetTodosByCategoryID: the page is
 * at least 1, a page size below 1 becomes the configured default, the size is
 * capped at the configured maximum, and the number of pages is the ceiling of
 * total / page size.
 */
module Pagination {
  import opened Wrappers
  import opened Models
  import opened Errors

  /** PaginationConfig, read from the environment with defaults 10 and 100 and no further validation. */
  datatype PaginationConfig = PaginationConfig(defaultPageSize: int, maxPageSize: int)

  /** A configuration whose sizes are both positive, as the defaults are. */
  predicate Sane(cfg: PaginationConfig)
  {
    cfg.defaultPageSize >= 1 && cfg.maxPageSize >= 1
  }

  /** `max(page, 1)`. */
  function NormalizePage(page: int): (p: int)
    ensures p >= 1
    ensures page >= 1 ==> p == page
  {
    if page < 1 then 1 else page
  }

  /** The page size exactly as the service computes it: default for a size below 1, then `min` with the maximum. */
  function PageSizeAsWritten(cfg: PaginationConfig, pageSize: int): int
  {
    var ps := if pageSize < 1 then cfg.defaultPageSize else pageSize;
    if ps < cfg.maxPageSize then ps else cfg.maxPageSize
  }

  /**
   * With a configured default or maximum below 1 the page size comes out 0
   * (or negative), and the total-pages division that follows divides by it.
   */
  lemma AsWrittenPageSizeCanBeZero()
    ensures PageSizeAsWritten(PaginationConfig(0, 100), 0) == 0
    ensures PageSizeAsWritten(PaginationConfig(10, 0), 10) == 0
  {
  }

  /** Go's integer division, which truncates toward zero. */
  function GoQuotient(a: int, b: int): (q: int)
    requires b != 0
    ensures a >= 0 && b > 0 ==> q == a / b
  {
    var m := (if a < 0 then -a else a) / (if b < 0 then -b else b);
    if (a < 0) != (b < 0) then -m else m
  }

  /** The total-pages computation exactly as written: `None` stands for Go's run-time panic on an integer division by zero. */
  function TotalPagesAsWritten(total: nat, pageSize: int): (n: Option<int>)
    ensures n.None? <==> pageSize == 0
  {
    if pageSize == 0 then None else Some(GoQuotient(total + pageSize - 1, pageSize))
  }

  /**
   * The division by zero is reachable from a listing request. With a
   * configured maximum of 0 every request gets there, including one without
   * a page size, which the handler fills in as 10. With a configured default
   * of 0 a request gets there when its page size is 0, negative, or not a
   * number (the handler ignores the parse error and passes 0).
   */
  lemma AsWrittenListingDividesByZero(total: nat)
    ensures TotalPagesAsWritten(total, PageSizeAsWritten(PaginationConfig(0, 100), 0)).None?
    ensures TotalPagesAsWritten(total, PageSizeAsWritten(PaginationConfig(10, 0), 10)).None?
  {
    AsWrittenPageSizeCanBeZero();
  }

  /** The page size, additionally kept at least 1 so that the division is always defined. */
  function PageSize(cfg: PaginationConfig, pageSize: int): (ps: int)
    ensures ps >= 1
    ensures cfg.maxPageSize >= 1 ==> ps <= cfg.maxPageSize
    ensures 1 <= pageSize <= cfg.maxPageSize ==> ps == pageSize
    ensures Sane(cfg) && pageSize > cfg.maxPageSize ==> ps == cfg.maxPageSize
    ensures Sane(cfg) && pageSize < 1 ==>
      ps == (if cfg.defaultPageSize <= cfg.maxPageSize then cfg.defaultPageSize else cfg.maxPageSize)
  {
    var ps := PageSizeAsWritten(cfg, pageSize);
    if ps < 1 then 1 else ps
  }

  /**
   * Under a sane configuration the corrected page size is the one the
   * service computes, and so is the number of pages.
   */
  lemma PageSizeAgreesWhenSane(cfg: PaginationConfig, pageSize: int, total: nat)
    requires Sane(cfg)
    ensures PageSize(cfg, pageSize) == PageSizeAsWritten(cfg, pageSize)
    ensures TotalPagesAsWritten(total, PageSizeAsWritten(cfg, pageSize)) == Some(TotalPages(total, PageSize(cfg, pageSize)))
  {
  }

  /** `(total + pageSize - 1) / pageSize`: the least number of pages of that size that hold `total` items. */
  function TotalPages(total: nat, pageSize: int): (n: nat)
    requires pageSize >= 1
    ensures n * pageSize >= total
    ensures n == 0 || (n - 1) * pageSize < total
    ensures n == 0 <==> total == 0
  {
    var n := (total + pageSize - 1) / pageSize;
    CeilingDivision(total, pageSize, n);
    n
  }

  /** The ceiling property of the rounded-up division. */
  lemma CeilingDivision(total: nat, d: int, n: int)
    requires d >= 1 && n == (total + d - 1) / d
    ensures n >= 0 && n * d >= total
    ensures n == 0 || (n - 1) * d < total
  {
    var q := total + d - 1;
    assert q == n * d + q % d;
    assert 0 <= q % d < d;
  }

  /** TodoListResponse. */
  datatype TodoListResponse = TodoListResponse(
    todos: seq<Todo>,
    total: nat,
    page: int,
    pageSize: int,
    totalPages: nat)

  /**
   * The paginated listing shared by GetTodos and GetTodosByCategoryID.
   * `fetch` is the repository query, a function of the normalised page and
   * page size returning the page's todos and the total count; `context` is
   * the operation's wrap message.
   */
  function ListPage(cfg: PaginationConfig, page: int, pageSize: int,
                    fetch: (int, int) -> Option<(seq<Todo>, nat)>, context: string): (r: Result<TodoListResponse, Err>)
    ensures r.Fail? <==> fetch(NormalizePage(page), PageSize(cfg, pageSize)).None?
    ensures r.Fail? ==> r.error == Internal(context)
    ensures r.Ok? ==>
      var v := r.value;
      && v.page >= 1 && (page >= 1 ==> v.page == page)
      && v.pageSize >= 1 && (cfg.maxPageSize >= 1 ==> v.pageSize <= cfg.maxPageSize)
      && (Sane(cfg) && pageSize < 1 ==> v.pageSize == PageSize(cfg, cfg.defaultPageSize))
      && fetch(v.page, v.pageSize) == Some((v.todos, v.total))
      && v.totalPages * v.pageSize >= v.total
      && (v.totalPages == 0 || (v.totalPages - 1) * v.pageSize < v.total)
  {
    var p := NormalizePage(page);
    var ps := PageSize(cfg, pageSize);
    match fetch(p, ps)
    case None => Fail(Internal(context))
    case Some((todos, total)) => Ok(TodoListResponse(todos, total, p, ps, TotalPages(total, ps)))
  }

  /** A negative page is asked for as page 1, with the requested size kept. */
  lemma NormalizationExample(fetch: (int, int) -> Option<(seq<Todo>, nat)>)
    requires fetch(1, 10).Some?
    ensures var r := ListPage(PaginationConfig(10, 100), -1, 10, fetch, "failed to fetch todos");
            r.Ok? && r.value.page == 1 && r.value.pageSize == 10
  {
  }
}

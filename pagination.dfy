/** The pagination bar: hidden for at most one page; "previous" and "next"
    request the neighbouring page when there is one and are disabled at the ends. */
module Pagination {
  import opened Domain

  /** The bar renders only when there is more than one page. */
  predicate IsVisible(totalPages: int)
  {
    totalPages > 1
  }

  /** `handlePrevious`: the page requested, if any. */
  function PreviousRequest(currentPage: int): Option<int>
  {
    if currentPage > 1 then Some(currentPage - 1) else None
  }

  /** `handleNext`: the page requested, if any. */
  function NextRequest(currentPage: int, totalPages: int): Option<int>
  {
    if currentPage < totalPages then Some(currentPage + 1) else None
  }

  predicate PreviousDisabled(currentPage: int)
  {
    currentPage == 1
  }

  predicate NextDisabled(currentPage: int, totalPages: int)
  {
    currentPage == totalPages
  }

  /** From a page in range the bar only ever requests a page in range, and
      each request is one step from the current page. */
  lemma RequestsStayInRange(currentPage: int, totalPages: int)
    requires 1 <= currentPage <= totalPages
    ensures PreviousRequest(currentPage).Some? ==>
      1 <= PreviousRequest(currentPage).value <= totalPages && PreviousRequest(currentPage).value == currentPage - 1
    ensures NextRequest(currentPage, totalPages).Some? ==>
      1 <= NextRequest(currentPage, totalPages).value <= totalPages && NextRequest(currentPage, totalPages).value == currentPage + 1
  {
  }

  /** On a visible bar with the page in range, a button is disabled exactly
      when its handler would request nothing. */
  lemma DisabledIffNoRequest(currentPage: int, totalPages: int)
    requires IsVisible(totalPages) && 1 <= currentPage <= totalPages
    ensures PreviousDisabled(currentPage) <==> PreviousRequest(currentPage).None?
    ensures NextDisabled(currentPage, totalPages) <==> NextRequest(currentPage, totalPages).None?
  {
  }

  /** On a visible bar at least one direction is always available. */
  lemma SomeDirectionAvailable(currentPage: int, totalPages: int)
    requires IsVisible(totalPages) && 1 <= currentPage <= totalPages
    ensures PreviousRequest(currentPage).Some? || NextRequest(currentPage, totalPages).Some?
  {
  }

  /** Following "next" from the first page visits every page once and stops at the last. */
  lemma {:induction false} NextWalk(page: int, totalPages: int)
    requires 1 <= page <= totalPages
    ensures NextSteps(page, totalPages) == totalPages - page
    decreases totalPages - page
  {
    if page < totalPages {
      NextWalk(page + 1, totalPages);
    }
  }

  /** Number of "next" clicks honoured from `page` before the button stops requesting. */
  function NextSteps(page: int, totalPages: int): nat
    decreases totalPages - page
  {
    match NextRequest(page, totalPages)
    case None => 0
    case Some(p) => 1 + NextSteps(p, totalPages)
  }
}

/** The post list page of frontend/js/posts.js: the pagination bar that
    `renderPagination` builds, and the page reset when the search text or
    the category filter changes. */
module FrontendPosts {

  /** One element of the pagination bar. `Gap(at)` is the "..." shown in
      place of page `at`; the targets of Prev and Next are the pages their
      buttons load. */
  datatype PageItem =
    | Prev(disabled: bool, target: int)
    | PageButton(page: int, active: bool)
    | Gap(at: int)
    | Next(disabled: bool, target: int)

  /** Page `i` gets a button: the first, the last, and those within 2 of the current page. */
  predicate Listed(i: int, total: int, current: int)
  {
    i == 1 || i == total || (current - 2 <= i && i <= current + 2)
  }

  /** Page `i` is replaced by "...": three away from the current page and not listed. */
  predicate GapAt(i: int, total: int, current: int)
  {
    !Listed(i, total, current) && (i == current - 3 || i == current + 3)
  }

  /** What the loop body appends for page `i`. */
  function ItemsFor(i: int, total: int, current: int): seq<PageItem>
  {
    if Listed(i, total, current) then [PageButton(i, i == current)]
    else if i == current - 3 || i == current + 3 then [Gap(i)]
    else []
  }

  /** The items of pages 1 to `n`. */
  function Window(total: int, current: int, n: nat): (w: seq<PageItem>)
    ensures |w| <= n
  {
    if n == 0 then [] else Window(total, current, n - 1) + ItemsFor(n, total, current)
  }

  /** The whole bar: nothing for at most one page, else Prev, the window, Next. */
  function Pagination(total: int, current: int): (bar: seq<PageItem>)
    ensures total <= 1 <==> bar == []
    ensures bar != [] ==> |bar| >= 2 && bar[0].Prev? && bar[|bar| - 1].Next?
  {
    if total <= 1 then []
    else [Prev(current == 1, current - 1)] + Window(total, current, total) + [Next(current == total, current + 1)]
  }

  /** The page number an item of the window stands for. */
  function Position(item: PageItem): int
  {
    match item
    case PageButton(p, _) => p
    case Gap(at) => at
    case Prev(_, _) => 0
    case Next(_, _) => 0
  }

  /** The window holds only page buttons and gaps, at positions 1 to `n`. */
  lemma {:induction false} WindowShape(total: int, current: int, n: nat)
    ensures forall k :: 0 <= k < |Window(total, current, n)| ==>
              var it := Window(total, current, n)[k];
              (it.PageButton? || it.Gap?) && 1 <= Position(it) <= n
  {
    if n > 0 {
      WindowShape(total, current, n - 1);
    }
  }

  /** The items of the window are in ascending page order, each page at most once. */
  lemma {:induction false} WindowAscending(total: int, current: int, n: nat)
    ensures forall k, l :: 0 <= k < l < |Window(total, current, n)| ==>
              Position(Window(total, current, n)[k]) < Position(Window(total, current, n)[l])
  {
    if n > 0 {
      WindowAscending(total, current, n - 1);
      WindowShape(total, current, n - 1);
      var w := Window(total, current, n - 1);
      assert Window(total, current, n) == w + ItemsFor(n, total, current);
      forall k | 0 <= k < |w|
        ensures Position(w[k]) < n
      {
      }
    }
  }

  /** Page `i` has a button exactly when it is listed, and a button is
      active exactly when it is the current page's. */
  lemma {:induction false} WindowButtons(total: int, current: int, n: nat, i: int)
    ensures PageButton(i, i == current) in Window(total, current, n) <==> 1 <= i <= n && Listed(i, total, current)
    ensures forall it :: it in Window(total, current, n) && it.PageButton? ==>
              it.active == (it.page == current) && Listed(it.page, total, current)
  {
    if n > 0 {
      WindowButtons(total, current, n - 1, i);
      assert Window(total, current, n) == Window(total, current, n - 1) + ItemsFor(n, total, current);
    }
  }

  /** A "..." stands at page `i` exactly when `i` is three away from the
      current page and not listed. */
  lemma {:induction false} WindowGaps(total: int, current: int, n: nat, i: int)
    ensures Gap(i) in Window(total, current, n) <==> 1 <= i <= n && GapAt(i, total, current)
  {
    if n > 0 {
      WindowGaps(total, current, n - 1, i);
      assert Window(total, current, n) == Window(total, current, n - 1) + ItemsFor(n, total, current);
    }
  }

  /** With at most one page the bar is empty. */
  lemma SinglePageNoBar(total: int, current: int)
    requires total <= 1
    ensures Pagination(total, current) == []
  {
  }

  /** With several pages the bar starts with Prev, disabled exactly on the
      first page, and ends with Next, disabled exactly on the last page. */
  lemma PrevNextDisabled(total: int, current: int)
    requires total > 1
    ensures var bar := Pagination(total, current);
      && |bar| >= 2
      && bar[0] == Prev(current == 1, current - 1)
      && bar[|bar| - 1] == Next(current == total, current + 1)
      && (bar[0].disabled <==> current == 1)
      && (bar[|bar| - 1].disabled <==> current == total)
  {
  }

  /** For a current page within range exactly one page button is active,
      and it is the one of the current page. */
  lemma ExactlyOneActive(total: int, current: int)
    requires 1 <= current <= total
    ensures var w := Window(total, current, total);
      && PageButton(current, true) in w
      && forall k, l :: (0 <= k < |w| && 0 <= l < |w| && w[k].PageButton? && w[k].active
                         && w[l].PageButton? && w[l].active) ==> k == l && w[k].page == current
  {
    var w := Window(total, current, total);
    WindowButtons(total, current, total, current);
    WindowAscending(total, current, total);
    forall k, l | 0 <= k < |w| && 0 <= l < |w| && w[k].PageButton? && w[k].active && w[l].PageButton? && w[l].active
      ensures k == l && w[k].page == current
    {
      assert w[k] in w && w[l] in w;
      assert Position(w[k]) == current == Position(w[l]);
    }
  }

  /** `renderPagination(totalPages, currentPage)`: the pagination bar built
      item by item as the loop over the page numbers appends it. */
  method RenderPagination(totalPages: int, currentPage: int) returns (items: seq<PageItem>)
    ensures items == Pagination(totalPages, currentPage)
  {
    if totalPages <= 1 {
      return [];
    }
    items := [Prev(currentPage == 1, currentPage - 1)];
    for i := 1 to totalPages + 1
      invariant items == [Prev(currentPage == 1, currentPage - 1)] + Window(totalPages, currentPage, i - 1)
    {
      ghost var before := items;
      if i == 1 || i == totalPages || (i >= currentPage - 2 && i <= currentPage + 2) {
        items := items + [PageButton(i, i == currentPage)];
      } else if i == currentPage - 3 || i == currentPage + 3 {
        items := items + [Gap(i)];
      }
      assert items == before + ItemsFor(i, totalPages, currentPage);
      assert Window(totalPages, currentPage, i) == Window(totalPages, currentPage, i - 1) + ItemsFor(i, totalPages, currentPage);
    }
    items := items + [Next(currentPage == totalPages, currentPage + 1)];
  }

  /** The page state of `PostsManager`: the page shown and the active search
      text and category filter. */
  class PostsManager {
    var currentPage: int
    var currentSearch: string
    var currentCategory: string

    constructor ()
      ensures currentPage == 1 && currentSearch == [] && currentCategory == []
    {
      currentPage := 1;
      currentSearch := [];
      currentCategory := [];
    }

    /** `searchPosts`: takes the text of the search box and goes back to page 1. */
    method SearchPosts(search: string)
      modifies this
      ensures currentSearch == search && currentPage == 1
      ensures currentCategory == old(currentCategory)
    {
      currentSearch := search;
      currentPage := 1;
    }

    /** `filterByCategory`: takes the selected category slug and goes back to page 1. */
    method FilterByCategory(category: string)
      modifies this
      ensures currentCategory == category && currentPage == 1
      ensures currentSearch == old(currentSearch)
    {
      currentCategory := category;
      currentPage := 1;
    }
  }
}

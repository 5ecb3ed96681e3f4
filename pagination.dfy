/** Pagination of the catalog grid: the page slice of applyPagination, the
    page count, and the button bar of updatePaginationButtons (a window of at
    most five page numbers, with Previous and Next emitted only when there is
    a page to move to). There is no clamping of the current page and no
    ellipsis. */
module Pagination {

  /** itemsPerPage */
  const ItemsPerPage: nat := 8
  /** maxVisiblePages */
  const MaxVisiblePages: nat := 5

  function Min(a: int, b: int): int { if a <= b then a else b }
  function Max(a: int, b: int): int { if a >= b then a else b }

  /** An index argument of Array.prototype.slice, resolved against length
      `n`: negative values count from the end, and the result is clamped
      into 0..n. */
  function SliceIndex(i: int, n: nat): (k: nat)
    ensures k <= n
    ensures 0 <= i ==> k == Min(i, n)
  {
    if i < 0 then Max(n + i, 0) else Min(i, n)
  }

  /** Array.prototype.slice(start, end). */
  function JsSlice<T>(s: seq<T>, start: int, end: int): (r: seq<T>)
    ensures |r| <= |s|
    ensures forall x :: x in r ==> x in s
    ensures 0 <= start <= end ==> r == s[Min(start, |s|)..Min(end, |s|)]
  {
    var from, to := SliceIndex(start, |s|), SliceIndex(end, |s|);
    if from >= to then [] else s[from..to]
  }

  /** applyPagination: the items of page `page` (numbered from 1). */
  function PageSlice<T>(data: seq<T>, page: int): (r: seq<T>)
    ensures |r| <= ItemsPerPage
    ensures forall x :: x in r ==> x in data
    ensures page >= 1 ==>
      r == data[Min((page - 1) * ItemsPerPage, |data|)..Min(page * ItemsPerPage, |data|)]
    ensures page >= 1 && (page - 1) * ItemsPerPage >= |data| ==> r == []
    ensures page == 0 ==> r == []
  {
    var startIndex := (page - 1) * ItemsPerPage;
    JsSlice(data, startIndex, startIndex + ItemsPerPage)
  }

  /** Math.ceil(totalItems / itemsPerPage): the fewest pages that hold
      every item. */
  function TotalPages(totalItems: nat): (t: nat)
    ensures t * ItemsPerPage >= totalItems
    ensures t > 0 ==> (t - 1) * ItemsPerPage < totalItems
    ensures t == 0 <==> totalItems == 0
  {
    (totalItems + ItemsPerPage - 1) / ItemsPerPage
  }

  /** The item at index `j` is on page j / 8 + 1, at position j % 8. */
  lemma PageItemAt<T>(data: seq<T>, j: int)
    requires 0 <= j < |data|
    ensures var page := j / ItemsPerPage + 1;
      && 1 <= page <= TotalPages(|data|)
      && j % ItemsPerPage < |PageSlice(data, page)|
      && PageSlice(data, page)[j % ItemsPerPage] == data[j]
  {
  }

  /** Pages 1..k, one after the other. */
  function PagesUpTo<T>(data: seq<T>, k: nat): seq<T> {
    if k == 0 then [] else PagesUpTo(data, k - 1) + PageSlice(data, k)
  }

  lemma {:induction false} PagesUpToIsPrefix<T>(data: seq<T>, k: nat)
    ensures PagesUpTo(data, k) == data[..Min(k * ItemsPerPage, |data|)]
  {
    if k > 0 {
      PagesUpToIsPrefix(data, k - 1);
      var a, b := Min((k - 1) * ItemsPerPage, |data|), Min(k * ItemsPerPage, |data|);
      assert data[..a] + data[a..b] == data[..b];
    }
  }

  /** Reading pages 1..totalPages in order gives back the whole list: no
      item is repeated or left out. */
  lemma PagesReassemble<T>(data: seq<T>)
    ensures PagesUpTo(data, TotalPages(|data|)) == data
  {
    PagesUpToIsPrefix(data, TotalPages(|data|));
  }

  /** The first and last page number shown (startPage and endPage). The end
      is computed before the start is pulled back, as in the source. */
  function WindowStart(currentPage: int, totalPages: int): int {
    var start := Max(1, currentPage - MaxVisiblePages / 2);
    var end := Min(totalPages, start + MaxVisiblePages - 1);
    if end - start + 1 < MaxVisiblePages then Max(1, end - MaxVisiblePages + 1) else start
  }

  function WindowEnd(currentPage: int, totalPages: int): int {
    Min(totalPages, Max(1, currentPage - MaxVisiblePages / 2) + MaxVisiblePages - 1)
  }

  /** For a current page in range, the window contains it, stays within
      1..totalPages and shows min(5, totalPages) pages. */
  lemma WindowShape(currentPage: int, totalPages: int)
    requires 1 <= currentPage <= totalPages
    ensures var s, e := WindowStart(currentPage, totalPages), WindowEnd(currentPage, totalPages);
      && 1 <= s <= currentPage <= e <= totalPages
      && e - s + 1 == Min(MaxVisiblePages, totalPages)
  {
  }

  /** Away from both ends the current page sits in the middle of the window. */
  lemma WindowCentred(currentPage: int, totalPages: int)
    requires 3 <= currentPage <= totalPages - 2
    ensures WindowStart(currentPage, totalPages) == currentPage - 2
    ensures WindowEnd(currentPage, totalPages) == currentPage + 2
  {
  }

  /** Nothing clamps the current page: past the last page the window shows
      the last pages, none of them the current one. */
  lemma WindowPastLastPage(currentPage: int, totalPages: int)
    requires 1 <= totalPages < currentPage
    ensures WindowStart(currentPage, totalPages) == Max(1, totalPages - MaxVisiblePages + 1)
    ensures WindowEnd(currentPage, totalPages) == totalPages
  {
  }

  /** The window is never empty once there are at least two pages. */
  lemma WindowNonEmpty(currentPage: int, totalPages: int)
    requires totalPages > 1
    ensures 1 <= WindowStart(currentPage, totalPages) <= WindowEnd(currentPage, totalPages) <= totalPages
  {
  }

  datatype Button = Previous | PageNumber(number: int, active: bool) | Next

  /** The pagination element: hidden, or shown holding these buttons in order. */
  datatype Bar = Hidden | Shown(buttons: seq<Button>)

  /** The buttons for pages start..end, the one equal to currentPage active. */
  function PageNumbers(start: int, end: int, currentPage: int): (r: seq<Button>)
  {
    seq(Max(0, end - start + 1), k => PageNumber(start + k, start + k == currentPage))
  }

  /** The bar updatePaginationButtons produces. */
  function PaginationBar(totalItems: nat, currentPage: int): (bar: Bar)
    ensures bar.Hidden? <==> totalItems <= ItemsPerPage
    ensures bar.Shown? ==> (Previous in bar.buttons <==> currentPage > 1)
    ensures bar.Shown? ==> (Next in bar.buttons <==> currentPage < TotalPages(totalItems))
  {
    var totalPages := TotalPages(totalItems);
    if totalPages <= 1 then Hidden
    else
      var start, end := WindowStart(currentPage, totalPages), WindowEnd(currentPage, totalPages);
      var prev := if currentPage > 1 then [Previous] else [];
      var next := if currentPage < totalPages then [Next] else [];
      var numbers := PageNumbers(start, end, currentPage);
      assert Previous !in numbers && Next !in numbers;
      Shown(prev + numbers + next)
  }

  lemma PageNumbersAt(start: int, end: int, currentPage: int, k: int)
    requires 0 <= k <= end - start
    ensures |PageNumbers(start, end, currentPage)| == end - start + 1
    ensures PageNumbers(start, end, currentPage)[k] == PageNumber(start + k, start + k == currentPage)
  {
  }

  lemma PageNumbersSnoc(start: int, i: int, currentPage: int)
    requires start <= i
    ensures PageNumbers(start, i, currentPage)
         == PageNumbers(start, i - 1, currentPage) + [PageNumber(i, i == currentPage)]
  {
  }

  /** With the current page in range, the bar lists Previous (if any), then
      min(5, totalPages) consecutive page numbers from a start page at or
      before the current one, then Next (if any); exactly the current page's
      button is active. */
  lemma PaginationBarLayout(totalItems: nat, currentPage: int)
    requires 1 <= currentPage <= TotalPages(totalItems)
    requires TotalPages(totalItems) > 1
    ensures var totalPages := TotalPages(totalItems);
      var bar := PaginationBar(totalItems, currentPage);
      var first := if currentPage > 1 then 1 else 0;
      var count := Min(MaxVisiblePages, totalPages);
      var start := WindowStart(currentPage, totalPages);
      && bar.Shown?
      && |bar.buttons| == first + count + (if currentPage < totalPages then 1 else 0)
      && (currentPage > 1 ==> bar.buttons[0] == Previous)
      && (currentPage < totalPages ==> bar.buttons[|bar.buttons| - 1] == Next)
      && 1 <= start <= currentPage < start + count <= totalPages + 1
      && (forall k :: first <= k < first + count ==>
            bar.buttons[k] == PageNumber(start + k - first, start + k - first == currentPage))
      && (forall b :: b in bar.buttons && b.PageNumber? ==> (b.active <==> b.number == currentPage))
      && PageNumber(currentPage, true) in bar.buttons
  {
    var totalPages := TotalPages(totalItems);
    WindowShape(currentPage, totalPages);
    var start, end := WindowStart(currentPage, totalPages), WindowEnd(currentPage, totalPages);
    var first := if currentPage > 1 then 1 else 0;
    var prev := if currentPage > 1 then [Previous] else [];
    var next := if currentPage < totalPages then [Next] else [];
    var numbers := PageNumbers(start, end, currentPage);
    var buttons := PaginationBar(totalItems, currentPage).buttons;
    assert buttons == prev + numbers + next;
    forall k | first <= k < first + (end - start + 1)
      ensures buttons[k] == PageNumber(start + k - first, start + k - first == currentPage)
    {
      PageNumbersAt(start, end, currentPage, k - first);
    }
    PageNumbersAt(start, end, currentPage, currentPage - start);
    assert buttons[first + (currentPage - start)] == PageNumber(currentPage, true);
  }

  /** The page a button's click handler moves to. */
  function ClickTarget(b: Button, currentPage: int): (page: int)
    ensures b.PageNumber? ==> page == b.number
    ensures b == Previous ==> page == currentPage - 1
    ensures b == Next ==> page == currentPage + 1
  {
    match b
    case Previous => currentPage - 1
    case PageNumber(i, _) => i
    case Next => currentPage + 1
  }

  /** Clicking any button of a bar drawn for an in-range page lands on a
      page that is again in range. */
  lemma ClickStaysInRange(totalItems: nat, currentPage: int, b: Button)
    requires 1 <= currentPage <= TotalPages(totalItems)
    requires PaginationBar(totalItems, currentPage).Shown?
    requires b in PaginationBar(totalItems, currentPage).buttons
    ensures 1 <= ClickTarget(b, currentPage) <= TotalPages(totalItems)
  {
    var totalPages := TotalPages(totalItems);
    WindowShape(currentPage, totalPages);
  }

  /** The bar when there are at least two pages: Previous (if any), the
      window of page numbers, Next (if any). */
  lemma PaginationBarShown(totalItems: nat, currentPage: int)
    requires TotalPages(totalItems) > 1
    ensures var totalPages := TotalPages(totalItems);
      PaginationBar(totalItems, currentPage) == Shown(
        (if currentPage > 1 then [Previous] else [])
        + PageNumbers(WindowStart(currentPage, totalPages), WindowEnd(currentPage, totalPages), currentPage)
        + (if currentPage < totalPages then [Next] else []))
  {
  }

  lemma AppendAssoc(a: seq<Button>, b: seq<Button>, x: Button)
    ensures a + b + [x] == a + (b + [x])
  {
  }

  /** updatePaginationButtons, step by step: Previous, the window of page
      numbers emitted by a loop, then Next. */
  method BuildPaginationBar(totalItems: nat, currentPage: int) returns (bar: Bar)
    ensures bar == PaginationBar(totalItems, currentPage)
  {
    var totalPages := TotalPages(totalItems);
    if totalPages <= 1 {
      return Hidden;
    }
    var buttons: seq<Button> := [];
    if currentPage > 1 {
      buttons := buttons + [Previous];
    }
    ghost var before := buttons;
    var startPage := Max(1, currentPage - MaxVisiblePages / 2);
    var endPage := Min(totalPages, startPage + MaxVisiblePages - 1);
    if endPage - startPage + 1 < MaxVisiblePages {
      startPage := Max(1, endPage - MaxVisiblePages + 1);
    }
    WindowNonEmpty(currentPage, totalPages);
    assert startPage == WindowStart(currentPage, totalPages);
    assert endPage == WindowEnd(currentPage, totalPages);
    var i := startPage;
    while i <= endPage
      invariant startPage <= i <= endPage + 1
      invariant buttons == before + PageNumbers(startPage, i - 1, currentPage)
    {
      PageNumbersSnoc(startPage, i, currentPage);
      AppendAssoc(before, PageNumbers(startPage, i - 1, currentPage), PageNumber(i, i == currentPage));
      buttons := buttons + [PageNumber(i, i == currentPage)];
      i := i + 1;
    }
    ghost var numbers := PageNumbers(startPage, endPage, currentPage);
    assert buttons == before + numbers;
    if currentPage < totalPages {
      buttons := buttons + [Next];
    }
    ghost var prev: seq<Button> := if currentPage > 1 then [Previous] else [];
    ghost var next: seq<Button> := if currentPage < totalPages then [Next] else [];
    assert before == prev;
    assert buttons == prev + numbers + next;
    PaginationBarShown(totalItems, currentPage);
    bar := Shown(buttons);
  }
}

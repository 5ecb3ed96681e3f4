/** The catalog page's state and event handlers: the apps and games lists,
    the current page number, the grid with its empty-state message, and the
    handlers that re-render after a filter, sort, search or page change or
    after an item is added. */
module Catalog {
  import opened Query
  import opened Pagination

  /** What updateGrid paints: the cards of the page, or the placeholder. */
  datatype Grid = Cards(items: seq<Item>) | NoResults(heading: string, hint: string)

  /** The grid and the pagination bar, as painted together. */
  datatype View = View(grid: Grid, bar: Bar)

  /** updateGrid: cards for a non-empty page; otherwise a placeholder whose
      heading names the page type and whose hint depends on whether the user
      is past page 1. */
  function GridFor(pageItems: seq<Item>, kind: PageType, currentPage: int): (g: Grid)
    ensures g.Cards? <==> pageItems != []
    ensures g.Cards? ==> g.items == pageItems
  {
    if pageItems == [] then
      NoResults(
        if kind == Games then "No games found" else "No applications found",
        if currentPage > 1 then "Try going back to previous pages"
        else "Try changing your filters or search terms")
    else Cards(pageItems)
  }

  /** A selector whose value is empty falls back to its default
      (`value || 'all'`, `value || 'popular'`). */
  function SelectedOr(value: string, default: string): (r: string)
    ensures r != [] || default == []
    ensures value != [] ==> r == value
    ensures value == [] ==> r == default
  {
    if value == [] then default else value
  }

  /** The list applyFilters paints: the category stage, then the sort. */
  function FilteredList(data: seq<Item>, category: string, sortType: string,
                        leq: (string, string) -> bool): (r: seq<Item>)
    ensures multiset(r) == multiset(CategoryStage(data, SelectedOr(category, "all")))
    ensures category == [] || category == "all" ==> multiset(r) == multiset(data)
  {
    SortData(CategoryStage(data, SelectedOr(category, "all")), SelectedOr(sortType, "popular"), leq)
  }

  /** Every item applyFilters keeps belongs to the selected category. */
  lemma FilteredListInCategory(data: seq<Item>, category: string, sortType: string,
                               leq: (string, string) -> bool)
    ensures forall x :: x in FilteredList(data, category, sortType, leq) ==>
      InCategory(SelectedOr(category, "all"), x)
  {
    var r := FilteredList(data, category, sortType, leq);
    forall x | x in r ensures InCategory(SelectedOr(category, "all"), x) {
      assert x in multiset(r);
    }
  }

  /** The page of `list` that is painted, with its bar. */
  function RenderList(list: seq<Item>, kind: PageType, currentPage: int): View {
    View(GridFor(PageSlice(list, currentPage), kind, currentPage), PaginationBar(|list|, currentPage))
  }

  /** From page 1 on, the placeholder appears exactly when the page starts
      past the end of the list; on page 1 that means the list is empty.
      Page 0 always shows it. The hint depends on the page alone: past
      page 1 it points back, even when no page has items, and otherwise it
      asks for other filters. */
  lemma EmptyStateChoice(list: seq<Item>, kind: PageType, currentPage: int)
    ensures var g := RenderList(list, kind, currentPage).grid;
      && (currentPage >= 1 ==> (g.NoResults? <==> (currentPage - 1) * ItemsPerPage >= |list|))
      && (currentPage == 1 ==> (g.NoResults? <==> list == []))
      && (currentPage == 0 ==> g.NoResults?)
      && (g.NoResults? ==> (g.hint == "Try going back to previous pages" <==> currentPage > 1))
      && (g.NoResults? && currentPage <= 1 ==> g.hint == "Try changing your filters or search terms")
  {
    if currentPage >= 1 && (currentPage - 1) * ItemsPerPage < |list| {
      assert PageSlice(list, currentPage)[0] == list[(currentPage - 1) * ItemsPerPage];
    }
  }

  /** A search that matches nothing paints the placeholder and hides the bar. */
  lemma EmptyResultHidesBar(kind: PageType)
    ensures RenderList([], kind, 1).grid.NoResults?
    ensures RenderList([], kind, 1).bar == Hidden
  {
  }

  /** Nine items: page 1 holds eight, page 2 the ninth, and the bar shows
      two page numbers (the first active) and Next. */
  lemma NineItemsTwoPages(list: seq<Item>)
    requires |list| == 9
    ensures PageSlice(list, 1) == list[..8]
    ensures PageSlice(list, 2) == [list[8]]
    ensures PaginationBar(|list|, 1) == Shown([PageNumber(1, true), PageNumber(2, false), Next])
  {
    assert PageNumbers(1, 2, 1) == [PageNumber(1, true), PageNumber(2, false)];
  }

  /** Twenty items on page 1: Next leads to page 2, which shows items 9 to 16
      and whose bar now starts with Previous. */
  lemma NextFromFirstOfTwenty(list: seq<Item>)
    requires |list| == 20
    ensures Next in PaginationBar(|list|, 1).buttons && Previous !in PaginationBar(|list|, 1).buttons
    ensures ClickTarget(Next, 1) == 2
    ensures PageSlice(list, 2) == list[8..16]
    ensures PaginationBar(|list|, 2).buttons[0] == Previous
  {
  }

  datatype Option<T> = None | Some(value: T)

  /** The record passed to addNewApp / addNewGame. Its own `id`, when it has
      one, overrides the generated one, because it is spread after it. */
  datatype NewItem = NewItem(id: Option<int>, name: string, description: string, category: string)

  /** { id: length + 1, ...data } */
  function WithId(data: NewItem, length: nat): (item: Item)
    ensures item.name == data.name && item.description == data.description
    ensures item.category == data.category
    ensures data.id == None ==> item.id == length + 1
    ensures data.id != None ==> item.id == data.id.value
  {
    Item(if data.id.Some? then data.id.value else length + 1, data.name, data.description, data.category)
  }

  /** The ids 1, 2, ..., n in list order, as in the built-in fallback lists. */
  ghost predicate SequentialIds(items: seq<Item>) {
    forall i :: 0 <= i < |items| ==> items[i].id == i + 1
  }

  /** Appending an item without an id of its own keeps the ids sequential. */
  lemma AppendKeepsSequentialIds(items: seq<Item>, data: NewItem)
    requires SequentialIds(items) && data.id == None
    ensures SequentialIds(items + [WithId(data, |items|)])
    ensures forall i, j :: 0 <= i < j < |items| + 1 ==>
      (items + [WithId(data, |items|)])[i].id != (items + [WithId(data, |items|)])[j].id
  {
  }

  /** populateFeaturedApps: the first three apps. */
  function Featured(apps: seq<Item>): (r: seq<Item>)
    ensures r == apps[..Min(3, |apps|)]
  {
    JsSlice(apps, 0, 3)
  }

  class Catalog {
    var apps: seq<Item>
    var games: seq<Item>
    var currentPage: int

    /** The state once the data has loaded (from the JSON file or from the
        built-in fallback lists): page 1. */
    constructor (apps: seq<Item>, games: seq<Item>)
      ensures this.apps == apps && this.games == games && currentPage == 1
    {
      this.apps := apps;
      this.games := games;
      currentPage := 1;
    }

    /** The list of the page type being shown. */
    function Data(kind: PageType): seq<Item>
      reads this
    {
      if kind == Games then games else apps
    }

    /** Paints the page `currentPage` of `list`. */
    method Render(list: seq<Item>, kind: PageType) returns (v: View)
      ensures v == RenderList(list, kind, currentPage)
      ensures v.grid.Cards? ==> |v.grid.items| <= ItemsPerPage
    {
      var pageItems := PageSlice(list, currentPage);
      var bar := BuildPaginationBar(|list|, currentPage);
      v := View(GridFor(pageItems, kind, currentPage), bar);
    }

    /** populateAppsPage / populateGamesPage: the whole list, unfiltered. */
    method Populate(kind: PageType) returns (v: View)
      ensures v == RenderList(Data(kind), kind, currentPage)
    {
      v := Render(Data(kind), kind);
    }

    /** applyFilters: category stage, then sortData, then the current page.
        The search box plays no part. */
    method ApplyFilters(kind: PageType, category: string, sortType: string, leq: (string, string) -> bool)
      returns (v: View)
      ensures v == RenderList(FilteredList(Data(kind), category, sortType, leq), kind, currentPage)
      ensures v.grid.Cards? ==> forall x :: x in v.grid.items ==> InCategory(SelectedOr(category, "all"), x)
    {
      var selected := SelectedOr(category, "all");
      var filtered := CategoryStage(Data(kind), selected);
      var sorted := SortData(filtered, SelectedOr(sortType, "popular"), leq);
      FilteredListInCategory(Data(kind), category, sortType, leq);
      v := Render(sorted, kind);
    }

    /** The change listeners of the category and sort selectors, and the
        window load listener: back to page 1. */
    method ResetToFirstPage()
      modifies this
      ensures currentPage == 1
      ensures apps == old(apps) && games == old(games)
    {
      currentPage := 1;
    }

    /** performSearch: back to page 1, then the search results of the whole
        list of the page type. Category and sort play no part. */
    method PerformSearch(kind: PageType, raw: string) returns (v: View)
      modifies this
      ensures currentPage == 1
      ensures apps == old(apps) && games == old(games)
      ensures v == RenderList(SearchResults(Data(kind), raw), kind, 1)
    {
      currentPage := 1;
      var results := SearchResults(Data(kind), raw);
      v := Render(results, kind);
    }

    /** The click handler of a pagination button: move to its target page,
        then applyFilters. */
    method ButtonClicked(b: Button, kind: PageType, category: string, sortType: string,
                         leq: (string, string) -> bool)
      returns (v: View)
      modifies this
      ensures currentPage == ClickTarget(b, old(currentPage))
      ensures apps == old(apps) && games == old(games)
      ensures v == RenderList(FilteredList(Data(kind), category, sortType, leq), kind, currentPage)
    {
      match b {
        case Previous => currentPage := currentPage - 1;
        case PageNumber(i, _) => currentPage := i;
        case Next => currentPage := currentPage + 1;
      }
      v := ApplyFilters(kind, category, sortType, leq);
    }

    /** addNewApp: append the app with its id, repaint the apps page at the
        current page number and the featured strip. */
    method AddNewApp(data: NewItem) returns (v: View, featured: seq<Item>)
      modifies this
      ensures apps == old(apps) + [WithId(data, |old(apps)|)]
      ensures games == old(games) && currentPage == old(currentPage)
      ensures v == RenderList(apps, Apps, currentPage)
      ensures featured == Featured(apps)
    {
      apps := apps + [WithId(data, |apps|)];
      v := Populate(Apps);
      featured := Featured(apps);
    }

    /** addNewGame: append the game with its id and repaint the games page. */
    method AddNewGame(data: NewItem) returns (v: View)
      modifies this
      ensures games == old(games) + [WithId(data, |old(games)|)]
      ensures apps == old(apps) && currentPage == old(currentPage)
      ensures v == RenderList(games, Games, currentPage)
    {
      games := games + [WithId(data, |games|)];
      v := Populate(Games);
    }
  }
}

# Catalog list pipeline of the FociStore site, in Dafny

This project models the list pipeline of the FociStore catalog pages
(`script.js`). The site holds two in-memory lists, apps and games, and a
global current page number. Each list is shown as a grid of cards, eight per
page, under a pagination bar. The pipeline stages are:

- the category filter and the three sort modes of `applyFilters`/`sortData`;
- the text search of `performSearch`;
- the page slice of `applyPagination`;
- the button bar of `updatePaginationButtons`;
- the empty-state placeholder of `updateGrid`;
- the handlers that change the page number and re-render;
- appending an app or a game with a generated id.

Around the pipeline sit the contact-form field check (`validateField`,
`isValidEmail`), the page-type and navigation-highlight rules read from the
location path, and the labels of the category drop-down.

Modules:

| file | module | what it holds |
|---|---|---|
| text.dfy | `Text` | JavaScript white space, `trim`, ASCII `toLowerCase`/`toUpperCase`, `indexOf`/`includes`, first-occurrence `replace`, `split('/').pop()` |
| email.dfy | `Email` | the e-mail regular expression, computed and stated declaratively, proved equal |
| validation.dfy | `Validation` | `validateField` as a method updating its verdict and message step by step |
| query.dfy | `Query` | catalog items, `filter`, category stage, search, reverse, stable name sort, category options |
| pagination.dfy | `Pagination` | `slice`, page slice, page count, page-number window, the bar (a specification function and a loop method proved equal to it) |
| navigation.dfy | `Navigation` | page type from the path, the nav-link highlighting rule and the loop over the links |
| catalog.dfy | `Catalog` | the grid, the `Catalog` class (apps, games, current page) and its handlers |

The model follows what the code does. In several places this is less than
a fuller design of the same pipeline would do:

- A page holds 8 items. The comment beside `itemsPerPage` says 6; the constant is 8.
- Nothing clamps the current page. A page past the last one shows the placeholder with the hint "Try going back to previous pages". When the list has more than 8 items its bar shows the last min(5, totalPages) pages, none active; otherwise the bar is hidden.
- The bar has no ellipsis and no first/last shortcuts. Previous and Next are left out, not disabled, at the ends.
- `'popular'` (and any unknown sort key) leaves the list unchanged. `'newest'` reverses it.
- `applyFilters` ignores the search box, and `performSearch` ignores category and sort. The page buttons re-run `applyFilters`. So after a search, moving to another page shows a page of the category-filtered list, not of the search results.
- The current page is an unbounded integer with no invariant. Filter and sort changes set it to 1 and re-render 300 ms later. A Previous click in between lowers it to 0, and page 0 is an empty slice. `slice` is modelled with JavaScript's negative-index rule, so any page number has a defined slice.
- Host-supplied behaviour is passed in as parameters:
  - `localeCompare` is a parameter `leq` on names. The name sort is proved sorted whenever `leq` is a total preorder.
  - The location path is a string parameter.
  - The loaded lists are the constructor's arguments.

## Model

| member | source | states |
|---|---|---|
| `Text.SkipSpace` | script.js:748 | the scan over leading white space stops at the first position that is not white space, or at the end, and skips only white space |
| `Text.BackSpace` | script.js:748 | the scan back over trailing white space stops after the last character that is not white space, never passes its lower bound, and skips only white space |
| `Text.Trim` | script.js:748 | the trimmed value neither starts nor ends with white space, and is empty iff the input is all white space |
| `Text.TrimSlice` | script.js:748 | the input is white space up to some offset, then the trimmed value, then white space: trimming removes white space only |
| `Text.TrimIdempotent` | script.js:1160 | trimming a trimmed value changes nothing |
| `Text.ToLower` | script.js:764-766 | same length; each ASCII upper-case letter becomes its lower-case partner (code point + 32), no upper-case letter is left, every other character is unchanged, white space is preserved |
| `Text.ToLowerIdempotent` | script.js:748 | lower-casing twice is lower-casing once |
| `Text.IndexOf` | script.js:764-766 | -1 iff the pattern occurs nowhere; otherwise the pattern occurs at the result and at no earlier position |
| `Text.Contains` | script.js:764-766 | `includes` holds iff the pattern occurs at some position |
| `Text.ReplaceFirst` | script.js:1246 | a string without the pattern is unchanged; otherwise only the first occurrence is replaced, by the replacement taken literally |
| `Text.LastSegment` | script.js:660 | the result has no '/', is a suffix of the path, and is preceded by '/' when shorter than the path |
| `Text.Capitalize` | script.js:677 | same length; first character upper-cased, the rest untouched |
| `Email.IsValidEmail` | script.js:1222-1225 | an accepted address contains '@' and has at least five characters |
| `Email.ValidEmailMatchesPattern` | script.js:1223 | every accepted address is local@host.tld with three non-empty runs free of white space and '@' |
| `Email.PatternMatchIsValidEmail` | script.js:1223 | every address of that shape is accepted |
| `Email.IsValidEmailMatchesPattern` | script.js:1222-1225 | the check accepts exactly the addresses the regular expression matches |
| `Validation.ValidateField` | script.js:1159-1219 | on the trimmed value: required and empty is invalid with "This field is required"; optional and empty is valid; otherwise name needs 2 characters, subject 5, message 10, email must pass the e-mail check, other fields pass; valid iff no message; each failing rule shows its own message ("Name must be at least 2 characters long", "Please enter a valid email address", "Subject must be at least 5 characters long", "Message must be at least 10 characters long") |
| `Query.Filter` | script.js:689-691 | keeps exactly the accepted elements, each as often as it occurs, as a subsequence of the input |
| `Query.FilterKeepAll` | script.js:689-691 | a filter accepting every element returns the input |
| `Query.CategoryStage` | script.js:689-691 | keeps exactly the items whose category equals the selection (all items for "all"), in their original order |
| `Query.NormalizeQuery` | script.js:748 | the query is no longer than the raw text and has no upper-case ASCII letter |
| `Query.NormalizeQueryTrimmed` | script.js:748 | the query neither starts nor ends with white space |
| `Query.SearchResults` | script.js:747-767 | a query under two characters shows the whole list; otherwise exactly the items whose lower-cased name, description or category contains it, in original order |
| `Query.SearchEmptyIffNoMatch` | script.js:763-767 | a real query yields nothing iff no item matches it |
| `Query.BlankQueryShowsAll` | script.js:755-760 | a query of white space only shows the whole list |
| `Query.SearchIgnoresQueryCase` | script.js:748 | lower-casing the typed query does not change the results |
| `Query.TrimCommutesWithLower` | script.js:748 | trimming and lower-casing commute |
| `Query.ReverseAt` | script.js:711 | the reversed list has the input's length and position k holds the input's item n-1-k |
| `Query.ReverseMultiset` | script.js:711 | reversing keeps the same items |
| `Query.ReverseInvolutive` | script.js:711 | reversing twice gives the list back |
| `Query.InsertByName` | script.js:713 | inserting adds exactly the one item |
| `Query.InsertByNameSorted` | script.js:713 | inserting into a name-sorted list keeps it sorted |
| `Query.SortByName` | script.js:713 | the name sort is a permutation of its input |
| `Query.SortByNameSorted` | script.js:713 | under a total preorder the name sort is non-decreasing by name |
| `Query.SortData` | script.js:708-718 | every mode returns a permutation; 'popular' and unknown keys return the input unchanged |
| `Query.SortDataModes` | script.js:708-718 | 'newest' returns the input reversed; 'name' returns it sorted by name |
| `Query.OptionsFor` | script.js:673-680 | at most one option per category |
| `Query.OptionsForNoAll` | script.js:673-680 | without "all" in the list, one option per category in order, captioned by capitalising it |
| `Query.CategoryOptionsShape` | script.js:666-681 | the drop-down offers each category of the page type once, in order, "All Categories" first, the rest captioned by capitalising the value |
| `Pagination.SliceIndex` | script.js:328 | a slice index resolves into 0..n and a non-negative one is clamped to n |
| `Pagination.JsSlice` | script.js:328 | the slice is no longer than the list and holds only its items; for 0 <= start <= end it is the list between the clamped bounds |
| `Pagination.PageSlice` | script.js:325-329 | any page holds only items of the list; page p >= 1 is exactly `data[(p-1)*8 .. min(n, p*8)]`, at most 8 items, empty once (p-1)*8 >= n; page 0 is empty |
| `Pagination.TotalPages` | script.js:336 | the fewest pages of 8 that hold every item: ceil(n/8) |
| `Pagination.PageItemAt` | script.js:325-329 | item j is on page j/8+1, which exists, at position j%8 |
| `Pagination.PagesUpToIsPrefix` | script.js:325-329 | pages 1..k read in order are the first min(8k, n) items |
| `Pagination.PagesReassemble` | script.js:325-341 | pages 1..totalPages read in order give back the list, nothing repeated or omitted |
| `Pagination.WindowShape` | script.js:359-366 | for 1 <= current <= total: 1 <= start <= current <= end <= total and end-start+1 = min(5, total) |
| `Pagination.WindowCentred` | script.js:359-366 | away from the ends the window is current-2 .. current+2 |
| `Pagination.WindowPastLastPage` | script.js:359-366 | past the last page the window is the last min(5, total) pages |
| `Pagination.PaginationBar` | script.js:332-390 | hidden iff at most 8 items; when shown, Previous present iff current > 1 and Next present iff current < totalPages |
| `Pagination.PageNumbersAt` | script.js:368-377 | the k-th page button is page start+k, active iff it is the current page |
| `Pagination.PageNumbersSnoc` | script.js:368 | one more loop round adds one button at the end |
| `Pagination.PaginationBarLayout` | script.js:346-389 | for an in-range page: Previous (if any), min(5, total) consecutive numbers from a start at or before the current page, Next (if any); exactly the current page's button is active |
| `Pagination.ClickTarget` | script.js:350-387 | Previous moves to current-1, a number to itself, Next to current+1 |
| `Pagination.ClickStaysInRange` | script.js:346-389 | every button of a bar drawn for an in-range page leads to an in-range page |
| `Pagination.BuildPaginationBar` | script.js:332-390 | the loop-built bar equals the specified bar |
| `Navigation.PageTypeOf` | script.js:659-664 | games iff the last path segment contains "games"; apps otherwise |
| `Navigation.LastSegmentAfterSlash` | script.js:660 | the segment after the last '/' is what `split('/').pop()` returns |
| `Navigation.PageTypeIgnoresDirectory` | script.js:659-664 | the directories of the path do not affect the page type |
| `Navigation.NavPage` | script.js:1229 | never empty; the last segment when that is non-empty, and "index.html" when the path ends in '/' or is empty |
| `Navigation.HomeLinkActiveOnlyAtHome` | script.js:1237-1248 | the home link is highlighted exactly on the home page |
| `Navigation.OwnLinkActive` | script.js:1241-1243 | a link to the current page is highlighted |
| `Navigation.StemOfHtml` | script.js:1246 | `replace('.html', '')` on "stem.html" gives back the stem when the stem has no '.' |
| `Navigation.StemMatchActive` | script.js:1245-1248 | the partial rule highlights a link "stem.html" other than the home link on every page whose name contains the stem ("apps.html" on "apps-detail.html") |
| `Navigation.BareHtmlLinkAlwaysActive` | script.js:1245-1248 | a link whose href is exactly ".html" is highlighted on every page, since the replace leaves the empty string |
| `Navigation.LinkActive` | script.js:1233-1248 | the if/else-if chain for one link gives it the active class exactly when the highlighting rule holds |
| `Navigation.ActiveFlagsAt` | script.js:1232-1249 | the decisions for a list of links are one per link, each by the rule alone |
| `Navigation.MarkActiveLinks` | script.js:1228-1250 | the loop makes one decision per link, in order, each by the highlighting rule for the page read from the path |
| `Catalog.GridFor` | script.js:393-417 | cards iff the page has items, and then exactly those items |
| `Catalog.SelectedOr` | script.js:684-685 | an empty selector value gives the default; a non-empty one is kept |
| `Catalog.FilteredList` | script.js:683-694 | applyFilters' list holds exactly the category stage's items; with "all" (or nothing) selected, every item |
| `Catalog.FilteredListInCategory` | script.js:683-694 | every item applyFilters keeps belongs to the selected category |
| `Catalog.EmptyStateChoice` | script.js:398-408 | from page 1 on, the placeholder appears iff the page starts past the end, on page 1 iff the list is empty; page 0 always shows it; its hint points back iff the page is past 1, even when no page has items, and otherwise asks for other filters |
| `Catalog.EmptyResultHidesBar` | script.js:336-341 | an empty result paints the placeholder and hides the bar |
| `Catalog.NineItemsTwoPages` | script.js:325-377 | nine items: eight on page 1, one on page 2, buttons 1 (active), 2 and Next |
| `Catalog.NextFromFirstOfTwenty` | script.js:379-389 | twenty items on page 1: Next but no Previous; Next leads to page 2, items 9-16, whose bar starts with Previous |
| `Catalog.WithId` | script.js:1569-1572 | the new item keeps the given fields; its id is length+1 unless the data carries its own |
| `Catalog.AppendKeepsSequentialIds` | script.js:1568-1573 | appending an item without its own id keeps ids 1..n sequential and distinct |
| `Catalog.Featured` | script.js:307 | the featured strip is the first three apps |
| `Catalog.Catalog.constructor` | script.js:34-43 | after loading, the lists are the loaded ones and the page is 1 |
| `Catalog.Catalog.Render` | script.js:697-703 | paints the current page of the list with its bar; at most 8 cards |
| `Catalog.Catalog.Populate` | script.js:274-299 | paints the current page of the whole, unfiltered list |
| `Catalog.Catalog.ApplyFilters` | script.js:683-706 | paints the current page of the category-filtered, sorted list; every card is in the selected category |
| `Catalog.Catalog.ResetToFirstPage` | script.js:645-654 | page 1, lists unchanged |
| `Catalog.Catalog.PerformSearch` | script.js:747-774 | page 1, lists unchanged, and page 1 of the search results is painted |
| `Catalog.Catalog.ButtonClicked` | script.js:350-387 | the page becomes the button's target, then applyFilters repaints |
| `Catalog.Catalog.AddNewApp` | script.js:1568-1580 | the apps list gains exactly the new item at its end; the unfiltered apps page and the first three apps are repainted |
| `Catalog.Catalog.AddNewGame` | script.js:1583-1594 | the games list gains exactly the new item at its end; the unfiltered games page is repainted |

## Left out

- Card, featured-item and modal markup, the injected style block, and all painting. The model stops at which items and which buttons are shown.
- Loading `apps.json` and the built-in fallback lists. The loaded lists are the constructor's arguments.
- The contact-form POST, the download-progress simulation, counters, scroll effects, ripples, page transitions, the FAQ, modals, notifications and lazy images. These are network I/O or timer- and float-driven display code.
- `debounce` and the 300/500 ms delays. The reset to page 1 and the deferred re-render are separate calls (`ResetToFirstPage`, then `ApplyFilters`), and any interleaving of them can be expressed.
- The "Showing page X of Y" and "Found N results" notifications.
- Whether a grid, pagination or filter element exists on the page. The model always renders.
- The Firebase sign-in wrapper (login-firebase.js), a thin layer over a hosted SDK.
- Text.ToLower: only ASCII letters are mapped. JavaScript also maps other Unicode letters.
- Text.Capitalize: only ASCII letters are mapped, for the same reason.
- Text.ReplaceFirst: the replacement is inserted literally. JavaScript also expands `$&`, `$$`, `` $` `` and `$'` in it, but the only replacement used is the empty string.
- String lengths count code points. JavaScript counts UTF-16 code units, which differ only for characters outside the Basic Multilingual Plane.
- Query.SortByName: `localeCompare` is abstract, and the sort is proved sorted and a permutation but not stable. The insertion it uses keeps ties in input order, as JavaScript's stable sort does, but no lemma states it.
- Catalog.Catalog.PerformSearch: the search box is taken to be present. A missing box gives an undefined query and shows the whole list, the same as a short query.

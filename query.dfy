/** The query stages of the catalog pipeline: the category filter of
    applyFilters, the text search of performSearch, the three sort modes of
    sortData, and the option list of the category drop-down. */
module Query {
  import opened Text

  /** One catalog entry, reduced to the fields the pipeline reads. */
  datatype Item = Item(id: int, name: string, description: string, category: string)

  datatype PageType = Apps | Games

  /** `r` is `s` with some elements left out, the rest in their original order. */
  ghost predicate IsSubsequence<T>(r: seq<T>, s: seq<T>)
    decreases |s|
  {
    if r == [] then true
    else if s == [] then false
    else (r[0] == s[0] && IsSubsequence(r[1..], s[1..])) || IsSubsequence(r, s[1..])
  }

  /** Array.prototype.filter: keeps, in order, every element `keep` accepts,
      each as often as it occurs, and nothing else. */
  function Filter<T(!new)>(s: seq<T>, keep: T -> bool): (r: seq<T>)
    ensures |r| <= |s|
    ensures forall x :: x in r ==> x in s && keep(x)
    ensures forall x :: multiset(r)[x] == if keep(x) then multiset(s)[x] else 0
    ensures IsSubsequence(r, s)
  {
    if s == [] then []
    else
      var rest := Filter(s[1..], keep);
      assert s == [s[0]] + s[1..];
      assert multiset(s) == multiset([s[0]]) + multiset(s[1..]);
      if keep(s[0]) then
        var r := [s[0]] + rest;
        assert r[1..] == rest;
        r
      else
        rest
  }

  /** A filter that accepts everything returns its input. */
  lemma {:induction false} FilterKeepAll<T(!new)>(s: seq<T>, keep: T -> bool)
    requires forall x :: x in s ==> keep(x)
    ensures Filter(s, keep) == s
  {
    if s != [] {
      FilterKeepAll(s[1..], keep);
    }
  }

  /** The category stage of applyFilters: an item passes when the selection
      is "all" or its category equals the selection exactly. */
  predicate InCategory(category: string, item: Item) {
    category == "all" || item.category == category
  }

  function CategoryStage(data: seq<Item>, category: string): (r: seq<Item>)
    ensures forall x :: multiset(r)[x] == if InCategory(category, x) then multiset(data)[x] else 0
    ensures IsSubsequence(r, data)
    ensures category == "all" ==> r == data
  {
    var r := Filter(data, x => InCategory(category, x));
    if category == "all" then FilterKeepAll(data, x => InCategory(category, x)); r else r
  }

  /** The query performSearch filters with: trimmed, then lower-cased. */
  function NormalizeQuery(raw: string): (q: string)
    ensures |q| <= |raw|
    ensures forall i :: 0 <= i < |q| ==> !('A' <= q[i] <= 'Z')
  {
    ToLower(Trim(raw))
  }

  /** The normalised query neither starts nor ends with white space. */
  lemma NormalizeQueryTrimmed(raw: string)
    ensures var q := NormalizeQuery(raw);
      q == [] || (!IsSpace(q[0]) && !IsSpace(q[|q| - 1]))
  {
    var t := Trim(raw);
    EndsKeepSpace(t, ToLower(t));
  }

  /** An item matches when its lower-cased name, description or category
      contains the query. */
  predicate MatchesQuery(query: string, item: Item) {
    || Contains(ToLower(item.name), query)
    || Contains(ToLower(item.description), query)
    || Contains(ToLower(item.category), query)
  }

  /** The list performSearch shows: everything when the normalised query is
      shorter than two characters, otherwise exactly the matching items, in
      their original order. */
  function SearchResults(data: seq<Item>, raw: string): (r: seq<Item>)
    ensures |NormalizeQuery(raw)| < 2 ==> r == data
    ensures |NormalizeQuery(raw)| >= 2 ==>
      && IsSubsequence(r, data)
      && forall x :: multiset(r)[x] == if MatchesQuery(NormalizeQuery(raw), x) then multiset(data)[x] else 0
  {
    var q := NormalizeQuery(raw);
    if |q| < 2 then data else Filter(data, x => MatchesQuery(q, x))
  }

  /** A real query (two characters or more) gives an empty result exactly
      when no item of the list matches it. */
  lemma SearchEmptyIffNoMatch(data: seq<Item>, raw: string)
    requires |NormalizeQuery(raw)| >= 2
    ensures SearchResults(data, raw) == [] <==> forall x :: x in data ==> !MatchesQuery(NormalizeQuery(raw), x)
  {
    var q := NormalizeQuery(raw);
    var r := SearchResults(data, raw);
    if r != [] {
      assert multiset(r)[r[0]] > 0;
    }
    if r == [] {
      forall x | x in data ensures !MatchesQuery(q, x) {
        assert multiset(data)[x] > 0;
      }
    }
  }

  /** A query that is only white space shows the whole list. */
  lemma BlankQueryShowsAll(data: seq<Item>, raw: string)
    requires AllSpace(raw)
    ensures SearchResults(data, raw) == data
  {
  }

  /** Upper and lower case in the query make no difference. */
  lemma SearchIgnoresQueryCase(data: seq<Item>, raw: string)
    ensures SearchResults(data, ToLower(raw)) == SearchResults(data, raw)
  {
    assert Trim(ToLower(raw)) == ToLower(Trim(raw)) by {
      TrimCommutesWithLower(raw);
    }
    ToLowerIdempotent(Trim(raw));
  }

  /** The forward scan stops at the same place in two strings with white
      space at the same positions. */
  lemma {:induction false} SkipSpaceAgrees(s: string, u: string, i: nat)
    requires |s| == |u| && forall k :: 0 <= k < |s| ==> IsSpace(u[k]) == IsSpace(s[k])
    requires i <= |s|
    ensures SkipSpace(u, i) == SkipSpace(s, i)
    decreases |s| - i
  {
    if i < |s| && IsSpace(s[i]) {
      SkipSpaceAgrees(s, u, i + 1);
    }
  }

  /** So does the backward scan. */
  lemma {:induction false} BackSpaceAgrees(s: string, u: string, lo: nat, j: nat)
    requires |s| == |u| && forall k :: 0 <= k < |s| ==> IsSpace(u[k]) == IsSpace(s[k])
    requires lo <= j <= |s|
    ensures BackSpace(u, lo, j) == BackSpace(s, lo, j)
    decreases j
  {
    if lo < j && IsSpace(s[j - 1]) {
      BackSpaceAgrees(s, u, lo, j - 1);
    }
  }

  lemma TrimCommutesWithLower(s: string)
    ensures Trim(ToLower(s)) == ToLower(Trim(s))
  {
    var u := ToLower(s);
    SkipSpaceAgrees(s, u, 0);
    var a := SkipSpace(s, 0);
    BackSpaceAgrees(s, u, a, |s|);
    var b := BackSpace(s, a, |s|);
    assert Trim(u) == u[a..b];
    LowerSlice(s, a, b);
  }

  /** Lower-casing a slice is slicing the lower-cased string. */
  lemma LowerSlice(s: string, a: nat, b: nat)
    requires a <= b <= |s|
    ensures ToLower(s)[a..b] == ToLower(s[a..b])
  {
    forall i | 0 <= i < b - a ensures ToLower(s)[a..b][i] == ToLower(s[a..b])[i] {
      assert ToLower(s)[a + i] == LowerChar(s[a + i]);
    }
  }

  /** [...data].reverse() */
  function Reverse<T>(s: seq<T>): (r: seq<T>)
  {
    if s == [] then [] else Reverse(s[1..]) + [s[0]]
  }

  lemma {:induction false} ReverseAt<T>(s: seq<T>, k: int)
    requires 0 <= k < |s|
    ensures |Reverse(s)| == |s| && Reverse(s)[k] == s[|s| - 1 - k]
  {
    ReverseLength(s);
    if k < |s| - 1 {
      ReverseAt(s[1..], k);
    }
  }

  lemma {:induction false} ReverseLength<T>(s: seq<T>)
    ensures |Reverse(s)| == |s|
  {
    if s != [] {
      ReverseLength(s[1..]);
    }
  }

  lemma {:induction false} ReverseMultiset<T>(s: seq<T>)
    ensures multiset(Reverse(s)) == multiset(s)
  {
    if s != [] {
      ReverseMultiset(s[1..]);
      assert s == [s[0]] + s[1..];
    }
  }

  /** Reversing twice gives the list back. */
  lemma ReverseInvolutive<T>(s: seq<T>)
    ensures Reverse(Reverse(s)) == s
  {
    ReverseLength(s);
    ReverseLength(Reverse(s));
    forall k | 0 <= k < |s| ensures Reverse(Reverse(s))[k] == s[k] {
      ReverseAt(Reverse(s), k);
      ReverseAt(s, |s| - 1 - k);
    }
  }

  /** localeCompare is supplied by the host; the model asks of it only that
      it orders names as a total preorder (ties allowed). */
  ghost predicate TotalPreorder(leq: (string, string) -> bool) {
    && (forall a, b :: leq(a, b) || leq(b, a))
    && (forall a, b, c :: leq(a, b) && leq(b, c) ==> leq(a, c))
  }

  ghost predicate SortedByName(s: seq<Item>, leq: (string, string) -> bool) {
    forall i, j :: 0 <= i < j < |s| ==> leq(s[i].name, s[j].name)
  }

  /** Places `x` before the first item it does not follow, so that it stays
      ahead of the items it ties with. */
  function InsertByName(x: Item, s: seq<Item>, leq: (string, string) -> bool): (r: seq<Item>)
    ensures multiset(r) == multiset(s) + multiset{x}
  {
    if s == [] then [x]
    else if leq(x.name, s[0].name) then [x] + s
    else
      assert s == [s[0]] + s[1..];
      [s[0]] + InsertByName(x, s[1..], leq)
  }

  /** [...data].sort((a, b) => a.name.localeCompare(b.name)), as a stable
      insertion sort. */
  function SortByName(s: seq<Item>, leq: (string, string) -> bool): (r: seq<Item>)
    ensures multiset(r) == multiset(s)
  {
    if s == [] then []
    else
      assert s == [s[0]] + s[1..];
      InsertByName(s[0], SortByName(s[1..], leq), leq)
  }

  /** An item that precedes every item of a sorted list can go in front. */
  lemma ConsSorted(h: Item, rest: seq<Item>, leq: (string, string) -> bool)
    requires SortedByName(rest, leq)
    requires forall y :: y in rest ==> leq(h.name, y.name)
    ensures SortedByName([h] + rest, leq)
  {
    var r := [h] + rest;
    forall i, j | 0 <= i < j < |r| ensures leq(r[i].name, r[j].name) {
      if i == 0 {
        assert r[j] == rest[j - 1];
      } else {
        assert r[i] == rest[i - 1] && r[j] == rest[j - 1];
      }
    }
  }

  lemma {:induction false} InsertByNameSorted(x: Item, s: seq<Item>, leq: (string, string) -> bool)
    requires TotalPreorder(leq) && SortedByName(s, leq)
    ensures SortedByName(InsertByName(x, s, leq), leq)
  {
    if s == [] {
    } else if leq(x.name, s[0].name) {
      forall y | y in s ensures leq(x.name, y.name) {
        var j :| 0 <= j < |s| && s[j] == y;
        if j > 0 {
          assert leq(s[0].name, s[j].name);
        }
      }
      ConsSorted(x, s, leq);
    } else {
      var rest := InsertByName(x, s[1..], leq);
      InsertByNameSorted(x, s[1..], leq);
      forall y | y in rest ensures leq(s[0].name, y.name) {
        assert y in multiset(rest);
        if y != x {
          assert y in s[1..];
        }
      }
      ConsSorted(s[0], rest, leq);
    }
  }

  /** The 'name' sort returns the items in non-decreasing name order. */
  lemma {:induction false} SortByNameSorted(s: seq<Item>, leq: (string, string) -> bool)
    requires TotalPreorder(leq)
    ensures SortedByName(SortByName(s, leq), leq)
  {
    if s != [] {
      SortByNameSorted(s[1..], leq);
      InsertByNameSorted(s[0], SortByName(s[1..], leq), leq);
    }
  }

  /** sortData: 'newest' reverses, 'name' sorts by name, and 'popular' or
      any other key leaves the list as it is. */
  function SortData(data: seq<Item>, sortType: string, leq: (string, string) -> bool): (r: seq<Item>)
    ensures multiset(r) == multiset(data)
    ensures sortType != "newest" && sortType != "name" ==> r == data
  {
    match sortType
    case "newest" => ReverseMultiset(data); Reverse(data)
    case "name" => SortByName(data, leq)
    case _ => data
  }

  /** What each sort mode promises about its output. */
  lemma SortDataModes(data: seq<Item>, sortType: string, leq: (string, string) -> bool)
    ensures sortType == "newest" ==>
      var r := SortData(data, sortType, leq);
      |r| == |data| && forall k :: 0 <= k < |data| ==> r[k] == data[|data| - 1 - k]
    ensures sortType == "name" && TotalPreorder(leq) ==> SortedByName(SortData(data, sortType, leq), leq)
  {
    if sortType == "newest" {
      ReverseLength(data);
      forall k | 0 <= k < |data| ensures Reverse(data)[k] == data[|data| - 1 - k] {
        ReverseAt(data, k);
      }
    }
    if sortType == "name" && TotalPreorder(leq) {
      SortByNameSorted(data, leq);
    }
  }

  /** The category values offered for a page type, "all" first. */
  function Categories(kind: PageType): seq<string> {
    if kind == Games then ["all", "action", "adventure", "puzzle", "racing", "sports"]
    else ["all", "social", "media", "productivity", "tools"]
  }

  datatype FilterOption = FilterOption(value: string, caption: string)

  function OptionsFor(categories: seq<string>): (r: seq<FilterOption>)
    ensures |r| <= |categories|
  {
    if categories == [] then []
    else if categories[0] == "all" then OptionsFor(categories[1..])
    else [FilterOption(categories[0], Capitalize(categories[0]))] + OptionsFor(categories[1..])
  }

  /** populateCategoryFilter: the "All Categories" option, then one option
      per category other than "all", labelled with its capitalised value. */
  function CategoryOptions(kind: PageType): (r: seq<FilterOption>)
  {
    [FilterOption("all", "All Categories")] + OptionsFor(Categories(kind))
  }

  /** The drop-down offers each category of the page type exactly once, in
      order, "all" first, and labels every other one by capitalising it. */
  lemma CategoryOptionsShape(kind: PageType)
    ensures var r := CategoryOptions(kind);
      && |r| == |Categories(kind)|
      && (forall i :: 0 <= i < |r| ==> r[i].value == Categories(kind)[i])
      && r[0].caption == "All Categories"
      && (forall i :: 1 <= i < |r| ==> r[i].caption == Capitalize(r[i].value))
  {
    var cs := Categories(kind);
    forall i | 1 <= i < |cs| ensures cs[i] != "all" {
      assert cs[i][0] != 'a' || cs[i][1] != 'l';
    }
    OptionsAfterAll(cs);
  }

  /** A category list that starts with "all" and does not repeat it. */
  lemma OptionsAfterAll(cs: seq<string>)
    requires |cs| > 0 && cs[0] == "all"
    requires forall i :: 1 <= i < |cs| ==> cs[i] != "all"
    ensures var r := [FilterOption("all", "All Categories")] + OptionsFor(cs);
      && |r| == |cs|
      && (forall i :: 0 <= i < |r| ==> r[i].value == cs[i])
      && r[0].caption == "All Categories"
      && (forall i :: 1 <= i < |r| ==> r[i].caption == Capitalize(r[i].value))
  {
    assert OptionsFor(cs) == OptionsFor(cs[1..]);
    OptionsForNoAll(cs[1..]);
  }

  lemma {:induction false} OptionsForNoAll(cs: seq<string>)
    requires forall i :: 0 <= i < |cs| ==> cs[i] != "all"
    ensures var r := OptionsFor(cs);
      && |r| == |cs|
      && forall i :: 0 <= i < |r| ==> r[i] == FilterOption(cs[i], Capitalize(cs[i]))
  {
    if cs != [] {
      OptionsForNoAll(cs[1..]);
    }
  }
}

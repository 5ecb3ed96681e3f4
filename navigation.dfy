/** Reading the current page from the location path: which catalog a page
    shows (getCurrentPageType) and which navigation links are highlighted
    (initializeNavigation). */
module Navigation {
  import opened Text
  import opened Query

  /** getCurrentPageType: "games" in the last path segment selects the
      games catalog; anything else (including "apps") selects the apps one. */
  function PageTypeOf(path: string): (kind: PageType)
    ensures kind == Games <==> Contains(LastSegment(path), "games")
  {
    var page := LastSegment(path);
    if Contains(page, "games") then Games
    else if Contains(page, "apps") then Apps
    else Apps
  }

  /** The segment after the last '/' is all that is read. */
  lemma LastSegmentAfterSlash(dir: string, seg: string)
    requires '/' !in seg
    ensures LastSegment(dir + "/" + seg) == seg
    ensures LastSegment(seg) == seg
  {
    var path := dir + "/" + seg;
    assert path[|dir|] == '/';
    assert path[|path| - |seg|..] == seg;
  }

  /** Only the last path segment decides the page type: a page under a
      "games" directory is not thereby a games page. */
  lemma PageTypeIgnoresDirectory(dir: string, seg: string)
    requires '/' !in seg
    ensures PageTypeOf(dir + "/" + seg) == PageTypeOf(seg)
  {
    LastSegmentAfterSlash(dir, seg);
  }

  /** The page name initializeNavigation compares links with: the last path
      segment, or "index.html" when that is empty. */
  function NavPage(path: string): (page: string)
    ensures page != []
    ensures LastSegment(path) != [] ==> page == LastSegment(path)
    ensures LastSegment(path) == [] ==> page == "index.html"
  {
    var page := LastSegment(path);
    if page == [] then "index.html" else page
  }

  /** The highlighting rule for one link: the home link on the home page, a
      link to the current page, or a link (other than home) whose href
      without its first ".html" occurs in the page name. */
  predicate IsActiveLink(page: string, href: string) {
    || ((page == "" || page == "index.html") && href == "index.html")
    || href == page
    || (Contains(page, ReplaceFirst(href, ".html", "")) && href != "index.html")
  }

  /** The home link is highlighted exactly on the home page. */
  lemma HomeLinkActiveOnlyAtHome(path: string)
    ensures IsActiveLink(NavPage(path), "index.html") <==> NavPage(path) == "index.html"
  {
  }

  /** A link to the current page is always highlighted. */
  lemma OwnLinkActive(path: string)
    ensures IsActiveLink(NavPage(path), NavPage(path))
  {
  }

  /** Dropping ".html" from "stem.html" leaves the stem, when the stem has
      no '.' of its own. */
  lemma StemOfHtml(stem: string)
    requires '.' !in stem
    ensures ReplaceFirst(stem + ".html", ".html", "") == stem
  {
    var href := stem + ".html";
    assert OccursAt(href, ".html", |stem|) by {
      assert href[|stem|..|stem| + 5] == ".html";
    }
    forall i | 0 <= i < |stem| ensures !OccursAt(href, ".html", i) {
      assert href[i..i + 5][0] == stem[i];
    }
    assert href[..|stem|] == stem;
  }

  /** The partial rule: a link "stem.html" (other than the home link) is
      highlighted on every page whose name contains the stem, such as
      "apps.html" on "apps-detail.html". */
  lemma StemMatchActive(page: string, stem: string)
    requires '.' !in stem && stem + ".html" != "index.html"
    requires Contains(page, stem)
    ensures IsActiveLink(page, stem + ".html")
  {
    StemOfHtml(stem);
  }

  /** A link whose href is exactly ".html" loses its whole href to the
      replace, and every page name contains the empty string: such a link
      is highlighted on every page. */
  lemma BareHtmlLinkAlwaysActive(page: string)
    ensures IsActiveLink(page, ".html")
  {
    ContainsEmpty(page);
    StemMatchActive(page, "");
  }

  /** The body of the forEach in initializeNavigation: whether the link
      receives the `active` class. */
  method LinkActive(page: string, linkHref: string) returns (on: bool)
    ensures on == IsActiveLink(page, linkHref)
  {
    on := false;
    if (page == "" || page == "index.html") && linkHref == "index.html" {
      on := true;
    } else if linkHref == page {
      on := true;
    } else if Contains(page, ReplaceFirst(linkHref, ".html", "")) && linkHref != "index.html" {
      on := true;
    }
  }

  /** The highlight decisions for a list of links, in order. */
  function ActiveFlags(page: string, hrefs: seq<string>): seq<bool> {
    if hrefs == [] then []
    else ActiveFlags(page, hrefs[..|hrefs| - 1]) + [IsActiveLink(page, hrefs[|hrefs| - 1])]
  }

  /** One decision per link, each made by the highlighting rule alone. */
  lemma {:induction false} ActiveFlagsAt(page: string, hrefs: seq<string>)
    ensures |ActiveFlags(page, hrefs)| == |hrefs|
    ensures forall i :: 0 <= i < |hrefs| ==> ActiveFlags(page, hrefs)[i] == IsActiveLink(page, hrefs[i])
  {
    if hrefs != [] {
      var init := hrefs[..|hrefs| - 1];
      ActiveFlagsAt(page, init);
      assert forall i :: 0 <= i < |init| ==> init[i] == hrefs[i];
    }
  }

  /** initializeNavigation: one highlight decision per link, in order. */
  method MarkActiveLinks(path: string, hrefs: seq<string>) returns (active: seq<bool>)
    ensures active == ActiveFlags(NavPage(path), hrefs)
    ensures |active| == |hrefs|
    ensures forall i :: 0 <= i < |hrefs| ==> active[i] == IsActiveLink(NavPage(path), hrefs[i])
  {
    var page := NavPage(path);
    active := [];
    for i := 0 to |hrefs|
      invariant active == ActiveFlags(page, hrefs[..i])
    {
      var on := LinkActive(page, hrefs[i]);
      assert hrefs[..i + 1][..i] == hrefs[..i];
      active := active + [on];
    }
    assert hrefs[..|hrefs|] == hrefs;
    ActiveFlagsAt(page, hrefs);
  }
}

/**
 The path and link rules of `SmoothScrollManager` and `ActiveMenuManager`:
 which page is the homepage, how in-page anchors are rewritten on other
 pages, which in-page links the smooth scroll takes over, and which nav
 links are marked as the current page.
 */
module PageLinks {
  import opened Options
  import opened JsText

  /** The homepage test on `location.pathname`: the site root, or a page named `index.html` in any directory. */
  predicate IsHomepage(path: string)
    ensures IsHomepage(path) <==> path == "/" || exists dir :: path == dir + "/index.html"
  {
    IndexPageSuffix(path);
    path == "/" || EndsWith(path, "/index.html")
  }

  /** Ending in "/index.html" is being some directory followed by "/index.html". */
  lemma IndexPageSuffix(path: string)
    ensures EndsWith(path, "/index.html") <==> exists dir :: path == dir + "/index.html"
  {
    if EndsWith(path, "/index.html") {
      var dir := path[..|path| - |"/index.html"|];
      assert path == dir + "/index.html";
    }
    if dir :| path == dir + "/index.html" {
      assert path[|path| - |"/index.html"|..] == "/index.html";
    }
  }

  /** Any page named `index.html` counts as the homepage, whatever directory it sits in. */
  lemma AnyIndexPageIsHomepage(dir: string)
    ensures IsHomepage(dir + "/index.html")
  {
    var p := dir + "/index.html";
    assert p[|p| - |"/index.html"|..] == "/index.html";
  }

  /** An href naming a section of the page: it starts with '#' and is neither "#" nor "#!". */
  predicate IsSectionHref(href: string) {
    StartsWith(href, "#") && href != "#" && href != "#!"
  }

  /**
   The rewrite of a link whose href starts with '#': away from the homepage a
   section link is made to point at the homepage's section; every other href
   is kept.
   */
  function RewriteAnchor(onHomepage: bool, href: string): (r: string)
    ensures r == href || r == "/" + href
    ensures r != href <==> !onHomepage && IsSectionHref(href)
  {
    if !onHomepage && IsSectionHref(href) then "/" + href else href
  }

  /** The original href can be read back from the rewritten one, so no two section links are merged. */
  lemma RewriteReversible(onHomepage: bool, href: string)
    ensures var r := RewriteAnchor(onHomepage, href);
            r == href || (|r| > 0 && r[0] == '/' && r[1..] == href)
  {
  }

  /** Rewriting is idempotent: a rewritten href starts with '/', never with '#'. */
  lemma RewriteIdempotent(onHomepage: bool, href: string)
    ensures RewriteAnchor(onHomepage, RewriteAnchor(onHomepage, href)) == RewriteAnchor(onHomepage, href)
  {
    var r := RewriteAnchor(onHomepage, href);
    if r != href {
      assert r[0] == '/';
    }
  }

  /** The element id the smooth-scroll click listener looks up for a clicked link's href, if it handles it at all. */
  function ScrollTarget(href: Option<string>): (r: Option<string>)
    ensures r.Some? <==> href.Some? && IsSectionHref(href.value)
    ensures r.Some? ==> href.value == "#" + r.value
  {
    if href.Some? && IsSectionHref(href.value) then Some(href.value[1..]) else None
  }

  /**
   The element the smooth scroll actually scrolls to, given the ids present on
   the page: the click is taken over only when the looked-up element exists;
   otherwise the browser follows the link as usual.
   */
  function ScrollsTo(href: Option<string>, pageIds: set<string>): (r: Option<string>)
    ensures r.Some? <==> href.Some? && IsSectionHref(href.value) && href.value[1..] in pageIds
    ensures r.Some? ==> r == ScrollTarget(href)
  {
    var t := ScrollTarget(href);
    if t.Some? && t.value in pageIds then t else None
  }

  /** Away from the homepage the smooth scroll never takes over a link rewritten at start-up, whatever ids the page has. */
  lemma RewrittenLinksNotScrolled(href: string, pageIds: set<string>)
    requires StartsWith(href, "#")
    ensures ScrollsTo(Some(RewriteAnchor(false, href)), pageIds) == None
  {
    var r := RewriteAnchor(false, href);
    if r != href {
      assert r[0] == '/';
    }
  }

  /** On the homepage every section link is left as it is and, when its target exists, is scrolled to. */
  lemma HomepageSectionLinksScrolled(href: string, pageIds: set<string>)
    requires IsSectionHref(href) && href[1..] in pageIds
    ensures ScrollsTo(Some(RewriteAnchor(true, href)), pageIds) == Some(href[1..])
  {
  }

  /** The hrefs that stand for the homepage. */
  predicate IsHomeHref(href: string) {
    href == "/" || href == "./index.html" || href == "index.html"
  }

  /** The test that marks a nav link as the current page; `None` is a link without an href attribute. */
  predicate IsActiveLink(path: string, href: Option<string>)
    ensures IsActiveLink(path, href) ==> href.Some? && href.value != ""
    ensures IsActiveLink(path, href) && !IsHomepage(path) ==> EndsWith(path, href.value)
  {
    || (IsHomepage(path) && href.Some? && IsHomeHref(href.value))
    || (href.Some? && href.value != "" && EndsWith(path, href.value))
  }

  /** A nav link: its href, its `aria-current` attribute and whether it has the `active` class. */
  datatype NavLink = NavLink(href: Option<string>, ariaCurrent: Option<string>, active: bool)

  /** The marks `updateActiveState` leaves on one link: both removed, then both set when the link matches. */
  function MarkLink(path: string, link: NavLink): (r: NavLink)
    ensures r.href == link.href
    ensures r.active <==> IsActiveLink(path, link.href)
    ensures r.ariaCurrent == (if r.active then Some("page") else None)
  {
    var cleared := link.(ariaCurrent := None, active := false);
    if IsActiveLink(path, link.href) then cleared.(ariaCurrent := Some("page"), active := true) else cleared
  }

  /**
   `updateActiveState` on all nav links: each keeps its href; it is active,
   with `aria-current="page"`, exactly when it matches the path; every other
   link carries neither mark.
   */
  function UpdateActiveState(path: string, links: seq<NavLink>): (r: seq<NavLink>)
    ensures |r| == |links|
    ensures forall k | 0 <= k < |links| :: r[k].href == links[k].href
    ensures forall k | 0 <= k < |links| :: r[k].active <==> IsActiveLink(path, links[k].href)
    ensures forall k | 0 <= k < |links| :: r[k].ariaCurrent == (if r[k].active then Some("page") else None)
  {
    seq(|links|, k requires 0 <= k < |links| => MarkLink(path, links[k]))
  }

  /** The outcome depends on the hrefs only: whatever marks the links carried before is forgotten. */
  lemma UpdateForgetsPriorMarks(path: string, a: seq<NavLink>, b: seq<NavLink>)
    requires |a| == |b|
    requires forall k | 0 <= k < |a| :: a[k].href == b[k].href
    ensures UpdateActiveState(path, a) == UpdateActiveState(path, b)
  {
    var ra := UpdateActiveState(path, a);
    var rb := UpdateActiveState(path, b);
    assert forall k | 0 <= k < |a| :: ra[k] == rb[k];
  }

  /** Running the update again changes nothing. */
  lemma UpdateIdempotent(path: string, links: seq<NavLink>)
    ensures UpdateActiveState(path, UpdateActiveState(path, links)) == UpdateActiveState(path, links)
  {
    UpdateForgetsPriorMarks(path, UpdateActiveState(path, links), links);
  }

  /** On the homepage the links to it are active, whichever of the three spellings they use. */
  lemma HomeLinksActiveOnHomepage(path: string, href: string)
    requires IsHomepage(path) && IsHomeHref(href)
    ensures IsActiveLink(path, Some(href))
  {
  }

  /** The suffix test also marks the "/" link active on every path that ends in '/', not only on the homepage. */
  lemma RootLinkActiveOnDirectoryPaths(path: string)
    requires EndsWith(path, "/")
    ensures IsActiveLink(path, Some("/"))
  {
  }

  /** A link without an href, or with an empty one, is never marked. */
  lemma EmptyHrefNeverActive(path: string, href: Option<string>)
    requires href == None || href == Some("")
    ensures !IsActiveLink(path, href)
  {
  }
}

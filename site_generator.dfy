/**
 * The registry website's static site generator
 * (wally-registry-frontend/generator.js): the crawl over routes that
 * renders each page once, following the links each rendered page
 * contains, and records a sitemap. Rendering a route (React, JSDOM,
 * Parcel) is a parameter that yields the page's HTML and the `href` of
 * each of its links.
 */
module SiteGenerator {
  import opened Wrappers
  import opened Strings

  /** A route as the initial list gives it: a path, or an object with an optional output path and sitemap exclusion. */
  datatype Route =
    | Path(path: string)
    | Configured(route: string, outputPath: Option<string>, excludeFromSitemap: bool)

  /** What rendering a route yields: the serialised document and the `href` of each `<a>`, in document order. */
  datatype Rendered = Rendered(html: string, links: seq<string>)

  type Renderer = string -> Rendered

  /** `typeof route === "string" ? route : route.route`. */
  function RouteText(route: Route): string
  {
    match route
    case Path(p) => p
    case Configured(r, _, _) => r
  }

  /** `typeof route !== "object" || !route.excludeFromSitemap`. */
  predicate InSitemap(route: Route)
  {
    !(route.Configured? && route.excludeFromSitemap)
  }

  // ---------------------------------------------------------------------
  // The route key
  // ---------------------------------------------------------------------

  /** The characters `.` does not match in a JavaScript regular expression without the `s` flag. */
  predicate IsLineTerminator(c: char)
  {
    c == '\n' || c == '\r' || c == '\U{2028}' || c == '\U{2029}'
  }

  /**
   * `.replace(/^.*(\/)$/, "")` as written: a text ending in `/` with no line
   * terminator before it matches as a whole and becomes empty.
   */
  function KeyAsWritten(text: string): string
  {
    if |text| > 0 && text[|text| - 1] == '/' && forall i :: 0 <= i < |text| - 1 ==> !IsLineTerminator(text[i]) then ""
    else text
  }

  /** As written, every key ending in a slash is the empty key of the root route, so `/news/` is taken for `/` and never rendered. */
  lemma KeyAsWrittenMergesWithRoot()
    ensures KeyAsWritten("/news/") == KeyAsWritten("/") == ""
  {
  }

  /** Any text ending in a slash, with no line break, is lost as written. */
  lemma KeyAsWrittenDropsPath(text: string)
    requires |text| > 0 && text[|text| - 1] == '/'
    requires forall i :: 0 <= i < |text| ==> !IsLineTerminator(text[i])
    ensures KeyAsWritten(text) == ""
  {
  }

  /**
   * The key the deduplication evidently intends: the route without one
   * trailing slash (`.replace(/\/$/, "")`), so the root `/` is the empty
   * key and `/news/` is `/news`.
   */
  function Key(text: string): string
  {
    if |text| > 0 && text[|text| - 1] == '/' then text[..|text| - 1] else text
  }

  /** The key is the route itself or the route without its one trailing slash. */
  lemma KeyStripsOneSlash(text: string)
    ensures Key(text) == text || Key(text) + "/" == text
  {
  }

  /** Two routes share a key only when they differ by a trailing slash. */
  lemma KeyOnlyMergesSlashVariants(a: string, b: string)
    requires Key(a) == Key(b)
    ensures a == b || a == b + "/" || b == a + "/"
  {
    KeyStripsOneSlash(a);
    KeyStripsOneSlash(b);
  }

  /** The root keeps the empty key, and a path with a trailing slash is the path without it. */
  lemma KeyExamples()
    ensures Key("/") == "" && Key("/news/") == "/news" && Key("/news") == "/news"
  {
    assert "/news/"[..5] == "/news";
  }

  function KeyOf(route: Route): string
  {
    Key(RouteText(route))
  }

  // ---------------------------------------------------------------------
  // Links and files
  // ---------------------------------------------------------------------

  /** `\w`: an ASCII letter, digit or underscore. */
  predicate IsWordChar(c: char)
  {
    IsAsciiAlphanumeric(c) || c == '_'
  }

  /** The number of word characters that start `s`. */
  function WordPrefix(s: string): (n: nat)
    ensures n <= |s|
    ensures forall i :: 0 <= i < n ==> IsWordChar(s[i])
    ensures n < |s| ==> !IsWordChar(s[n])
    decreases |s|
  {
    if s == [] || !IsWordChar(s[0]) then 0
    else
      var n := WordPrefix(s[1..]);
      assert forall i :: 1 <= i < n + 1 ==> s[i] == s[1..][i - 1];
      n + 1
  }

  /** `/^\w+:/.test(url)`. */
  predicate HasScheme(url: string)
  {
    0 < WordPrefix(url) < |url| && url[WordPrefix(url)] == ':'
  }

  /** The pattern matches exactly when one or more word characters, then a colon, begin the link. */
  lemma HasSchemeMeaning(url: string)
    ensures HasScheme(url) <==> exists n :: 0 < n < |url| && url[n] == ':' && forall i :: 0 <= i < n ==> IsWordChar(url[i])
  {
    var w := WordPrefix(url);
    if exists n :: 0 < n < |url| && url[n] == ':' && forall i :: 0 <= i < n ==> IsWordChar(url[i]) {
      var n :| 0 < n < |url| && url[n] == ':' && forall i :: 0 <= i < n ==> IsWordChar(url[i]);
      assert !IsWordChar(url[n]);
      assert w == n;
    }
  }

  /** The route a crawled link adds, if any: off-site links are skipped and the base URL is stripped. */
  function LinkRoute(url: string, baseUrl: string): (r: Option<string>)
    ensures r.None? <==> HasScheme(url)
    ensures r.Some? && baseUrl <= url ==> url == baseUrl + r.value
    ensures r.Some? && !(baseUrl <= url) ==> r.value == url
  {
    if HasScheme(url) then None
    else if baseUrl <= url then Some(url[|baseUrl|..])
    else Some(url)
  }

  /** The non-empty pieces of a route, in order. */
  function NonEmpty(pieces: seq<string>): (r: seq<string>)
    ensures forall k :: 0 <= k < |r| ==> r[k] != [] && r[k] in pieces
    decreases |pieces|
  {
    if pieces == [] then []
    else
      var init := NonEmpty(pieces[..|pieces| - 1]);
      assert forall x :: x in pieces[..|pieces| - 1] ==> x in pieces;
      if pieces[|pieces| - 1] == [] then init else init + [pieces[|pieces| - 1]]
  }

  /** The pieces of the file a route is saved to. */
  function FileSegments(route: string): seq<string>
  {
    NonEmpty(Split(route, '/')) + ["index.html"]
  }

  /** `routeToFilePath`: the route's non-empty segments, then `index.html`, joined by `/`. */
  function FilePathOf(route: string): string
  {
    Join(FileSegments(route), '/')
  }

  /** The file of a route splits back into the route's non-empty segments followed by `index.html`. */
  lemma FilePathSegments(route: string)
    ensures Split(FilePathOf(route), '/') == FileSegments(route)
  {
    var segments := FileSegments(route);
    forall k | 0 <= k < |segments| ensures '/' !in segments[k] {
      if k < |segments| - 1 {
        assert segments[k] in Split(route, '/');
      } else {
        assert segments[k] == "index.html";
      }
    }
    SplitJoin(segments, '/');
  }

  /** The root route and the empty route are both saved to `index.html`. */
  lemma FilePathOfRoot()
    ensures FilePathOf("/") == "index.html" && FilePathOf("") == "index.html"
  {
    SplitOnceAt("", "", '/');
    assert "/" == "" + ['/'] + "";
    assert Split("/", '/') == ["", ""] by {
      assert Split("", '/') == [""];
    }
    assert NonEmpty(["", ""]) == [];
    assert Split("", '/') == [""];
    assert NonEmpty([""]) == [];
  }

  /** Routes that differ only in empty segments are saved to the same file. */
  lemma FilePathIgnoresEmptySegments(a: string, b: string)
    requires NonEmpty(Split(a, '/')) == NonEmpty(Split(b, '/'))
    ensures FilePathOf(a) == FilePathOf(b)
  {
  }

  /** `route.outputPath ?? routeToFilePath(route.route)`, or `routeToFilePath(route)` for a path. */
  function OutputPathOf(route: Route): string
  {
    match route
    case Path(p) => FilePathOf(p)
    case Configured(r, out, _) => if out.Some? then out.value else FilePathOf(r)
  }

  /** `path.join(current, piece)` for a piece with no `/`: the piece alone after an empty path, else after one `/`. */
  function JoinPiece(current: string, piece: string): string
  {
    if current == [] then piece else current + "/" + piece
  }

  lemma {:induction false} JoinSnoc(parts: seq<string>, piece: string)
    requires parts != []
    ensures Join(parts + [piece], '/') == Join(parts, '/') + "/" + piece
    decreases |parts|
  {
    if |parts| == 1 {
      assert (parts + [piece])[1..] == [piece];
    } else {
      assert (parts + [piece])[1..] == parts[1..] + [piece];
      JoinSnoc(parts[1..], piece);
    }
  }

  lemma NonEmptyJoin(parts: seq<string>)
    requires parts != [] && forall k :: 0 <= k < |parts| ==> parts[k] != []
    ensures Join(parts, '/') != []
  {
    if |parts| > 1 {
      assert Join(parts, '/') == parts[0] + "/" + Join(parts[1..], '/');
    }
  }

  /** Joining one more piece after the non-empty pieces so far. */
  lemma JoinPieceStep(parts: seq<string>, piece: string)
    requires forall k :: 0 <= k < |parts| ==> parts[k] != []
    ensures JoinPiece(Join(parts, '/'), piece) == Join(parts + [piece], '/')
  {
    if parts == [] {
      assert parts + [piece] == [piece];
    } else {
      NonEmptyJoin(parts);
      JoinSnoc(parts, piece);
    }
  }

  /** The `for` loop of `routeToFilePath` over the pieces of the route. */
  method JoinNonEmpty(pieces: seq<string>) returns (current: string)
    ensures current == Join(NonEmpty(pieces), '/')
  {
    current := "";
    for k := 0 to |pieces|
      invariant current == Join(NonEmpty(pieces[..k]), '/')
    {
      assert pieces[..k + 1][..k] == pieces[..k];
      if |pieces[k]| == 0 {
        continue;
      }
      JoinPieceStep(NonEmpty(pieces[..k]), pieces[k]);
      current := JoinPiece(current, pieces[k]);
    }
    assert pieces[..|pieces|] == pieces;
  }

  /** `routeToFilePath`. */
  method RouteToFilePath(route: string) returns (r: string)
    ensures r == FilePathOf(route)
  {
    var current := JoinNonEmpty(Split(route, '/'));
    JoinPieceStep(NonEmpty(Split(route, '/')), "index.html");
    r := JoinPiece(current, "index.html");
  }

  // ---------------------------------------------------------------------
  // The crawl as values
  // ---------------------------------------------------------------------

  /**
   * The crawl's state: `visitedRoutes`, `sitemapRoutes` (a `Set`, kept in
   * insertion order), the `routesToVisit` stack, and as history every
   * route ever pushed and every route rendered so far.
   */
  datatype Site = Site(visited: set<string>, sitemap: seq<string>, toVisit: seq<Route>, enqueued: seq<Route>, done: seq<Route>)

  /** `addRoute`. */
  function AddRouteTo(s: Site, route: Route): Site
  {
    var url := KeyOf(route);
    if url in s.visited then s
    else s.(visited := s.visited + {url},
            toVisit := s.toVisit + [route],
            enqueued := s.enqueued + [route],
            sitemap := s.sitemap + (if InSitemap(route) then [url] else []))
  }

  /** `addRoute` for each route in turn. */
  function AddRoutesTo(s: Site, routes: seq<Route>): Site
    decreases |routes|
  {
    if routes == [] then s else AddRouteTo(AddRoutesTo(s, routes[..|routes| - 1]), routes[|routes| - 1])
  }

  /** The routes the link loop of `renderPage` adds, in document order. */
  function LinkRoutes(links: seq<string>, baseUrl: string): (r: seq<Route>)
    ensures forall k :: 0 <= k < |r| ==> r[k].Path?
    decreases |links|
  {
    if links == [] then []
    else
      var init := LinkRoutes(links[..|links| - 1], baseUrl);
      match LinkRoute(links[|links| - 1], baseUrl)
      case None => init
      case Some(u) => init + [Path(u)]
  }

  /** One turn of the `while (true)` loop: pop the last route pushed, render it, add the routes its links name. */
  function VisitNextOf(s: Site, render: Renderer, baseUrl: string): Site
    requires s.toVisit != []
  {
    var route := s.toVisit[|s.toVisit| - 1];
    var popped := s.(toVisit := s.toVisit[..|s.toVisit| - 1], done := s.done + [route]);
    AddRoutesTo(popped, LinkRoutes(render(RouteText(route)).links, baseUrl))
  }

  /** The keys of the routes pushed. */
  function KeysOf(routes: seq<Route>): set<string>
    decreases |routes|
  {
    if routes == [] then {} else KeysOf(routes[..|routes| - 1]) + {KeyOf(routes[|routes| - 1])}
  }

  /** The keys the sitemap takes, in the order their routes were pushed. */
  function SitemapOf(routes: seq<Route>): seq<string>
    decreases |routes|
  {
    if routes == [] then []
    else
      var last := routes[|routes| - 1];
      SitemapOf(routes[..|routes| - 1]) + (if InSitemap(last) then [KeyOf(last)] else [])
  }

  ghost predicate DistinctKeys(routes: seq<Route>)
  {
    forall i, j :: 0 <= i < j < |routes| ==> KeyOf(routes[i]) != KeyOf(routes[j])
  }

  /**
   * What holds of the crawl: no key is pushed twice, the visited set is
   * the keys pushed, the sitemap is the keys of the pushed routes not
   * excluded from it, and every pushed route is rendered or still on the
   * stack, once.
   */
  ghost predicate SiteValid(s: Site)
  {
    && DistinctKeys(s.enqueued)
    && s.visited == KeysOf(s.enqueued)
    && s.sitemap == SitemapOf(s.enqueued)
    && multiset(s.enqueued) == multiset(s.done) + multiset(s.toVisit)
  }

  /** The crawl has followed every link of every page rendered so far. */
  ghost predicate Closed(s: Site, render: Renderer, baseUrl: string)
  {
    forall i, k :: 0 <= i < |s.done| && 0 <= k < |LinkRoutes(render(RouteText(s.done[i])).links, baseUrl)| ==>
      KeyOf(LinkRoutes(render(RouteText(s.done[i])).links, baseUrl)[k]) in s.visited
  }

  /** Every link any page can yield has its key in `universe`. */
  ghost predicate LinksWithin(render: Renderer, baseUrl: string, universe: set<string>)
  {
    forall text: string, k :: 0 <= k < |LinkRoutes(render(text).links, baseUrl)| ==>
      KeyOf(LinkRoutes(render(text).links, baseUrl)[k]) in universe
  }

  lemma {:induction false} KeysOfMeaning(routes: seq<Route>, u: string)
    ensures u in KeysOf(routes) <==> exists i :: 0 <= i < |routes| && KeyOf(routes[i]) == u
    decreases |routes|
  {
    if routes != [] {
      var init := routes[..|routes| - 1];
      var last := routes[|routes| - 1];
      KeysOfMeaning(init, u);
      assert KeysOf(routes) == KeysOf(init) + {KeyOf(last)};
      if u in KeysOf(routes) {
        if u == KeyOf(last) {
          assert KeyOf(routes[|routes| - 1]) == u;
        } else {
          var i :| 0 <= i < |init| && KeyOf(init[i]) == u;
          assert routes[i] == init[i];
        }
      }
      if exists i :: 0 <= i < |routes| && KeyOf(routes[i]) == u {
        var i :| 0 <= i < |routes| && KeyOf(routes[i]) == u;
        if i < |init| {
          assert init[i] == routes[i];
        }
      }
    }
  }

  /** `addRoute` keeps the crawl's invariant. */
  lemma AddRouteValid(s: Site, route: Route)
    requires SiteValid(s)
    ensures SiteValid(AddRouteTo(s, route))
  {
    var url := KeyOf(route);
    if url !in s.visited {
      var next := s.enqueued + [route];
      assert next[..|next| - 1] == s.enqueued;
      forall i | 0 <= i < |s.enqueued| ensures KeyOf(next[i]) != url {
        KeysOfMeaning(s.enqueued, KeyOf(s.enqueued[i]));
      }
    }
  }

  lemma {:induction false} AddRoutesValid(s: Site, routes: seq<Route>)
    requires SiteValid(s)
    ensures SiteValid(AddRoutesTo(s, routes))
    decreases |routes|
  {
    if routes != [] {
      AddRoutesValid(s, routes[..|routes| - 1]);
      AddRouteValid(AddRoutesTo(s, routes[..|routes| - 1]), routes[|routes| - 1]);
    }
  }

  /** Adding routes renders nothing, keeps every key, pushes only when a new key arrives, and takes in the key of every route added. */
  lemma {:induction false} AddRoutesGrow(s: Site, routes: seq<Route>)
    ensures AddRoutesTo(s, routes).done == s.done
    ensures s.visited <= AddRoutesTo(s, routes).visited
    ensures AddRoutesTo(s, routes).visited == s.visited ==> AddRoutesTo(s, routes).toVisit == s.toVisit
    ensures AddRoutesTo(s, routes).visited <= s.visited + KeysOf(routes)
    ensures forall k :: 0 <= k < |routes| ==> KeyOf(routes[k]) in AddRoutesTo(s, routes).visited
    decreases |routes|
  {
    if routes != [] {
      var init := routes[..|routes| - 1];
      var last := routes[|routes| - 1];
      AddRoutesGrow(s, init);
      AddRouteGrows(AddRoutesTo(s, init), last);
      assert KeysOf(routes) == KeysOf(init) + {KeyOf(last)};
      forall k | 0 <= k < |routes| ensures KeyOf(routes[k]) in AddRoutesTo(s, routes).visited {
        if k < |init| {
          assert routes[k] == init[k];
        }
      }
    }
  }

  /** One `addRoute` renders nothing, takes in the route's key, and pushes only when that key is new. */
  lemma AddRouteGrows(s: Site, route: Route)
    ensures AddRouteTo(s, route).done == s.done
    ensures AddRouteTo(s, route).visited == s.visited + {KeyOf(route)}
    ensures AddRouteTo(s, route).visited == s.visited ==> AddRouteTo(s, route).toVisit == s.toVisit
  {
  }

  /** One turn of the loop keeps the invariant: the popped route moves from the stack to the rendered routes. */
  lemma VisitNextValid(s: Site, render: Renderer, baseUrl: string)
    requires SiteValid(s) && s.toVisit != []
    ensures SiteValid(VisitNextOf(s, render, baseUrl))
  {
    var route := s.toVisit[|s.toVisit| - 1];
    var popped := s.(toVisit := s.toVisit[..|s.toVisit| - 1], done := s.done + [route]);
    assert s.toVisit == popped.toVisit + [route];
    assert SiteValid(popped);
    AddRoutesValid(popped, LinkRoutes(render(RouteText(route)).links, baseUrl));
  }

  /** One turn of the loop keeps the crawl closed under the links of the pages it has rendered. */
  lemma VisitNextClosed(s: Site, render: Renderer, baseUrl: string)
    requires Closed(s, render, baseUrl) && s.toVisit != []
    ensures Closed(VisitNextOf(s, render, baseUrl), render, baseUrl)
  {
    var route := s.toVisit[|s.toVisit| - 1];
    var popped := s.(toVisit := s.toVisit[..|s.toVisit| - 1], done := s.done + [route]);
    var links := LinkRoutes(render(RouteText(route)).links, baseUrl);
    AddRoutesGrow(popped, links);
    var next := VisitNextOf(s, render, baseUrl);
    assert next.done == s.done + [route];
    forall i, k | 0 <= i < |next.done| && 0 <= k < |LinkRoutes(render(RouteText(next.done[i])).links, baseUrl)|
      ensures KeyOf(LinkRoutes(render(RouteText(next.done[i])).links, baseUrl)[k]) in next.visited
    {
      if i < |s.done| {
        assert next.done[i] == s.done[i];
      }
    }
  }

  /**
   * One turn of the loop moves the measure down: within `universe`, either
   * a new key is visited or the stack is one shorter.
   */
  lemma VisitNextProgress(s: Site, render: Renderer, baseUrl: string, universe: set<string>)
    requires s.toVisit != [] && s.visited <= universe && LinksWithin(render, baseUrl, universe)
    ensures s.visited <= VisitNextOf(s, render, baseUrl).visited <= universe
    ensures VisitNextOf(s, render, baseUrl).visited == s.visited ==> |VisitNextOf(s, render, baseUrl).toVisit| == |s.toVisit| - 1
  {
    var route := s.toVisit[|s.toVisit| - 1];
    var popped := s.(toVisit := s.toVisit[..|s.toVisit| - 1], done := s.done + [route]);
    var links := LinkRoutes(render(RouteText(route)).links, baseUrl);
    AddRoutesGrow(popped, links);
    forall u | u in KeysOf(links) ensures u in universe {
      KeysOfMeaning(links, u);
    }
  }

  lemma Shrinks(universe: set<string>, a: set<string>, b: set<string>)
    requires a <= b <= universe && a != b
    ensures |universe - b| < |universe - a|
  {
    var x :| x in b && x !in a;
    var rest := (universe - a) - {x};
    assert universe - b <= rest;
    SubsetCard(universe - b, rest);
    assert |rest| == |universe - a| - 1;
  }

  lemma {:induction false} SubsetCard<T>(a: set<T>, b: set<T>)
    requires a <= b
    ensures |a| <= |b|
    decreases |b|
  {
    if a != {} {
      var x :| x in a;
      SubsetCard(a - {x}, b - {x});
    }
  }

  /** The sitemap takes exactly the keys of the pushed routes not excluded from it. */
  lemma SitemapMeaning(routes: seq<Route>, u: string)
    ensures u in SitemapOf(routes) <==> exists i :: 0 <= i < |routes| && KeyOf(routes[i]) == u && InSitemap(routes[i])
  {
    if u in SitemapOf(routes) {
      SitemapWitness(routes, u);
    }
    if exists i :: 0 <= i < |routes| && KeyOf(routes[i]) == u && InSitemap(routes[i]) {
      var i :| 0 <= i < |routes| && KeyOf(routes[i]) == u && InSitemap(routes[i]);
      SitemapHas(routes, i);
    }
  }

  lemma {:induction false} SitemapWitness(routes: seq<Route>, u: string)
    requires u in SitemapOf(routes)
    ensures exists i :: 0 <= i < |routes| && KeyOf(routes[i]) == u && InSitemap(routes[i])
    decreases |routes|
  {
    var init := routes[..|routes| - 1];
    var last := routes[|routes| - 1];
    assert SitemapOf(routes) == SitemapOf(init) + (if InSitemap(last) then [KeyOf(last)] else []);
    if u in SitemapOf(init) {
      SitemapWitness(init, u);
      var i :| 0 <= i < |init| && KeyOf(init[i]) == u && InSitemap(init[i]);
      assert routes[i] == init[i];
    } else {
      assert routes[|routes| - 1] == last;
    }
  }

  lemma {:induction false} SitemapHas(routes: seq<Route>, i: nat)
    requires i < |routes| && InSitemap(routes[i])
    ensures KeyOf(routes[i]) in SitemapOf(routes)
    decreases |routes|
  {
    var init := routes[..|routes| - 1];
    var last := routes[|routes| - 1];
    assert SitemapOf(routes) == SitemapOf(init) + (if InSitemap(last) then [KeyOf(last)] else []);
    if i < |init| {
      assert routes[i] == init[i];
      SitemapHas(init, i);
    }
  }

  /** The sitemap lists no key twice. */
  lemma {:induction false} SitemapOnce(routes: seq<Route>, u: string)
    requires DistinctKeys(routes)
    ensures multiset(SitemapOf(routes))[u] <= 1
    decreases |routes|
  {
    if routes != [] {
      var init := routes[..|routes| - 1];
      var last := routes[|routes| - 1];
      assert DistinctKeys(init) by {
        forall i, j | 0 <= i < j < |init| ensures KeyOf(init[i]) != KeyOf(init[j]) {
          assert init[i] == routes[i] && init[j] == routes[j];
        }
      }
      SitemapOnce(init, u);
      if InSitemap(last) && KeyOf(last) == u {
        SitemapMeaning(init, u);
        assert multiset(SitemapOf(init))[u] == 0;
      }
    }
  }

  /** The sitemap never names a route that was not visited. */
  lemma SitemapVisited(s: Site, u: string)
    requires SiteValid(s) && u in s.sitemap
    ensures u in s.visited
  {
    SitemapMeaning(s.enqueued, u);
    KeysOfMeaning(s.enqueued, u);
  }

  // ---------------------------------------------------------------------
  // The crawl as `build` runs it
  // ---------------------------------------------------------------------

  /** The state of one run of `build`: the route sets and stack, and the files written (output path, page). */
  class SiteBuilder {
    var visited: set<string>
    var sitemap: seq<string>
    var toVisit: seq<Route>
    var written: seq<(string, string)>
    ghost var enqueued: seq<Route>
    ghost var done: seq<Route>

    ghost function State(): Site
      reads this
    {
      Site(visited, sitemap, toVisit, enqueued, done)
    }

    /** Each rendered route was saved, in order, to its output path. */
    ghost predicate Saved(render: Renderer)
      reads this
    {
      SavedAs(done, written, render)
    }

    constructor()
      ensures State() == Site({}, [], [], [], []) && written == []
    {
      visited, sitemap, toVisit, written := {}, [], [], [];
      enqueued, done := [], [];
    }

    /** `addRoute`: a route whose key is new is pushed and, unless excluded, joins the sitemap. */
    method AddRoute(route: Route)
      modifies this
      ensures State() == AddRouteTo(old(State()), route) && written == old(written)
    {
      var url := Key(RouteText(route));
      if url !in visited {
        visited := visited + {url};
        toVisit := toVisit + [route];
        enqueued := enqueued + [route];
        if InSitemap(route) {
          sitemap := sitemap + [url];
        }
      }
    }

    /** `initialRoutes.forEach((route) => addRoute(route))`. */
    method AddRoutes(routes: seq<Route>)
      modifies this
      ensures State() == AddRoutesTo(old(State()), routes) && written == old(written)
    {
      for k := 0 to |routes|
        invariant State() == AddRoutesTo(old(State()), routes[..k]) && written == old(written)
      {
        assert routes[..k + 1][..k] == routes[..k];
        AddRoute(routes[k]);
      }
      assert routes[..|routes|] == routes;
    }

    /** The link loop of `renderPage`. */
    method AddLinks(links: seq<string>, baseUrl: string)
      modifies this
      ensures State() == AddRoutesTo(old(State()), LinkRoutes(links, baseUrl)) && written == old(written)
    {
      for k := 0 to |links|
        invariant State() == AddRoutesTo(old(State()), LinkRoutes(links[..k], baseUrl)) && written == old(written)
      {
        assert links[..k + 1][..k] == links[..k];
        var url := links[k];
        if HasScheme(url) {
          continue;
        }
        if baseUrl <= url {
          url := url[|baseUrl|..];
        }
        ghost var before := LinkRoutes(links[..k], baseUrl);
        assert LinkRoutes(links[..k + 1], baseUrl) == before + [Path(url)];
        assert (before + [Path(url)])[..|before|] == before;
        AddRoute(Path(url));
      }
      assert links[..|links|] == links;
    }

    /** One turn of the `while (true)` loop of `build`, for a non-empty stack. */
    method VisitNext(render: Renderer, baseUrl: string)
      requires toVisit != []
      modifies this
      ensures State() == VisitNextOf(old(State()), render, baseUrl)
      ensures written == old(written) + [PageOf(old(toVisit)[|old(toVisit)| - 1], render)]
    {
      var route := toVisit[|toVisit| - 1];
      toVisit := toVisit[..|toVisit| - 1];
      done := done + [route];
      var outputPath;
      match route {
        case Path(p) =>
          outputPath := RouteToFilePath(p);
        case Configured(r, out, _) =>
          if out.Some? {
            outputPath := out.value;
          } else {
            outputPath := RouteToFilePath(r);
          }
      }
      var page := render(RouteText(route));
      AddLinks(page.links, baseUrl);
      written := written + [(outputPath, page.html)];
    }
  }

  /** Page `i` written holds the output path and the HTML of rendered route `i`. */
  ghost predicate SavedAs(done: seq<Route>, written: seq<(string, string)>, render: Renderer)
  {
    |written| == |done| && forall i :: 0 <= i < |done| ==> written[i] == PageOf(done[i], render)
  }

  /** The file `renderPage` writes for a route: its output path and the rendered HTML. */
  function PageOf(route: Route, render: Renderer): (string, string)
  {
    (OutputPathOf(route), render(RouteText(route)).html)
  }

  /** Saving the page of the route just rendered keeps every page saved. */
  lemma SavedStep(done: seq<Route>, written: seq<(string, string)>, route: Route, render: Renderer)
    requires SavedAs(done, written, render)
    ensures SavedAs(done + [route], written + [PageOf(route, render)], render)
  {
  }

  /** What holds at the head of every turn of `build`'s loop. */
  ghost predicate Crawling(s: Site, render: Renderer, baseUrl: string, universe: set<string>)
  {
    SiteValid(s) && Closed(s, render, baseUrl) && s.visited <= universe
  }

  /** One turn of the loop keeps `Crawling` and moves the measure down. */
  lemma VisitNextStep(s: Site, render: Renderer, baseUrl: string, universe: set<string>)
    requires Crawling(s, render, baseUrl, universe) && s.toVisit != [] && LinksWithin(render, baseUrl, universe)
    ensures Crawling(VisitNextOf(s, render, baseUrl), render, baseUrl, universe)
    ensures s.visited <= VisitNextOf(s, render, baseUrl).visited
    ensures VisitNextOf(s, render, baseUrl).done == s.done + [s.toVisit[|s.toVisit| - 1]]
    ensures || |universe - VisitNextOf(s, render, baseUrl).visited| < |universe - s.visited|
            || (VisitNextOf(s, render, baseUrl).visited == s.visited && |VisitNextOf(s, render, baseUrl).toVisit| < |s.toVisit|)
  {
    VisitNextValid(s, render, baseUrl);
    VisitNextClosed(s, render, baseUrl);
    VisitNextProgress(s, render, baseUrl, universe);
    var route := s.toVisit[|s.toVisit| - 1];
    AddRoutesGrow(s.(toVisit := s.toVisit[..|s.toVisit| - 1], done := s.done + [route]), LinkRoutes(render(RouteText(route)).links, baseUrl));
    if VisitNextOf(s, render, baseUrl).visited != s.visited {
      Shrinks(universe, s.visited, VisitNextOf(s, render, baseUrl).visited);
    }
  }

  /** Pushing the initial routes starts the crawl. */
  lemma StartCrawling(initialRoutes: seq<Route>, render: Renderer, baseUrl: string, universe: set<string>)
    requires forall i :: 0 <= i < |initialRoutes| ==> KeyOf(initialRoutes[i]) in universe
    ensures Crawling(AddRoutesTo(Site({}, [], [], [], []), initialRoutes), render, baseUrl, universe)
    ensures forall i :: 0 <= i < |initialRoutes| ==> KeyOf(initialRoutes[i]) in AddRoutesTo(Site({}, [], [], [], []), initialRoutes).visited
    ensures AddRoutesTo(Site({}, [], [], [], []), initialRoutes).done == []
  {
    AddRoutesValid(Site({}, [], [], [], []), initialRoutes);
    AddRoutesGrow(Site({}, [], [], [], []), initialRoutes);
    forall u | u in KeysOf(initialRoutes) ensures u in universe {
      KeysOfMeaning(initialRoutes, u);
    }
  }

  /**
   * `build`'s crawl: push the initial routes, then render routes from the
   * top of the stack until it is empty. It ends with every pushed route
   * rendered exactly once and saved, each key pushed once, every initial
   * route visited, and every link of every rendered page followed.
   */
  method Build(initialRoutes: seq<Route>, render: Renderer, baseUrl: string, ghost universe: set<string>) returns (b: SiteBuilder)
    requires forall i :: 0 <= i < |initialRoutes| ==> KeyOf(initialRoutes[i]) in universe
    requires LinksWithin(render, baseUrl, universe)
    ensures fresh(b)
    ensures b.toVisit == []
    ensures SiteValid(b.State()) && multiset(b.done) == multiset(b.enqueued)
    ensures Closed(b.State(), render, baseUrl)
    ensures b.Saved(render)
    ensures forall i :: 0 <= i < |initialRoutes| ==> KeyOf(initialRoutes[i]) in b.visited
  {
    b := new SiteBuilder();
    b.AddRoutes(initialRoutes);
    StartCrawling(initialRoutes, render, baseUrl, universe);
    Crawl(b, render, baseUrl, universe);
    assert b.State().toVisit == [];
    assert multiset(b.State().enqueued) == multiset(b.State().done) + multiset(b.State().toVisit);
  }

  /** The `while (true)` loop of `build`: it ends exactly when the stack is empty. */
  method Crawl(b: SiteBuilder, render: Renderer, baseUrl: string, ghost universe: set<string>)
    requires Building(b.State(), b.written, render, baseUrl, universe)
    requires LinksWithin(render, baseUrl, universe)
    modifies b
    ensures Building(b.State(), b.written, render, baseUrl, universe)
    ensures b.toVisit == []
    ensures old(b.visited) <= b.visited
  {
    while true
      invariant Building(b.State(), b.written, render, baseUrl, universe)
      invariant old(b.visited) <= b.visited
      decreases |universe - b.visited|, |b.toVisit|
    {
      if b.toVisit == [] {
        break;
      }
      ghost var before := b.State();
      ghost var written := b.written;
      b.VisitNext(render, baseUrl);
      Turn(before, written, render, baseUrl, universe);
    }
  }

  /** The loop invariant of `build`, with the pages written so far. */
  ghost predicate Building(s: Site, written: seq<(string, string)>, render: Renderer, baseUrl: string, universe: set<string>)
  {
    Crawling(s, render, baseUrl, universe) && SavedAs(s.done, written, render)
  }

  /** One turn of the loop, writing the page of the route it pops, keeps `Building` and moves the measure down. */
  lemma Turn(s: Site, written: seq<(string, string)>, render: Renderer, baseUrl: string, universe: set<string>)
    requires Building(s, written, render, baseUrl, universe) && s.toVisit != [] && LinksWithin(render, baseUrl, universe)
    ensures Building(VisitNextOf(s, render, baseUrl), written + [PageOf(s.toVisit[|s.toVisit| - 1], render)], render, baseUrl, universe)
    ensures s.visited <= VisitNextOf(s, render, baseUrl).visited
    ensures || |universe - VisitNextOf(s, render, baseUrl).visited| < |universe - s.visited|
            || (VisitNextOf(s, render, baseUrl).visited == s.visited && |VisitNextOf(s, render, baseUrl).toVisit| < |s.toVisit|)
  {
    VisitNextStep(s, render, baseUrl, universe);
    SavedStep(s.done, written, s.toVisit[|s.toVisit| - 1], render);
  }
}

/** The Flask site's page script (mysite/static/js/script.js): the guarded insertion of
    the menu and the highlighting of the link for the current path. */
module SiteNav {
  import opened Seqs
  import opened Strings
  import opened NavLinks

  /** The hrefs of the inserted menu, in document order. */
  const NavHrefs: seq<string> := ["/", "/journal", "/about", "/projects"]

  /** `pathname.replace(/\/$/, '')`: one trailing slash at most is removed. */
  function TrimTrailingSlash(p: string): string {
    if p != [] && p[|p| - 1] == '/' then p[..|p| - 1] else p
  }

  /** The path the links are compared with: the pathname without one trailing slash,
      where an empty result or one ending in 'index.html' stands for the home page '/'. */
  function NormalizePath(pathname: string): (r: string)
    ensures r == "/" || r == pathname || r + "/" == pathname
    ensures pathname == "" || pathname == "/" || EndsWith(pathname, "index.html") ==> r == "/"
    ensures r != "/" ==> r != "" && !EndsWith(r, "index.html")
    ensures r != "/" && pathname != [] && pathname[|pathname| - 1] == '/' ==> r + "/" == pathname
    ensures r != "/" && (pathname == [] || pathname[|pathname| - 1] != '/') ==> r == pathname
  {
    var currentPath := TrimTrailingSlash(pathname);
    assert pathname != [] && pathname[|pathname| - 1] == '/' ==> currentPath + "/" == pathname;
    if currentPath == "" || EndsWith(currentPath, "index.html") then "/" else currentPath
  }

  /** The paths that count as the home page are exactly '', '/', '//' and those ending
      in 'index.html', with or without one trailing slash. */
  lemma HomePaths(p: string)
    ensures NormalizePath(p) == "/" <==>
      p == "" || p == "/" || p == "//" || EndsWith(p, "index.html") || EndsWith(p, "index.html/")
  {
    var t := TrimTrailingSlash(p);
    if p != [] && p[|p| - 1] == '/' {
      assert t + "/" == p;
      assert EndsWith(t, "index.html") ==> p[|p| - 11..] == t[|t| - 10..] + "/";
      assert EndsWith(p, "index.html/") ==> t[|t| - 10..] == p[|p| - 11..|p| - 1];
      assert "index.html"[9] != '/';
    } else {
      assert "index.html/"[10] == '/';
    }
  }

  /** Every menu href is its own normalised path, with or without a trailing slash, and
      '/index.html' is the home page. */
  lemma NavHrefsReachable()
    ensures forall h :: h in NavHrefs ==> NormalizePath(h) == h && NormalizePath(h + "/") == h
    ensures NormalizePath("/index.html") == "/"
  {
    assert EndsWith("/index.html", "index.html");
  }

  lemma NavHrefsDistinct()
    ensures NoDups(NavHrefs)
  {
    assert |NavHrefs[0]| == 1 && |NavHrefs[1]| == 8 && |NavHrefs[2]| == 6 && |NavHrefs[3]| == 9;
  }

  /** Whatever the pathname, at most one menu link is active, and exactly one is when the
      normalised path is one of the menu's hrefs. */
  lemma OneActiveLink(pathname: string)
    ensures |ActiveIndices(NavHrefs, NormalizePath(pathname))| <= 1
    ensures |ActiveIndices(NavHrefs, NormalizePath(pathname))| == 1 <==> NormalizePath(pathname) in NavHrefs
  {
    NavHrefsDistinct();
    AtMostOneActive(NavHrefs, NormalizePath(pathname));
  }

  /** `highlightActivePage()` over the links `document.querySelectorAll('nav a')` found. */
  method HighlightActivePage(links: seq<NavLink>, pathname: string)
    modifies set l | l in links
    ensures forall l :: l in links && l.href == NormalizePath(pathname) ==> l.classes == old(l.classes) + {Active}
    ensures forall l :: l in links && l.href != NormalizePath(pathname) ==> l.classes == old(l.classes)
  {
    var currentPath := NormalizePath(pathname);
    MarkActive(links, currentPath);
  }

  /** The anchors `navPlaceholder.innerHTML = navHTML` creates, none of them active. */
  method NewMenu() returns (links: seq<NavLink>)
    ensures HrefsOf(links) == NavHrefs
    ensures forall l :: l in links ==> fresh(l) && l.classes == {}
  {
    var home := new NavLink("/");
    var journal := new NavLink("/journal");
    var about := new NavLink("/about");
    var projects := new NavLink("/projects");
    links := [home, journal, about, projects];
  }

  /** The parts of the document `loadNavigation` looks at or changes. */
  class Page {
    var hasNav: bool              // `document.querySelector('nav')` finds an element
    const hasPlaceholder: bool    // there is an element with id 'nav-placeholder'
    const hasToggle: bool         // there is an element with id 'theme-toggle'
    var toggleAfterMenu: bool     // the toggle sits right after the placeholder
    var links: seq<NavLink>       // the anchors of the inserted menu
    ghost var menusInserted: nat

    constructor (hasNav: bool, hasPlaceholder: bool, hasToggle: bool)
      ensures this.hasNav == hasNav && this.hasPlaceholder == hasPlaceholder && this.hasToggle == hasToggle
      ensures !toggleAfterMenu && links == [] && menusInserted == 0
    {
      this.hasNav := hasNav;
      this.hasPlaceholder := hasPlaceholder;
      this.hasToggle := hasToggle;
      toggleAfterMenu := false;
      links := [];
      menusInserted := 0;
    }

    /** `loadNavigation()`: nothing happens if a nav already exists or there is no
        placeholder; otherwise the menu is inserted, the toggle moved after it, and the
        link for the current path marked active. */
    method LoadNavigation(pathname: string)
      modifies this
      ensures old(hasNav) || !hasPlaceholder ==> unchanged(this)
      ensures !old(hasNav) && hasPlaceholder ==>
        && hasNav && menusInserted == old(menusInserted) + 1
        && toggleAfterMenu == (old(toggleAfterMenu) || hasToggle)
        && HrefsOf(links) == NavHrefs
        && forall l :: l in links ==> fresh(l) && (Active in l.classes <==> l.href == NormalizePath(pathname))
    {
      if hasNav {
        return;
      }
      if hasPlaceholder {
        links := NewMenu();
        hasNav := true;
        menusInserted := menusInserted + 1;
        if hasToggle {
          toggleAfterMenu := true;
        }
        HighlightActivePage(links, pathname);
      }
    }
  }

  /** The guard at work: however many times the script runs, the menu goes in once. */
  method LoadNavigationTwice(page: Page, pathname: string)
    modifies page
    ensures page.menusInserted <= old(page.menusInserted) + 1
    ensures old(page.hasNav) ==> page.menusInserted == old(page.menusInserted)
  {
    page.LoadNavigation(pathname);
    page.LoadNavigation(pathname);
  }
}

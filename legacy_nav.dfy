/** The static site's page script (js/script.js): the link for the current page is
    found by file name rather than by path. */
module LegacyNav {
  import opened Seqs
  import opened Strings
  import opened NavLinks

  /** The hrefs of the static menu, in document order. */
  const NavHrefs: seq<string> := ["index.html", "journal.html", "about.html", "projects.html"]

  /** The page a directory path stands for. */
  const Home: string := "index.html"

  lemma HomeHasNoSlash()
    ensures '/' !in Home
  {
  }

  /** `pathname.split('/').pop() || 'index.html'`: the last path segment, or the home
      page when that segment is empty. */
  function CurrentPage(pathname: string): (r: string)
    ensures '/' !in r && r != ""
    ensures LastSegment(pathname) != "" ==> r == LastSegment(pathname)
    ensures LastSegment(pathname) == "" ==> r == Home
  {
    var segment := LastSegment(pathname);
    if segment == "" then HomeHasNoSlash(); Home else segment
  }

  /** The segment after the last slash of `dir + "/" + name` is `name` itself. */
  lemma {:induction false} LastSegmentOfFile(dir: string, name: string)
    requires '/' !in name
    ensures LastSegment(dir + "/" + name) == name
  {
    var s := dir + "/" + name;
    if name == [] {
      assert s[|s| - 1] == '/';
    } else {
      var init := name[..|name| - 1];
      assert s[..|s| - 1] == dir + "/" + init;
      assert name[|name| - 1] in name;
      assert forall c :: c in init ==> c in name;
      LastSegmentOfFile(dir, init);
      assert init + [name[|name| - 1]] == name;
    }
  }

  /** A file under any directory is recognised by its name; a directory (a path ending
      in '/') is the home page. */
  lemma PageOfPath(dir: string, name: string)
    requires '/' !in name
    ensures name != "" ==> CurrentPage(dir + "/" + name) == name
    ensures CurrentPage(dir + "/") == Home
  {
    LastSegmentOfFile(dir, name);
    LastSegmentOfFile(dir, "");
    assert dir + "/" + "" == dir + "/";
  }

  lemma NavHrefsDistinct()
    ensures NoDups(NavHrefs)
  {
    assert NavHrefs[0][0] == 'i' && NavHrefs[2][0] == 'a';
    assert |NavHrefs[0]| == 10 && |NavHrefs[1]| == 12 && |NavHrefs[2]| == 10 && |NavHrefs[3]| == 13;
  }

  /** Whatever the pathname, at most one menu link is active, and exactly one is when the
      current page is one of the menu's hrefs. */
  lemma OneActiveLink(pathname: string)
    ensures |ActiveIndices(NavHrefs, CurrentPage(pathname))| <= 1
    ensures |ActiveIndices(NavHrefs, CurrentPage(pathname))| == 1 <==> CurrentPage(pathname) in NavHrefs
  {
    NavHrefsDistinct();
    AtMostOneActive(NavHrefs, CurrentPage(pathname));
  }

  /** `highlightActivePage()` over the links `document.querySelectorAll('nav ul li a')`
      found: links for other pages are left as they were. */
  method HighlightActivePage(links: seq<NavLink>, pathname: string)
    modifies set l | l in links
    ensures forall l :: l in links && l.href == CurrentPage(pathname) ==> l.classes == old(l.classes) + {Active}
    ensures forall l :: l in links && l.href != CurrentPage(pathname) ==> l.classes == old(l.classes)
  {
    var currentPage := CurrentPage(pathname);
    MarkActive(links, currentPage);
  }
}

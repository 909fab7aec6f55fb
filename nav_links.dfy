/** The navigation anchors both versions of `highlightActivePage` walk over, and the
    loop they share: add the 'active' class to every link whose href equals the
    current page. */
module NavLinks {
  import opened Seqs

  /** The CSS class that marks the current page's link. */
  const Active: string := "active"

  /** One `<a>` of the menu: its href attribute is fixed, its class list changes. */
  class NavLink {
    const href: string
    var classes: set<string>

    constructor (href: string)
      ensures this.href == href && classes == {}
    {
      this.href := href;
      classes := {};
    }
  }

  /** The href attributes of `links`, in document order. */
  function HrefsOf(links: seq<NavLink>): (hs: seq<string>)
    ensures |hs| == |links| && forall i :: 0 <= i < |links| ==> hs[i] == links[i].href
  {
    if links == [] then [] else [links[0].href] + HrefsOf(links[1..])
  }

  /** The links the loop turns active, by position: those whose href is `current`. */
  function ActiveIndices(hrefs: seq<string>, current: string): set<int> {
    set i | 0 <= i < |hrefs| && hrefs[i] == current
  }

  /** `navLinks.forEach(link => { if (link.getAttribute('href') === current)
      link.classList.add('active') })`. Links with another href are untouched. */
  method MarkActive(links: seq<NavLink>, current: string)
    modifies set l | l in links
    ensures forall l :: l in links && l.href == current ==> l.classes == old(l.classes) + {Active}
    ensures forall l :: l in links && l.href != current ==> l.classes == old(l.classes)
  {
    var i := 0;
    while i < |links|
      invariant 0 <= i <= |links|
      invariant forall l :: l in links && l.href == current && l in links[..i] ==> l.classes == old(l.classes) + {Active}
      invariant forall l :: l in links && !(l.href == current && l in links[..i]) ==> l.classes == old(l.classes)
    {
      var link := links[i];
      if link.href == current {
        link.classes := link.classes + {Active};
      }
      assert links[..i + 1] == links[..i] + [link];
      i := i + 1;
    }
    assert links[..i] == links;
  }

  /** With distinct hrefs, at most one link becomes active, and exactly one does when
      the current page is one of the hrefs. */
  lemma AtMostOneActive(hrefs: seq<string>, current: string)
    requires NoDups(hrefs)
    ensures |ActiveIndices(hrefs, current)| <= 1
    ensures |ActiveIndices(hrefs, current)| == 1 <==> current in hrefs
  {
    var r := ActiveIndices(hrefs, current);
    if current in hrefs {
      var i :| 0 <= i < |hrefs| && hrefs[i] == current;
      assert r == {i};
    } else {
      assert r == {};
    }
  }
}

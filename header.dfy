/**
 * app/components/Header.tsx: the fixed site header. It restyles itself once
 * the page has scrolled past a threshold, toggles a mobile menu, and turns
 * a click on a navigation link into a smooth scroll to the section the
 * link names, a history entry, and a closed menu. The DOM enters as the set
 * of element ids present on the page; scrolling itself is not modelled,
 * only the id scrolled to.
 */
module Header {
  import opened Wrappers
  import opened JsText

  datatype NavLink = NavLink(name: string, href: string)

  const NavLinks: seq<NavLink> := [
    NavLink("Home", "#hero"),
    NavLink("About", "#about"),
    NavLink("Technologies", "#technologies"),
    NavLink("Documents", "#documents"),
    NavLink("Presentations", "#presentations"),
    NavLink("Milestones", "#milestones"),
    NavLink("Gallery", "#gallery"),
    NavLink("Team", "#team"),
    NavLink("Contact", "#contact")
  ]

  /** The vertical scroll offset, in pixels, past which the header counts as scrolled. */
  const ScrollThreshold: real := 50.0

  /** The ids of the sections app/page.tsx puts on the page (the logo link targets "#hero" too). */
  const PageSectionIds: set<string> :=
    {"hero", "about", "technologies", "documents", "presentations", "milestones", "gallery", "domain", "team", "contact"}

  /** `href.replace('#', '')`: the href without its first '#'. */
  function TargetId(href: string): (id: string)
    ensures |href| > 0 && href[0] == '#' ==> id == href[1..]
    ensures '#' !in href ==> id == href
    ensures '#' in href ==> |id| == |href| - 1
    ensures forall i :: 0 <= i < |href| && href[i] == '#' && '#' !in href[..i] ==> id == href[..i] + href[i + 1..]
  {
    RemoveFirst(href, '#')
  }

  /** The header's state and the URLs it has pushed onto the session history. */
  class HeaderState {
    var isScrolled: bool
    var isMobileMenuOpen: bool
    var history: seq<string>

    constructor ()
      ensures !isScrolled && !isMobileMenuOpen && history == []
    {
      isScrolled := false;
      isMobileMenuOpen := false;
      history := [];
    }

    /** `handleScroll`, given `window.scrollY`. */
    method HandleScroll(scrollY: real)
      modifies this
      ensures isScrolled <==> scrollY > ScrollThreshold
      ensures isMobileMenuOpen == old(isMobileMenuOpen) && history == old(history)
    {
      if scrollY > ScrollThreshold {
        isScrolled := true;
      } else {
        isScrolled := false;
      }
    }

    /** The menu button. */
    method ToggleMenu()
      modifies this
      ensures isMobileMenuOpen == !old(isMobileMenuOpen)
      ensures isScrolled == old(isScrolled) && history == old(history)
    {
      isMobileMenuOpen := !isMobileMenuOpen;
    }

    /**
     * `handleNavClick(e, href)`: when the page has an element with the target
     * id, scroll to it, push `href` and close the menu; otherwise do nothing.
     */
    method HandleNavClick(href: string, pageIds: set<string>) returns (scrolledTo: Option<string>)
      modifies this
      ensures isScrolled == old(isScrolled)
      ensures TargetId(href) in pageIds ==>
        scrolledTo == Some(TargetId(href)) && !isMobileMenuOpen && history == old(history) + [href]
      ensures TargetId(href) !in pageIds ==>
        scrolledTo == None && isMobileMenuOpen == old(isMobileMenuOpen) && history == old(history)
    {
      var targetId := RemoveFirst(href, '#');
      if targetId in pageIds {
        scrolledTo := Some(targetId);
        history := history + [href];
        if isMobileMenuOpen {
          isMobileMenuOpen := false;
        }
      } else {
        scrolledTo := None;
      }
    }
  }

  /** The section ids the links name, in link order. */
  const NavTargets: seq<string> :=
    ["hero", "about", "technologies", "documents", "presentations", "milestones", "gallery", "team", "contact"]

  /** Nine links in a fixed order, each href a '#' before the id it targets. */
  lemma NavLinkTargets()
    ensures |NavLinks| == |NavTargets| == 9
    ensures forall k :: 0 <= k < |NavLinks| ==> NavLinks[k].href == "#" + NavTargets[k]
    ensures forall k :: 0 <= k < |NavLinks| ==> TargetId(NavLinks[k].href) == NavTargets[k]
  {
    forall k | 0 <= k < |NavLinks|
      ensures NavLinks[k].href == "#" + NavTargets[k]
      ensures TargetId(NavLinks[k].href) == NavTargets[k]
    {
      var href := NavLinks[k].href;
      assert href == "#" + NavTargets[k];
      assert href[1..] == NavTargets[k];
    }
  }

  /** The links target distinct sections, each of them on the page. */
  lemma NavTargetsDistinctOnPage()
    ensures forall i, j :: 0 <= i < j < |NavTargets| ==> NavTargets[i] != NavTargets[j]
    ensures forall k :: 0 <= k < |NavTargets| ==> NavTargets[k] in PageSectionIds
  {
  }

  /** On the assembled page every navigation link finds its section. */
  lemma EveryNavLinkScrolls(k: int)
    requires 0 <= k < |NavLinks|
    ensures TargetId(NavLinks[k].href) in PageSectionIds
  {
    NavLinkTargets();
    NavTargetsDistinctOnPage();
  }
}

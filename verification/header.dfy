/**
 The header's state and the events that change it: scroll events (run the
 scroll handler), clicks on the menu button, and route changes (the effect
 keyed on the pathname). The link colours are not stored: each render derives
 them from `pathname` and `activeSection` with Nav.LinkColor.
 */
module Header {
  import opened Scroll

  /** The header's state; `pathname` is the router's current path, which the route-change effect watches. */
  datatype State = State(isScrolled: bool, isMenuOpen: bool, activeSection: string, pathname: string)

  datatype Event =
    | Scrolled(scrollY: real, doc: Document)
    | MenuToggled
    | RouteChanged(newPathname: string)

  /** The invariant every reachable state keeps: the active section is one of the listed sections. */
  predicate Valid(s: State) {
    s.activeSection in SectionIds
  }

  /** The state on mount: not scrolled, menu closed, hero in view. */
  function Initial(pathname: string): (s: State)
    ensures Valid(s) && !s.isMenuOpen && !s.isScrolled && s.pathname == pathname
    ensures s.activeSection == "hero"
  {
    State(false, false, InitialSection, pathname)
  }

  /** The mobile menu button's handler. */
  function ToggleMenu(isMenuOpen: bool): bool {
    !isMenuOpen
  }

  /** One event. A route change to the path already shown does not re-run the pathname effect. */
  function Step(s: State, e: Event): (r: State)
    ensures Valid(s) ==> Valid(r)
    ensures r.activeSection == s.activeSection || r.activeSection in SectionIds
    ensures !e.Scrolled? ==> r.isScrolled == s.isScrolled && r.activeSection == s.activeSection
    ensures !e.RouteChanged? ==> r.pathname == s.pathname
    ensures e.Scrolled? ==> r.isMenuOpen == s.isMenuOpen
    ensures e.Scrolled? ==>
      || (exists k :: FirstVisibleAt(e.doc, k) && r.activeSection == SectionIds[k])
      || (NoneVisible(e.doc) && r.activeSection == s.activeSection)
  {
    match e
    case Scrolled(scrollY, doc) =>
      s.(isScrolled := IsScrolled(scrollY), activeSection := NextActiveSection(doc, s.activeSection))
    case MenuToggled =>
      s.(isMenuOpen := ToggleMenu(s.isMenuOpen))
    case RouteChanged(p) =>
      if p == s.pathname then s else s.(pathname := p, isMenuOpen := false)
  }

  /** A run of events from a starting state. */
  function Run(s: State, events: seq<Event>): State
    decreases |events|
  {
    if |events| == 0 then s else Run(Step(s, events[0]), events[1..])
  }

  lemma {:induction false} RunPreservesValid(s: State, events: seq<Event>)
    requires Valid(s)
    ensures Valid(Run(s, events))
    decreases |events|
  {
    if |events| > 0 {
      RunPreservesValid(Step(s, events[0]), events[1..]);
    }
  }

  /** Starting from hero, whatever happens, the active section is one of the seven listed ids. */
  lemma ReachableActiveSectionListed(pathname: string, events: seq<Event>)
    ensures Run(Initial(pathname), events).activeSection in SectionIds
  {
    RunPreservesValid(Initial(pathname), events);
  }

  /** The scrolled flag follows the current offset alone (strictly past 10 pixels), whatever it was before. */
  lemma ScrollFlagTracksOffset(s: State, scrollY: real, doc: Document)
    ensures Step(s, Scrolled(scrollY, doc)).isScrolled <==> scrollY > 10.0
    ensures !Step(s, Scrolled(10.0, doc)).isScrolled
  {
  }

  /** Handling the same scroll event twice leaves the same state as handling it once. */
  lemma ScrollIdempotent(s: State, scrollY: real, doc: Document)
    ensures Step(Step(s, Scrolled(scrollY, doc)), Scrolled(scrollY, doc)) == Step(s, Scrolled(scrollY, doc))
  {
  }

  /** Toggling flips the menu and nothing else; two toggles restore the state. */
  lemma ToggleTwiceRestores(s: State)
    ensures Step(s, MenuToggled).isMenuOpen != s.isMenuOpen
    ensures Step(s, MenuToggled).(isMenuOpen := s.isMenuOpen) == s
    ensures Step(Step(s, MenuToggled), MenuToggled) == s
  {
  }

  /** Moving to another route closes the menu whatever it was; staying on the same path changes nothing. */
  lemma RouteChangeClosesMenu(s: State, p: string)
    ensures p != s.pathname ==> !Step(s, RouteChanged(p)).isMenuOpen && Step(s, RouteChanged(p)).pathname == p
    ensures p == s.pathname ==> Step(s, RouteChanged(p)) == s
    ensures Step(s, RouteChanged(p)).activeSection == s.activeSection
    ensures Step(s, RouteChanged(p)).isScrolled == s.isScrolled
  {
  }

  /** The full-screen mobile menu is shown only when the menu is open on a mobile viewport. */
  predicate OverlayShown(s: State, isMobile: bool) {
    s.isMenuOpen && isMobile
  }

  /** The overlay is hidden on mount and right after moving to another route, on any viewport. */
  lemma OverlayHiddenAfterRouteChange(s: State, p: string, isMobile: bool)
    requires p != s.pathname
    ensures !OverlayShown(Step(s, RouteChanged(p)), isMobile)
    ensures !OverlayShown(Initial(p), isMobile)
  {
  }
}

/**
 Colouring of the header's navigation links. Away from the home page a link
 is highlighted when its path is the current one; on the home page the
 section in view is translated to a path through a fixed table, and the
 matching link takes that section's colour.
 */
module Nav {
  import opened Wrappers
  import opened Search

  /** The link colours the header uses; Inactive is the grey style with a hover highlight. */
  datatype Color = Scarlet | Blue | Green | Inactive

  const HomePath: string := "/"

  /** Section id to navigation path, in the table's declaration order. */
  const NavEntries: seq<(string, string)> :=
    [("hero", "/"), ("services", "/services"), ("about", "/about"), ("contact", "/contact")]

  /** The paths of the four navigation links, in the order they are rendered. */
  const NavLinks: seq<string> := ["/", "/about", "/services", "/contact"]

  /** No two table entries share a path, and no two share a section. */
  lemma NavEntriesInjective()
    ensures forall i, j :: 0 <= i < j < |NavEntries| ==> NavEntries[i].1 != NavEntries[j].1
    ensures forall i, j :: 0 <= i < j < |NavEntries| ==> NavEntries[i].0 != NavEntries[j].0
  {
  }

  /**
   The section whose table entry has this path (the first such entry in
   declaration order), or None when no entry has it.
   */
  function SectionOfPath(path: string): (r: Option<string>)
    ensures r.None? <==> forall i :: 0 <= i < |NavEntries| ==> NavEntries[i].1 != path
    ensures forall i :: 0 <= i < |NavEntries| && NavEntries[i].1 == path ==> r == Some(NavEntries[i].0)
  {
    NavEntriesInjective();
    match FirstIndex(NavEntries, (e: (string, string)) => e.1 == path)
    case Some(i) => Some(NavEntries[i].0)
    case None => None
  }

  /** The colour a section gives its link when it is the one in view; unlisted sections fall back to scarlet. */
  function SectionColor(section: string): Color {
    if section == "services" then Scarlet
    else if section == "about" then Blue
    else if section == "contact" then Green
    else Scarlet
  }

  /** The colour of the link to `path`, given the current pathname and the section in view. */
  function LinkColor(pathname: string, activeSection: string, path: string): (r: Color)
    ensures pathname != HomePath ==> (r != Inactive <==> path == pathname)
    ensures pathname != HomePath && r != Inactive ==> r == Scarlet
    ensures pathname == HomePath ==> (r != Inactive <==> (activeSection, path) in NavEntries)
  {
    if pathname != HomePath then
      if pathname == path then Scarlet else Inactive
    else
      match SectionOfPath(path)
      case Some(section) =>
        if section == activeSection then SectionColor(activeSection) else Inactive
      case None => Inactive
  }

  /** Round trip: looking up the path of any table entry gives back that entry's section. */
  lemma SectionOfPathRoundTrip(i: nat)
    requires i < |NavEntries|
    ensures SectionOfPath(NavEntries[i].1) == Some(NavEntries[i].0)
  {
  }

  /** At most one of the four rendered links is highlighted, on any page and for any section. */
  lemma AtMostOneLinkActive(pathname: string, activeSection: string)
    ensures forall i, j :: 0 <= i < j < |NavLinks| ==>
      LinkColor(pathname, activeSection, NavLinks[i]) == Inactive ||
      LinkColor(pathname, activeSection, NavLinks[j]) == Inactive
  {
  }

  /**
   Some rendered link is highlighted exactly when the current page is one of
   the four links (off the home page) or the section in view has a table
   entry (on the home page).
   */
  lemma SomeLinkActiveIff(pathname: string, activeSection: string)
    ensures (exists i :: 0 <= i < |NavLinks| && LinkColor(pathname, activeSection, NavLinks[i]) != Inactive)
      <==> (if pathname == HomePath
            then exists k :: 0 <= k < |NavEntries| && NavEntries[k].0 == activeSection
            else pathname in NavLinks)
  {
    if pathname == HomePath {
      if k :| 0 <= k < |NavEntries| && NavEntries[k].0 == activeSection {
        assert NavEntries[k].1 in NavLinks;
        var i :| 0 <= i < |NavLinks| && NavLinks[i] == NavEntries[k].1;
        assert LinkColor(pathname, activeSection, NavLinks[i]) != Inactive;
      }
    } else if pathname in NavLinks {
      var i :| 0 <= i < |NavLinks| && NavLinks[i] == pathname;
      assert LinkColor(pathname, activeSection, NavLinks[i]) != Inactive;
    }
  }

  /** On the home page, the team, plans and testimonials sections highlight no link at all. */
  lemma UnmappedSectionsHighlightNothing(activeSection: string, path: string)
    requires activeSection in ["team", "plans", "testimonials"]
    ensures LinkColor(HomePath, activeSection, path) == Inactive
  {
  }

  /**
   On the home page the highlighted link's colour depends on the section
   alone: services scarlet, about blue, contact green, and hero (the one
   remaining table entry) the default scarlet.
   */
  lemma HomeLinkColors()
    ensures LinkColor(HomePath, "hero", "/") == Scarlet
    ensures LinkColor(HomePath, "services", "/services") == Scarlet
    ensures LinkColor(HomePath, "about", "/about") == Blue
    ensures LinkColor(HomePath, "contact", "/contact") == Green
    ensures forall section, path :: LinkColor(HomePath, section, path) != Inactive ==>
      LinkColor(HomePath, section, path) == SectionColor(section)
  {
  }
}

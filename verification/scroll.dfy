/**
 The body of the header's scroll handler: the threshold that switches the
 header to its solid style, and the scan that picks the section in view.
 The browser is abstracted away: the scroll offset is a number and the
 document is a map from element id to that element's bounding box, an id
 without an element simply being absent.
 */
module Scroll {
  import opened Wrappers
  import opened Search

  /** Pixels of vertical scroll after which the header counts as scrolled. */
  const ScrollThreshold: real := 10.0

  /** The horizontal line, in viewport pixels, a section must straddle to be the active one. */
  const ViewportLine: real := 300.0

  /** The page sections, in the order the scan visits them. */
  const SectionIds: seq<string> :=
    ["hero", "services", "about", "team", "plans", "testimonials", "contact"]

  /** The section the header starts with before any scroll event. */
  const InitialSection: string := "hero"

  /** An element's bounding box as seen from the viewport (only its vertical extent matters). */
  datatype Box = Box(top: real, bottom: real)

  /** The document as the scan sees it: an id is either absent or names an element with a box. */
  type Document = map<string, Box>

  predicate IsScrolled(scrollY: real) {
    scrollY > ScrollThreshold
  }

  predicate Straddles(b: Box) {
    b.top <= ViewportLine && b.bottom >= ViewportLine
  }

  /** The element with this id exists and straddles the viewport line. */
  predicate Visible(doc: Document, id: string) {
    id in doc && Straddles(doc[id])
  }

  /** Section number `k` is visible and no section before it in the scan order is. */
  predicate FirstVisibleAt(doc: Document, k: int) {
    && 0 <= k < |SectionIds|
    && Visible(doc, SectionIds[k])
    && forall j :: 0 <= j < k ==> !Visible(doc, SectionIds[j])
  }

  predicate NoneVisible(doc: Document) {
    forall k :: 0 <= k < |SectionIds| ==> !Visible(doc, SectionIds[k])
  }

  lemma SectionIdsDistinct()
    ensures forall i, j :: 0 <= i < j < |SectionIds| ==> SectionIds[i] != SectionIds[j]
  {
  }

  /**
   The active section after one scroll event: the first listed section that
   is visible, or the previous value when none is.
   */
  function NextActiveSection(doc: Document, prev: string): (r: string)
    ensures (exists k :: FirstVisibleAt(doc, k) && r == SectionIds[k]) || (NoneVisible(doc) && r == prev)
    ensures r == prev || r in SectionIds
  {
    match FirstIndex(SectionIds, id => Visible(doc, id))
    case Some(k) =>
      assert FirstVisibleAt(doc, k);
      SectionIds[k]
    case None => prev
  }

  /**
   The scan as the handler runs it: visit the sections in order, skip the
   ones without an element, and stop at the first one straddling the line.
   */
  method ScanSections(doc: Document, prev: string) returns (active: string)
    ensures (exists k :: FirstVisibleAt(doc, k) && active == SectionIds[k]) || (NoneVisible(doc) && active == prev)
    ensures active == NextActiveSection(doc, prev)
  {
    active := prev;
    var i := 0;
    while i < |SectionIds|
      invariant 0 <= i <= |SectionIds|
      invariant active == prev
      invariant forall j :: 0 <= j < i ==> !Visible(doc, SectionIds[j])
    {
      var section := SectionIds[i];
      if section in doc {
        var rect := doc[section];
        var isInViewport := rect.top <= ViewportLine && rect.bottom >= ViewportLine;
        if isInViewport {
          active := section;
          assert FirstVisibleAt(doc, i);
          FirstIndexIsFirstMatch(SectionIds, id => Visible(doc, id), i);
          break;
        }
      }
      i := i + 1;
    }
  }

  /** A visible section hides every later one: the result is never a section after it. */
  lemma LaterMatchIgnored(doc: Document, prev: string, i: nat, j: nat)
    requires i < j < |SectionIds|
    requires Visible(doc, SectionIds[i])
    ensures NextActiveSection(doc, prev) != SectionIds[j]
    ensures exists k :: 0 <= k <= i && NextActiveSection(doc, prev) == SectionIds[k]
  {
    SectionIdsDistinct();
  }

  /** When no section straddles the line (or none exists), the active section is kept. */
  lemma NoMatchKeepsSection(doc: Document, prev: string)
    requires forall id :: id in SectionIds ==> !Visible(doc, id)
    ensures NextActiveSection(doc, prev) == prev
  {
  }

  /** Rescanning the same document changes nothing. */
  lemma ScanIdempotent(doc: Document, prev: string)
    ensures NextActiveSection(doc, NextActiveSection(doc, prev)) == NextActiveSection(doc, prev)
  {
  }

  /** Only the elements with the seven listed ids are looked up; the rest of the document is irrelevant. */
  lemma ScanReadsOnlyListedIds(d1: Document, d2: Document, prev: string)
    requires forall id :: id in SectionIds ==> (id in d1 <==> id in d2)
    requires forall id :: id in SectionIds && id in d1 ==> d1[id] == d2[id]
    ensures NextActiveSection(d1, prev) == NextActiveSection(d2, prev)
  {
    FirstIndexDependsOnlyOnElements(SectionIds, id => Visible(d1, id), id => Visible(d2, id));
  }
}

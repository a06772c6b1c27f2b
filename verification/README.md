# Header navigation state, in Dafny

A model of the navigation logic of the site header (`src/components/Header.tsx`)
of an accounting firm's marketing site. The header keeps three pieces of view
state: whether the page is scrolled past a small threshold, whether the mobile
menu is open, and which page section is in view. From the section and the
current route it derives the colour of each of its four navigation links
(Home, About, Services, Contact).

The project is split by concern:

- `wrappers.dfy` (`Wrappers`): an `Option` type, standing in for `undefined`/`null`.
- `search.dfy` (`Search`): the first-match search that both the section scan
  and the section-to-path lookup perform, with its "first match wins" lemmas.
- `scroll.dfy` (`Scroll`): the scroll handler's body. The 10-pixel threshold,
  the ordered list of seven section ids, and the scan that picks the first
  section whose box straddles the line y = 300. The scan exists both as a loop
  shaped like the handler and as a function, and the two are proved equal.
- `nav.dfy` (`Nav`): the section-to-path table, the section colours and the
  link colour rule. It proves that at most one link is ever highlighted.
- `header.dfy` (`Header`): the header state, its initial value, one step per
  event (scroll, menu click, route change) and runs of events. It proves the
  invariant that the active section is always one of the seven ids.

Modelling choices:

- The browser is a parameter. A scroll event carries the offset (`real`) and
  the document, a map from element id to bounding box; an id without an
  element is absent from the map, as `getElementById` would return null.
- Colours are an enumeration (`Scarlet`, `Blue`, `Green`, `Inactive`), not CSS
  class strings. `Inactive` is the grey style with the scarlet hover.
- The active section is kept as a string, as in the source. That it is always
  one of the seven listed ids is therefore a proved invariant, not a typing fact.
- The route-change effect depends on the pathname alone. A navigation that
  keeps the same pathname does not re-run it, so the menu stays as it was.
  `Header.Step` models this.
- The scarlet fallback at `Header.tsx:75` reads like a default colour for any
  section without its own colour. However, the code highlights a link on the
  home page only when its table section equals the active section. So while team, plans or testimonials is
  in view, no link is highlighted at all, and the default scarlet is reached
  only by hero.

## Model

| member | source | states |
|---|---|---|
| Scroll.IsScrolled | src/components/Header.tsx:16 | the threshold predicate; its meaning (strictly past 10, exactly 10 is false, independent of the previous flag) is proved in Header.ScrollFlagTracksOffset |
| Scroll.Straddles | src/components/Header.tsx:28 | the in-viewport test; Scroll.ScanSections proves the handler's inline `top <= 300 && bottom >= 300` agrees with it |
| Nav.SectionColor | src/components/Header.tsx:72-75 | the home-page colour per section; Nav.HomeLinkColors pins its values for the four table sections |
| Header.ToggleMenu | src/components/Header.tsx:48-50 | negation of the menu flag; Header.ToggleTwiceRestores proves it flips and that two toggles restore the state |
| Header.OverlayShown | src/components/Header.tsx:156 | the overlay condition; Header.OverlayHiddenAfterRouteChange proves it false on mount and after moving to another route |
| Search.FirstIndex | src/components/Header.tsx:24-34 | the result indexes an element satisfying the test with none before it, and is None exactly when no element satisfies it |
| Search.FirstIndexIsFirstMatch | src/components/Header.tsx:29-31 | an index that matches with no earlier match is exactly what the search returns |
| Scroll.SectionIdsDistinct | src/components/Header.tsx:23 | the seven section ids are pairwise distinct |
| Scroll.NextActiveSection | src/components/Header.tsx:23-34 | the new active section is the first listed section whose element exists and straddles y = 300, or the previous value when there is none |
| Scroll.ScanSections | src/components/Header.tsx:23-34 | the handler's loop with its early exit computes the first visible listed section, else keeps the previous one, and agrees with NextActiveSection |
| Scroll.LaterMatchIgnored | src/components/Header.tsx:29-31 | once a section is visible, no later section can become active; the result is that section or an earlier one |
| Scroll.NoMatchKeepsSection | src/components/Header.tsx:24-34 | if no listed element exists or none straddles the line, the active section is unchanged |
| Scroll.ScanIdempotent | src/components/Header.tsx:24-34 | scanning the same document again does not change the result |
| Scroll.ScanReadsOnlyListedIds | src/components/Header.tsx:23-25 | two documents that agree on the seven listed ids yield the same active section |
| Nav.NavEntriesInjective | src/components/Header.tsx:53-58 | no two entries of the section-to-path table share a path or a section |
| Nav.SectionOfPath | src/components/Header.tsx:68 | the reverse lookup is None exactly when no entry has the path, and otherwise returns that entry's section |
| Nav.SectionOfPathRoundTrip | src/components/Header.tsx:53-68 | looking up the path of any table entry gives back its section |
| Nav.LinkColor | src/components/Header.tsx:61-79 | off the home page a link is highlighted (scarlet) exactly when its path is the current one; on the home page exactly when (active section, path) is a table entry |
| Nav.AtMostOneLinkActive | src/components/Header.tsx:61-79 | for any pathname and section, at most one of the four rendered links is highlighted |
| Nav.SomeLinkActiveIff | src/components/Header.tsx:61-79 | some link is highlighted exactly when the current path is one of the four links (off home) or the active section has a table entry (on home) |
| Nav.UnmappedSectionsHighlightNothing | src/components/Header.tsx:68-78 | on the home page, with team, plans or testimonials in view, every link is inactive |
| Nav.HomeLinkColors | src/components/Header.tsx:70-75 | on the home page the highlight colour depends only on the section: services scarlet, about blue, contact green, hero the default scarlet |
| Header.Initial | src/components/Header.tsx:8-10 | the header starts not scrolled, with the menu closed and the active section exactly "hero" |
| Header.Step | src/components/Header.tsx:14-50 | a scroll event makes the first listed section straddling y = 300 active, or keeps the previous one when none does; every event keeps the active section among the listed ids; each event changes only the fields its handler sets |
| Header.RunPreservesValid | src/components/Header.tsx:10-34 | a run of events from a state whose active section is listed keeps it listed |
| Header.ReachableActiveSectionListed | src/components/Header.tsx:10-34 | from the initial hero, after any events, the active section is one of the seven ids |
| Header.ScrollFlagTracksOffset | src/components/Header.tsx:16-20 | after a scroll event the scrolled flag holds exactly when the offset exceeds 10, whatever it was before; an offset of exactly 10 gives false |
| Header.ScrollIdempotent | src/components/Header.tsx:15-35 | handling the same scroll event twice gives the same state as once |
| Header.ToggleTwiceRestores | src/components/Header.tsx:48-50 | a toggle flips the menu and nothing else, and two toggles restore the state |
| Header.RouteChangeClosesMenu | src/components/Header.tsx:43-46 | moving to another path closes the menu whatever it was; the same path changes nothing; scroll state and active section are untouched |
| Header.OverlayHiddenAfterRouteChange | src/components/Header.tsx:156 | the mobile overlay is hidden on mount and right after moving to another route, on any viewport |

## Left out

- Event-listener registration and removal, and effect scheduling (lines 14-15 and 37-41). The model runs the handler bodies as events.
- Layout reads (`getElementById`, `getBoundingClientRect`) are replaced by the document parameter. Boxes are given, not measured.
- The JSX markup, class strings, icons, the `useMobile` hook and the router. The viewport kind is a boolean parameter and the pathname is part of the state.
- A remount of the header (for example, if a page renders its own header) restarts from `Header.Initial`. Whether that happens on navigation depends on the router setup, which is not part of this model.
- `src/components/AboutSection.tsx`: an intersection-observer callback that schedules staggered timers and edits element classes. It consists of browser timers and DOM side effects.
- Static contact details, social links and marketing copy are content, not behaviour.

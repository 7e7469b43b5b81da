/** The decision logic of the guide page (src/pages/GuideSection.tsx): which
    section and lesson a route shows, the canonical redirect, previous and
    next lessons, where "mark complete" leads, what is recorded as last
    visited, and which keyboard shortcuts are shown for the selected
    operating system. The catalog is a parameter; the progress hook and the
    router are outside the model, so the page records the calls it makes
    into them. */
module GuideSectionPage {
  import opened Types

  // ----- Route parameters and paths -----

  /** A parameter as the router hands it over: absent, or the path segment. */
  type Param = Option<string>

  /** JavaScript truthiness of a parameter: present and not "". */
  predicate Present(p: Param) {
    p.Some? && p.value != ""
  }

  /** `x.id === p`: an absent parameter equals no id. */
  predicate IdMatches(id: string, p: Param) {
    p.Some? && p.value == id
  }

  /** `${p}` inside a template literal. */
  function Text(p: Param): string {
    match p
    case Some(s) => s
    case None => "undefined"
  }

  datatype Route = Route(sectionId: Param, subsectionId: Param)

  /** A destination handed to `navigate` or to a `Link`. */
  datatype Path =
    | Home                                              // "/"
    | SectionPath(sectionId: string)                    // "/guide/{sectionId}"
    | SubsectionPath(sectionId: string, subsectionId: string)  // "/guide/{sectionId}/{subsectionId}"

  /** The parameters the router reads back from a guide path. */
  function RouteOf(p: Path): Route
    requires !p.Home?
  {
    match p
    case SectionPath(s) => Route(Some(s), None)
    case SubsectionPath(s, ss) => Route(Some(s), Some(ss))
  }

  // ----- Lookup by id: `find` and `findIndex` -----

  function SectionId(s: GuideSection): string { s.id }

  function SubsectionId(ss: GuideSubsection): string { ss.id }

  /** `i` is the first position whose id equals the parameter. */
  ghost predicate IsFirstMatch<T>(xs: seq<T>, key: T -> string, p: Param, i: int) {
    && 0 <= i < |xs|
    && IdMatches(key(xs[i]), p)
    && forall j :: 0 <= j < i ==> !IdMatches(key(xs[j]), p)
  }

  /** `xs.findIndex((x) => x.id === p)`: the first match, or -1. */
  function FindIndex<T>(xs: seq<T>, key: T -> string, p: Param): (r: int)
    ensures -1 <= r < |xs|
    ensures r == -1 <==> forall j :: 0 <= j < |xs| ==> !IdMatches(key(xs[j]), p)
    ensures r != -1 ==> IsFirstMatch(xs, key, p, r)
  {
    if xs == [] then -1
    else if IdMatches(key(xs[0]), p) then 0
    else
      var r := FindIndex(xs[1..], key, p);
      if r == -1 then -1 else r + 1
  }

  /** `xs.find((x) => x.id === p)`: the first element whose id matches, or
      nothing. */
  function Find<T>(xs: seq<T>, key: T -> string, p: Param): (r: Option<T>)
    ensures r.None? <==> forall j :: 0 <= j < |xs| ==> !IdMatches(key(xs[j]), p)
    ensures r.Some? ==> exists i :: IsFirstMatch(xs, key, p, i) && r.value == xs[i]
  {
    if xs == [] then None
    else if IdMatches(key(xs[0]), p) then
      assert IsFirstMatch(xs, key, p, 0);
      Some(xs[0])
    else
      assert forall i :: IsFirstMatch(xs[1..], key, p, i) ==> IsFirstMatch(xs, key, p, i + 1);
      Find(xs[1..], key, p)
  }

  /** `find` returns the element at the position `findIndex` reports, so the
      index computed for a found element is a valid one. */
  lemma {:induction false} FindAgreesWithFindIndex<T>(xs: seq<T>, key: T -> string, p: Param)
    ensures Find(xs, key, p) == if FindIndex(xs, key, p) == -1 then None else Some(xs[FindIndex(xs, key, p)])
  {
    if xs != [] && !IdMatches(key(xs[0]), p) {
      FindAgreesWithFindIndex(xs[1..], key, p);
    }
  }

  /** With distinct ids, looking up the id of the element at `k` finds `k`. */
  lemma FindIndexOfDistinct<T>(xs: seq<T>, key: T -> string, k: int)
    requires 0 <= k < |xs|
    requires forall i, j :: 0 <= i < j < |xs| ==> key(xs[i]) != key(xs[j])
    ensures FindIndex(xs, key, Some(key(xs[k]))) == k
  {
  }

  /** The first element always has the first position of its own id. */
  lemma FindIndexOfFirst<T>(xs: seq<T>, key: T -> string)
    requires |xs| > 0
    ensures FindIndex(xs, key, Some(key(xs[0]))) == 0
  {
  }

  // ----- Resolving a route -----

  /** `section.subsections`, an absent list read as an empty one. */
  function SubsectionsOf(s: GuideSection): seq<GuideSubsection> {
    s.subsections.GetOr([])
  }

  /** Position of the requested section in the catalog (`findIndex`), or -1. */
  function SectionIndex(catalog: seq<GuideSection>, route: Route): int {
    FindIndex(catalog, SectionId, route.sectionId)
  }

  /** The redirect effect (lines 21-25): the path it navigates to, replacing
      the history entry, or nothing. It fires exactly when the section exists,
      no lesson was named and the section has lessons; the target is the
      section's first lesson. */
  function RedirectTarget(catalog: seq<GuideSection>, route: Route): (r: Option<Path>)
    ensures var i := SectionIndex(catalog, route);
      r.Some? <==> (i != -1 && !Present(route.subsectionId) && |SubsectionsOf(catalog[i])| > 0)
    ensures var i := SectionIndex(catalog, route);
      r.Some? ==> i != -1 && r.value == SubsectionPath(catalog[i].id, SubsectionsOf(catalog[i])[0].id)
  {
    FindAgreesWithFindIndex(catalog, SectionId, route.sectionId);
    match Find(catalog, SectionId, route.sectionId)
    case None => None
    case Some(section) =>
      if !Present(route.subsectionId) && |SubsectionsOf(section)| > 0 then
        Some(SubsectionPath(Text(route.sectionId), SubsectionsOf(section)[0].id))
      else
        None
  }

  /** What the page renders for a route. */
  datatype View =
    | NotFound   // "Section not found" with a link to "/"
    | Loading    // placeholder shown while the redirect is under way
    | Lesson(section: GuideSection, subsection: GuideSubsection, index: int,
             prev: Option<GuideSubsection>, next: Option<GuideSubsection>)
    | Overview(section: GuideSection)

  /** Lines 17-18 and 36-63: the view chosen for a route. A missing section is
      the terminal not-found view; the loading view coincides with the
      redirect; a lesson carries a valid index of its section's lessons and
      neighbours that exist exactly when the index is not at an end. */
  function Resolve(catalog: seq<GuideSection>, route: Route): (v: View)
    ensures v.NotFound? <==> SectionIndex(catalog, route) == -1
    ensures v.Loading? <==> RedirectTarget(catalog, route).Some?
    ensures !v.NotFound? && !v.Loading? ==> v.section == catalog[SectionIndex(catalog, route)]
    ensures v.Lesson? ==>
      var subs := SubsectionsOf(v.section);
      && v.section.subsections.Some?
      && Present(route.subsectionId)
      && IsFirstMatch(subs, SubsectionId, route.subsectionId, v.index)
      && v.subsection == subs[v.index]
      && (v.prev.None? <==> v.index == 0)
      && (v.prev.Some? ==> v.prev.value == subs[v.index - 1])
      && (v.next.None? <==> v.index == |subs| - 1)
      && (v.next.Some? ==> v.next.value == subs[v.index + 1])
    ensures v.Overview? <==>
      SectionIndex(catalog, route) != -1 && RedirectTarget(catalog, route).None? &&
      forall j :: 0 <= j < |SubsectionsOf(catalog[SectionIndex(catalog, route)])| ==>
        !IdMatches(SubsectionsOf(catalog[SectionIndex(catalog, route)])[j].id, route.subsectionId)
  {
    FindAgreesWithFindIndex(catalog, SectionId, route.sectionId);
    match Find(catalog, SectionId, route.sectionId)
    case None => NotFound
    case Some(section) =>
      var subs := SubsectionsOf(section);
      if !Present(route.subsectionId) && |subs| > 0 then
        Loading
      else
        FindAgreesWithFindIndex(subs, SubsectionId, route.subsectionId);
        match Find(subs, SubsectionId, route.subsectionId)
        case None => Overview(section)
        case Some(subsection) =>
          var k := FindIndex(subs, SubsectionId, route.subsectionId);
          Lesson(section, subsection, k,
                 if k > 0 then Some(subs[k - 1]) else None,
                 if k < |subs| - 1 then Some(subs[k + 1]) else None)
  }

  // ----- Where the lesson page leads -----

  /** `handleMarkComplete`'s destination (lines 80-99): the next lesson of this
      section; else the next section of the catalog; else home. */
  function CompletionTarget(catalog: seq<GuideSection>, route: Route, next: Option<GuideSubsection>): (r: Path)
    ensures r.SubsectionPath? <==> next.Some?
    ensures r.SectionPath? <==> next.None? && SectionIndex(catalog, route) < |catalog| - 1
    ensures r.Home? <==> next.None? && SectionIndex(catalog, route) >= |catalog| - 1
    ensures next.Some? ==> r == SubsectionPath(Text(route.sectionId), next.value.id)
    ensures r.SectionPath? ==> r.sectionId == catalog[SectionIndex(catalog, route) + 1].id
  {
    match next
    case Some(n) => SubsectionPath(Text(route.sectionId), n.id)
    case None =>
      var i := SectionIndex(catalog, route);
      if i < |catalog| - 1 then SectionPath(catalog[i + 1].id) else Home
  }

  /** The footer's backward link (lines 250-259), if shown. */
  function FooterPrev(route: Route, prev: Option<GuideSubsection>): (r: Option<Path>)
    ensures r.None? <==> prev.None?
    ensures prev.Some? ==> r == Some(SubsectionPath(Text(route.sectionId), prev.value.id))
  {
    match prev
    case Some(p) => Some(SubsectionPath(Text(route.sectionId), p.id))
    case None => None
  }

  /** The footer's forward link (lines 260-274): the next lesson, else home. */
  function FooterNext(route: Route, next: Option<GuideSubsection>): (r: Path)
    ensures r.Home? <==> next.None?
    ensures next.Some? ==> r == SubsectionPath(Text(route.sectionId), next.value.id)
  {
    match next
    case Some(n) => SubsectionPath(Text(route.sectionId), n.id)
    case None => Home
  }

  /** Catalog shape the navigation relies on: section ids distinct and
      non-empty, lesson ids distinct and non-empty within each section. */
  ghost predicate WellFormed(catalog: seq<GuideSection>) {
    && (forall i, j :: 0 <= i < j < |catalog| ==> catalog[i].id != catalog[j].id)
    && (forall i :: 0 <= i < |catalog| ==> catalog[i].id != "" && DistinctLessons(SubsectionsOf(catalog[i])))
  }

  ghost predicate DistinctLessons(subs: seq<GuideSubsection>) {
    && (forall i, j :: 0 <= i < j < |subs| ==> subs[i].id != subs[j].id)
    && (forall i :: 0 <= i < |subs| ==> subs[i].id != "")
  }

  /** The redirect lands on the first lesson of the same section and does not
      fire again there; the lesson is then what is recorded as last visited.
      Only the first lesson's id must be non-empty: the target carries the
      same section parameter, so `find` picks the same section even when
      section ids repeat. */
  lemma RedirectLandsOnFirstLesson(catalog: seq<GuideSection>, route: Route)
    requires RedirectTarget(catalog, route).Some?
    requires SubsectionsOf(catalog[SectionIndex(catalog, route)])[0].id != ""
    ensures var t := RedirectTarget(catalog, route).value;
      var i := SectionIndex(catalog, route);
      var w := Resolve(catalog, RouteOf(t));
      && w.Lesson? && w.section == catalog[i] && w.index == 0 && w.prev.None?
      && RedirectTarget(catalog, RouteOf(t)).None?
      && LastVisitedId(RouteOf(t)) == Some(SubsectionsOf(catalog[i])[0].id)
  {
  }

  /** From a lesson that has a successor, "mark complete" opens that
      successor: same section, next index. */
  lemma CompletionOpensNextLesson(catalog: seq<GuideSection>, route: Route)
    requires WellFormed(catalog)
    requires Resolve(catalog, route).Lesson? && Resolve(catalog, route).next.Some?
    ensures var v := Resolve(catalog, route);
      var w := Resolve(catalog, RouteOf(CompletionTarget(catalog, route, v.next)));
      w.Lesson? && w.section == v.section && w.index == v.index + 1
  {
  }

  /** From the last lesson of a section that is not the last one, "mark
      complete" opens the next section, which redirects to its first lesson
      when it has lessons and shows its overview otherwise. */
  lemma CompletionOpensNextSection(catalog: seq<GuideSection>, route: Route)
    requires WellFormed(catalog)
    requires Resolve(catalog, route).Lesson? && Resolve(catalog, route).next.None?
    requires SectionIndex(catalog, route) < |catalog| - 1
    ensures var i := SectionIndex(catalog, route);
      var t := CompletionTarget(catalog, route, None);
      var w := Resolve(catalog, RouteOf(t));
      && t == SectionPath(catalog[i + 1].id)
      && (|SubsectionsOf(catalog[i + 1])| > 0 ==>
            && w.Loading?
            && RedirectTarget(catalog, RouteOf(t)) == Some(SubsectionPath(catalog[i + 1].id, SubsectionsOf(catalog[i + 1])[0].id))
            && Resolve(catalog, RouteOf(RedirectTarget(catalog, RouteOf(t)).value)).Lesson?
            && Resolve(catalog, RouteOf(RedirectTarget(catalog, RouteOf(t)).value)).section == catalog[i + 1]
            && Resolve(catalog, RouteOf(RedirectTarget(catalog, RouteOf(t)).value)).index == 0)
      && (|SubsectionsOf(catalog[i + 1])| == 0 ==> w == Overview(catalog[i + 1]))
  {
  }

  /** The footer's forward link agrees with "mark complete" inside a section,
      but at a section's last lesson it leads home, while "mark complete"
      leads home only from the catalog's last section. */
  lemma FooterStaysInSection(catalog: seq<GuideSection>, route: Route)
    requires Resolve(catalog, route).Lesson?
    ensures var v := Resolve(catalog, route);
      && (v.next.Some? ==> FooterNext(route, v.next) == CompletionTarget(catalog, route, v.next))
      && (v.next.None? ==> FooterNext(route, v.next) == Home)
      && (v.next.None? ==> (CompletionTarget(catalog, route, v.next) == Home <==> SectionIndex(catalog, route) == |catalog| - 1))
  {
  }

  /** The backward link opens the previous lesson of the same section. */
  lemma PrevLinkOpensPreviousLesson(catalog: seq<GuideSection>, route: Route)
    requires WellFormed(catalog)
    requires Resolve(catalog, route).Lesson? && Resolve(catalog, route).prev.Some?
    ensures var v := Resolve(catalog, route);
      var w := Resolve(catalog, RouteOf(FooterPrev(route, v.prev).value));
      w.Lesson? && w.section == v.section && w.index == v.index - 1
  {
  }

  // ----- Last visited -----

  /** The last-visited effect (lines 28-34): the id it records, if any — the
      lesson id when one is given, else the section id when that is given. */
  function LastVisitedId(route: Route): (r: Option<string>)
    ensures r.Some? <==> Present(route.subsectionId) || Present(route.sectionId)
    ensures r.Some? ==> r.value != ""
    ensures Present(route.subsectionId) ==> r == route.subsectionId
    ensures !Present(route.subsectionId) && Present(route.sectionId) ==> r == route.sectionId
  {
    if Present(route.subsectionId) then route.subsectionId
    else if Present(route.sectionId) then route.sectionId
    else None
  }

  // ----- Shortcuts for the selected operating system -----

  /** Line 72: "all", or the selected system; a shortcut without a platform is
      never shown. */
  predicate Visible(s: Shortcut, os: OperatingSystem) {
    s.platform == Some(All) || s.platform == Some(Only(os))
  }

  /** `shortcuts.filter(...)`: the visible shortcuts, in their order. */
  function KeepVisible(xs: seq<Shortcut>, os: OperatingSystem): (r: seq<Shortcut>)
    ensures |r| <= |xs|
    ensures forall s :: s in r <==> s in xs && Visible(s, os)
  {
    if xs == [] then []
    else (if Visible(xs[0], os) then [xs[0]] else []) + KeepVisible(xs[1..], os)
  }

  /** `filteredShortcuts` (lines 69-74): an absent list shows nothing. */
  function FilterShortcuts(shortcuts: Option<seq<Shortcut>>, os: OperatingSystem): (r: seq<Shortcut>)
    ensures shortcuts.None? ==> r == []
    ensures forall s :: s in r <==> shortcuts.Some? && s in shortcuts.value && Visible(s, os)
  {
    match shortcuts
    case None => []
    case Some(xs) => KeepVisible(xs, os)
  }

  /** Filtering keeps the original order: it distributes over concatenation. */
  lemma {:induction false} KeepVisibleAppend(xs: seq<Shortcut>, ys: seq<Shortcut>, os: OperatingSystem)
    ensures KeepVisible(xs + ys, os) == KeepVisible(xs, os) + KeepVisible(ys, os)
    decreases |xs|
  {
    if xs != [] {
      assert (xs + ys)[0] == xs[0] && (xs + ys)[1..] == xs[1..] + ys;
      KeepVisibleAppend(xs[1..], ys, os);
    } else {
      assert xs + ys == ys;
    }
  }

  /** A list whose shortcuts are all visible is shown unchanged. */
  lemma {:induction false} KeepVisibleAllVisible(xs: seq<Shortcut>, os: OperatingSystem)
    requires forall k :: 0 <= k < |xs| ==> Visible(xs[k], os)
    ensures KeepVisible(xs, os) == xs
    decreases |xs|
  {
    if xs != [] {
      KeepVisibleAllVisible(xs[1..], os);
    }
  }

  /** Filtering an already filtered list changes nothing. */
  lemma KeepVisibleIdempotent(xs: seq<Shortcut>, os: OperatingSystem)
    ensures KeepVisible(KeepVisible(xs, os), os) == KeepVisible(xs, os)
  {
    var r := KeepVisible(xs, os);
    forall k | 0 <= k < |r| ensures Visible(r[k], os) {
      assert r[k] in r;
    }
    KeepVisibleAllVisible(r, os);
  }

  /** With mac selected, [all, windows, mac] shows the first and the third. */
  lemma ShortcutFilterExample(a: Shortcut, w: Shortcut, m: Shortcut)
    requires a.platform == Some(All) && w.platform == Some(Only(Windows)) && m.platform == Some(Only(Mac))
    ensures FilterShortcuts(Some([a, w, m]), Mac) == [a, m]
  {
    assert [a, w, m][1..] == [w, m] && [w, m][1..] == [m] && [m][1..] == [];
    assert KeepVisible([m], Mac) == [m];
    assert KeepVisible([w, m], Mac) == [m];
    assert KeepVisible([a, w, m], Mac) == [a] + [m];
  }

  // ----- The page as an object acting on the progress hook and the router -----

  /** A call into the progress hook. */
  datatype ProgressCall =
    | MarkAsCompleted(id: string)
    | MarkAsIncomplete(id: string)
    | ToggleBookmark(id: string)
    | SetLastVisited(id: string)

  /** A call of `navigate`; `replace` is the history-replacing option. */
  datatype Navigation = Navigation(to: Path, replace: bool)

  function RedirectCalls(t: Option<Path>): seq<Navigation> {
    match t
    case Some(p) => [Navigation(p, true)]
    case None => []
  }

  function LastVisitedCalls(id: Option<string>): seq<ProgressCall> {
    match id
    case Some(x) => [SetLastVisited(x)]
    case None => []
  }

  /** One mounted page: the catalog and route it was given, and the calls it
      has made so far into the progress hook and the router, oldest first. */
  class GuidePage {
    const catalog: seq<GuideSection>
    const route: Route
    var progressCalls: seq<ProgressCall>
    var navigations: seq<Navigation>

    constructor (catalog: seq<GuideSection>, route: Route)
      ensures this.catalog == catalog && this.route == route
      ensures progressCalls == [] && navigations == []
    {
      this.catalog := catalog;
      this.route := route;
      progressCalls := [];
      navigations := [];
    }

    /** Lines 21-25. */
    method RunRedirectEffect()
      modifies this
      ensures progressCalls == old(progressCalls)
      ensures navigations == old(navigations) + RedirectCalls(RedirectTarget(catalog, route))
    {
      var section := Find(catalog, SectionId, route.sectionId);
      if section.Some? && !Present(route.subsectionId) && |SubsectionsOf(section.value)| > 0 {
        navigations := navigations + [Navigation(SubsectionPath(Text(route.sectionId), SubsectionsOf(section.value)[0].id), true)];
      }
    }

    /** Lines 28-34. */
    method RunLastVisitedEffect()
      modifies this
      ensures navigations == old(navigations)
      ensures progressCalls == old(progressCalls) + LastVisitedCalls(LastVisitedId(route))
    {
      if Present(route.subsectionId) {
        progressCalls := progressCalls + [SetLastVisited(route.subsectionId.value)];
      } else if Present(route.sectionId) {
        progressCalls := progressCalls + [SetLastVisited(route.sectionId.value)];
      }
    }

    /** `handleMarkComplete` (lines 77-100): record the lesson as completed,
        then navigate to exactly one destination. */
    method HandleMarkComplete()
      requires Resolve(catalog, route).Lesson?
      modifies this
      ensures progressCalls == old(progressCalls) + [MarkAsCompleted(Resolve(catalog, route).subsection.id)]
      ensures navigations == old(navigations) + [Navigation(CompletionTarget(catalog, route, Resolve(catalog, route).next), false)]
    {
      var view := Resolve(catalog, route);
      progressCalls := progressCalls + [MarkAsCompleted(view.subsection.id)];
      if view.next.Some? {
        navigations := navigations + [Navigation(SubsectionPath(Text(route.sectionId), view.next.value.id), false)];
      } else {
        var currentSectionIndex := FindIndex(catalog, SectionId, route.sectionId);
        if currentSectionIndex < |catalog| - 1 {
          var nextSection := catalog[currentSectionIndex + 1];
          navigations := navigations + [Navigation(SectionPath(nextSection.id), false)];
        } else {
          navigations := navigations + [Navigation(Home, false)];
        }
      }
    }

    /** The completion button (line 130): undo when completed, else complete
        and advance. */
    method HandleCompleteClick(completed: bool)
      requires Resolve(catalog, route).Lesson?
      modifies this
      ensures completed ==> progressCalls == old(progressCalls) + [MarkAsIncomplete(Resolve(catalog, route).subsection.id)]
      ensures completed ==> navigations == old(navigations)
      ensures !completed ==> progressCalls == old(progressCalls) + [MarkAsCompleted(Resolve(catalog, route).subsection.id)]
      ensures !completed ==> navigations == old(navigations) + [Navigation(CompletionTarget(catalog, route, Resolve(catalog, route).next), false)]
    {
      if completed {
        progressCalls := progressCalls + [MarkAsIncomplete(Resolve(catalog, route).subsection.id)];
      } else {
        HandleMarkComplete();
      }
    }

    /** The bookmark button (line 123). */
    method HandleBookmarkClick()
      requires Resolve(catalog, route).Lesson?
      modifies this
      ensures progressCalls == old(progressCalls) + [ToggleBookmark(Resolve(catalog, route).subsection.id)]
      ensures navigations == old(navigations)
    {
      progressCalls := progressCalls + [ToggleBookmark(Resolve(catalog, route).subsection.id)];
    }
  }
}

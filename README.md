# Guide browser: navigation and preferences, in Dafny

This project models the decision logic of a client-side guide browser. The
guide is a catalog of sections, and each section has an optional ordered list
of lessons (subsections). The model covers three parts:

- `Types` (`types.dfy`): the records and string unions of `src/types/index.ts`
  as datatypes. An optional property is an `Option`. The union
  `'windows' | 'mac' | 'linux' | 'all'` is `Platform = Only(os) | All`, so an
  operating system can never be "all".
- `Preferences` (`preferences.dfy`): the preferences hook of
  `src/hooks/usePreferences.ts`. It covers user-agent detection (lower-case,
  then look for "mac" before "linux", else Windows), the default record, and
  the four one-field mutators as record updates. `PreferencesStore` is a class
  holding the stored record and a ghost flag for the document's "dark" class.
  Every load and every mutation keeps that flag equal to `darkMode`.
- `GuideSectionPage` (`guide_section.dfy`): the guide page of
  `src/pages/GuideSection.tsx`. It covers:
  - first-match lookup (`find`, `findIndex`);
  - the view chosen for a route: not found, loading during the canonical
    redirect, a lesson with its previous and next lessons, or a section
    overview;
  - the redirect itself;
  - the destination of "mark complete" and the footer links;
  - the id recorded as last visited;
  - the shortcut filter for the selected operating system.

  `GuidePage` is a class for one mounted page. It keeps two logs: the calls
  it makes to the progress hook, and the navigations it asks the router for.
  Each log is in call order. The order between the two logs is not kept.

Route parameters are `Option<string>`. The page tests them the way JavaScript
does: a parameter is "present" only when it is defined and not empty. A lookup
`x.id === p` never matches an absent parameter. An absent parameter inside a
template literal prints as `undefined`.

Proved properties include:
- `find` and `findIndex` agree, so the lesson index is always valid.
- The redirect fires exactly when the loading view is shown. It lands on the
  section's first lesson. When that lesson's id is non-empty, the redirect
  does not fire again there.
- "Mark complete" opens the next lesson of the section. At a section's last
  lesson it opens the next section's route. For a well-formed catalog, that
  route redirects to the section's first lesson when it has lessons, and
  shows its overview otherwise. After the catalog's last section, "mark
  complete" goes home.
- The footer's forward link goes home at every section's last lesson.
- The shortcut filter keeps exactly the visible shortcuts, in their original
  order.
- Each mutator changes only its own field. The two toggles are involutions,
  the two setters are idempotent, and mutators of different fields commute.

Three points of the code that the model follows as written:
- From a section's last lesson, "mark complete" navigates to the next
  section's route `/guide/{id}` (src/pages/GuideSection.tsx:91), not to that
  section's first lesson. When that section has lessons, its first lesson is
  reached through the route's redirect. When it has none (`subsections` is
  optional, src/types/index.ts:6), the route shows the section overview.
  `CompletionOpensNextSection` proves both cases for well-formed catalogs.
- At a section's last lesson the footer's forward link is "Back to Home", a
  link to `/` (src/pages/GuideSection.tsx:268-273). It does not cross into
  the next section.
- Completed and bookmarked ids are `string[]` arrays
  (src/types/index.ts:31-32), so the types do not rule out duplicates.

## Model

| member | source | states |
|---|---|---|
| `Preferences.ToLower` | src/hooks/usePreferences.ts:7 | the lower-cased user agent has the same length, maps each letter A–Z to its lower-case form and contains no capital A–Z |
| `Preferences.ToLowerIdempotent` | src/hooks/usePreferences.ts:7 | lower-casing an already lower-cased string changes nothing |
| `Preferences.Includes` | src/hooks/usePreferences.ts:8-9 | `includes` is true exactly when the pattern occurs at some position of the string |
| `Preferences.DetectOS` | src/hooks/usePreferences.ts:6-11 | mac iff "mac" occurs in the lower-cased user agent; linux iff "mac" does not and "linux" does; windows iff neither occurs |
| `Preferences.DetectOSIgnoresCase` | src/hooks/usePreferences.ts:6-11 | detection gives the same answer for a user agent and its lower-cased form |
| `Preferences.MacBeforeLinux` | src/hooks/usePreferences.ts:8-9 | a user agent containing both "mac" and "linux" is classified as mac |
| `Preferences.DetectOSLinuxWithoutM` | src/hooks/usePreferences.ts:8-9 | a user agent without the letter m that contains "linux" in any case is classified as linux |
| `Preferences.DetectOSLinuxExample` | src/hooks/usePreferences.ts:9 | "X11; Linux" is detected as linux |
| `Preferences.DetectOSMacExample` | src/hooks/usePreferences.ts:8 | "Mac; Linux" is detected as mac |
| `Preferences.DetectOSWindowsExample` | src/hooks/usePreferences.ts:10 | an unrecognised user agent ("Win NT") defaults to windows |
| `Preferences.InitialPreferences` | src/hooks/usePreferences.ts:13-18 | the defaults take dark mode from the colour-scheme flag, with font size medium, sidebar expanded and the detected operating system |
| `Preferences.WithDarkModeToggled` | src/hooks/usePreferences.ts:35-37 | dark mode is negated and every other field is unchanged |
| `Preferences.WithFontSize` | src/hooks/usePreferences.ts:39-41 | font size becomes the given size and every other field is unchanged |
| `Preferences.WithSidebarToggled` | src/hooks/usePreferences.ts:43-45 | the sidebar flag is negated and every other field is unchanged |
| `Preferences.WithOperatingSystem` | src/hooks/usePreferences.ts:47-49 | the operating system becomes the given one and every other field is unchanged |
| `Preferences.ToggleDarkModeInvolution` | src/hooks/usePreferences.ts:35-37 | toggling dark mode twice restores the record |
| `Preferences.ToggleSidebarInvolution` | src/hooks/usePreferences.ts:43-45 | toggling the sidebar twice restores the record |
| `Preferences.SetFontSizeIdempotent` | src/hooks/usePreferences.ts:39-41 | setting the same font size twice equals setting it once |
| `Preferences.SetOperatingSystemIdempotent` | src/hooks/usePreferences.ts:47-49 | setting the same operating system twice equals setting it once |
| `Preferences.Apply` | src/hooks/usePreferences.ts:35-49 | any mutator call leaves every field except its own unchanged |
| `Preferences.UpdatesCommute` | src/hooks/usePreferences.ts:35-49 | two mutators of different fields give the same record in either order |
| `Preferences.DarkModeParity` | src/hooks/usePreferences.ts:35-37 | after any sequence of mutator calls, dark mode is flipped iff it was toggled an odd number of times |
| `Preferences.UntouchedFieldKept` | src/hooks/usePreferences.ts:35-49 | a sequence of calls none of which targets a field leaves that field as it was |
| `Preferences.PreferencesStore.constructor` | src/hooks/usePreferences.ts:20-33 | loading yields the stored record if there is one, else the defaults, and the dark class then equals dark mode |
| `Preferences.PreferencesStore.SyncDarkClass` | src/hooks/usePreferences.ts:26-33 | the effect adds the dark class when dark mode is on and removes it otherwise |
| `Preferences.PreferencesStore.ToggleDarkMode` | src/hooks/usePreferences.ts:35-37 | the new record is the old one with dark mode toggled, and the dark class follows it |
| `Preferences.PreferencesStore.SetFontSize` | src/hooks/usePreferences.ts:39-41 | the new record is the old one with the given font size, and the dark class still equals dark mode |
| `Preferences.PreferencesStore.ToggleSidebar` | src/hooks/usePreferences.ts:43-45 | the new record is the old one with the sidebar toggled, and the dark class still equals dark mode |
| `Preferences.PreferencesStore.SetOperatingSystem` | src/hooks/usePreferences.ts:47-49 | the new record is the old one with the given operating system, and the dark class still equals dark mode |
| `GuideSectionPage.FindIndex` | src/pages/GuideSection.tsx:61 | `findIndex` returns -1 iff no id matches, else the first matching position |
| `GuideSectionPage.Find` | src/pages/GuideSection.tsx:17-18 | `find` returns nothing iff no id matches, else the element at the first position whose id matches |
| `GuideSectionPage.FindAgreesWithFindIndex` | src/pages/GuideSection.tsx:60-61 | the element `find` returns is the one at the position `findIndex` returns, so a found lesson has a valid index |
| `GuideSectionPage.FindIndexOfDistinct` | src/pages/GuideSection.tsx:61 | when ids are distinct, `findIndex` of the id at position k is k |
| `GuideSectionPage.FindIndexOfFirst` | src/pages/GuideSection.tsx:61 | `findIndex` of the first element's id is 0, even when ids repeat |
| `GuideSectionPage.RedirectTarget` | src/pages/GuideSection.tsx:21-25 | the redirect happens iff the section exists, no lesson id is present and the section has lessons; its target is the first lesson of that section |
| `GuideSectionPage.Resolve` | src/pages/GuideSection.tsx:36-63 | not found iff no section matches; loading iff the redirect fires; otherwise the first matching section, and for a lesson a valid first-match index, with prev absent iff the index is 0 and next absent iff it is the last index |
| `GuideSectionPage.CompletionTarget` | src/pages/GuideSection.tsx:80-99 | exactly one destination: `/guide/{sectionId}/{next.id}` if there is a next lesson, else the next section's route if the section is not last, else home |
| `GuideSectionPage.FooterPrev` | src/pages/GuideSection.tsx:250-259 | a backward link is shown iff there is a previous lesson, and it leads to `/guide/{sectionId}/{prev.id}` |
| `GuideSectionPage.FooterNext` | src/pages/GuideSection.tsx:260-274 | the forward link leads home iff there is no next lesson, else to `/guide/{sectionId}/{next.id}` |
| `GuideSectionPage.RedirectLandsOnFirstLesson` | src/pages/GuideSection.tsx:21-25 | when the first lesson's id is non-empty, the redirect target shows lesson 0 of the same section, does not redirect again and is recorded as last visited |
| `GuideSectionPage.CompletionOpensNextLesson` | src/pages/GuideSection.tsx:81-84 | from a lesson with a successor, "mark complete" opens the next index of the same section |
| `GuideSectionPage.CompletionOpensNextSection` | src/pages/GuideSection.tsx:85-92 | from the last lesson of a non-last section, "mark complete" opens the next section, which redirects to its first lesson or shows its overview when it has none |
| `GuideSectionPage.FooterStaysInSection` | src/pages/GuideSection.tsx:260-274 | the footer's forward link equals "mark complete" when a next lesson exists, and leads home otherwise; there "mark complete" leads home only from the last section |
| `GuideSectionPage.PrevLinkOpensPreviousLesson` | src/pages/GuideSection.tsx:250-256 | the footer's backward link opens the previous index of the same section |
| `GuideSectionPage.LastVisitedId` | src/pages/GuideSection.tsx:28-34 | the lesson id is recorded when present, else the section id when present, else nothing; a recorded id is never empty |
| `GuideSectionPage.KeepVisible` | src/pages/GuideSection.tsx:71-73 | the filtered list is no longer than the input and holds exactly the input's shortcuts whose platform is "all" or the selected system |
| `GuideSectionPage.FilterShortcuts` | src/pages/GuideSection.tsx:69-74 | an absent list gives an empty result; otherwise the shortcuts shown are exactly the visible ones |
| `GuideSectionPage.KeepVisibleAppend` | src/pages/GuideSection.tsx:71-73 | the filter distributes over concatenation, so it keeps the original order |
| `GuideSectionPage.KeepVisibleAllVisible` | src/pages/GuideSection.tsx:71-73 | a list of visible shortcuts is kept unchanged |
| `GuideSectionPage.KeepVisibleIdempotent` | src/pages/GuideSection.tsx:71-73 | filtering a filtered list changes nothing |
| `GuideSectionPage.ShortcutFilterExample` | src/pages/GuideSection.tsx:69-74 | with mac selected, [all, windows, mac] filters to [all, mac] |
| `GuideSectionPage.GuidePage.constructor` | src/pages/GuideSection.tsx:11-15 | a mounted page holds its catalog and route and has made no calls |
| `GuideSectionPage.GuidePage.RunRedirectEffect` | src/pages/GuideSection.tsx:21-25 | one history-replacing navigation to the redirect target is added when the redirect fires, none otherwise; no progress call is made |
| `GuideSectionPage.GuidePage.RunLastVisitedEffect` | src/pages/GuideSection.tsx:28-34 | one `setLastVisited` call with the chosen id is added when there is one; nothing is navigated |
| `GuideSectionPage.GuidePage.HandleMarkComplete` | src/pages/GuideSection.tsx:77-100 | logs one `markAsCompleted` call for the shown lesson and exactly one navigation, to the completion target; the order between the two logs is not kept |
| `GuideSectionPage.GuidePage.HandleCompleteClick` | src/pages/GuideSection.tsx:128-130 | a completed lesson is marked incomplete without navigating; otherwise it behaves as mark-complete |
| `GuideSectionPage.GuidePage.HandleBookmarkClick` | src/pages/GuideSection.tsx:120-123 | toggles the bookmark of the shown lesson and navigates nowhere |

## Left out

- `Preferences.ToLower`: lower-cases only the letters A–Z. The other case
  mappings of `toLowerCase` are not modelled.
- Local-storage persistence (`useLocalStorage`) is not part of this model:
  JSON encoding, fail-open reads and write-back. The stored record is a
  constructor parameter of `PreferencesStore`. Each mutator assigns the
  `preferences` field.
- The progress hook (`useProgress`) is not part of this model. Its operations
  appear only as the calls `GuidePage` makes (`MarkAsCompleted`,
  `MarkAsIncomplete`, `ToggleBookmark`, `SetLastVisited`). Their effect on
  stored progress is not specified, and `isCompleted` is a parameter.
- `GuideSectionPage.GuidePage.HandleMarkComplete`: progress calls and
  navigations go to two separate logs. The model does not state that
  `markAsCompleted` comes before the navigation.
- The 300 ms `setTimeout` before each post-completion navigation is not
  modelled. The navigation is recorded when it is scheduled.
- `GuideSectionPage.GuidePage.HandleCompleteClick`: the `completed` flag is a parameter and is
  not linked to earlier `MarkAsCompleted` calls. The model therefore allows a
  second mark-complete on the same page, which the re-rendered page would not
  make: after the first one it shows the lesson as completed, and the button
  then calls `markAsIncomplete`.
- React scheduling is not modelled. In the code, the dark-class effect runs
  after a render. The model performs it at the end of each mutator.
- The code calls `useMemo` (line 69) only when rendering a lesson. The
  hook-order consequences of that are render mechanics and are not modelled.
- `window.navigator.userAgent` and the `prefers-color-scheme` media query are
  parameters. The document class list is a ghost flag.
- The static catalog `guideContent` is a parameter.
- Route parsing by the router is not modelled. `RouteOf` assumes ids are
  single path segments that need no URL encoding.
- The lemmas about following links from a lesson assume a well-formed catalog
  (`WellFormed`): distinct, non-empty section ids, and distinct, non-empty
  lesson ids within a section. `RedirectLandsOnFirstLesson` needs only a
  non-empty first lesson id. The code does not check this. With a duplicate id, `find` picks the
  first entry. With an empty first lesson id, the redirect target has a falsy
  lesson parameter, so the redirect fires again.
- Rendering is not modelled: markup, tabs, icons, content previews
  (`substring(0, 150)`) and the tab-disabling conditions.
- `src/components/Header.tsx` is not modelled. Its search submit only calls
  `encodeURIComponent` and the router.
- The `Types` module declares datatypes only. It has no operations to state
  properties about, and the enumerations give the value ranges directly.

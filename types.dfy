/** The records and unions of the guide browser (src/types/index.ts).
    Optional properties (`x?: T`) become `Option<T>`; string unions become
    enumerations, so a value outside the union cannot be written down. */
module Types {

  datatype Option<+T> = None | Some(value: T) {
    /** The value, or `default` when absent (`x ?? default`). */
    function GetOr(default: T): T {
      match this
      case Some(v) => v
      case None => default
    }
  }

  /** `UserPreferences['operatingSystem']`: windows, mac or linux, never "all". */
  datatype OperatingSystem = Windows | Mac | Linux

  /** `Shortcut['platform']` when it is present: one operating system, or "all". */
  datatype Platform = Only(os: OperatingSystem) | All

  /** `UserPreferences['fontSize']`. */
  datatype FontSize = Small | Medium | Large

  datatype Shortcut = Shortcut(keys: seq<string>, description: string, platform: Option<Platform>)

  datatype Example = Example(title: string, description: string, steps: seq<string>)

  datatype GuideSubsection = GuideSubsection(
    id: string,
    title: string,
    content: string,
    tips: Option<seq<string>>,
    shortcuts: Option<seq<Shortcut>>,
    examples: Option<seq<Example>>)

  datatype GuideSection = GuideSection(
    id: string,
    title: string,
    description: string,
    icon: string,
    subsections: Option<seq<GuideSubsection>>)

  /** Completed and bookmarked ids are arrays, not sets: the type itself
      does not rule out duplicates. */
  datatype UserProgress = UserProgress(
    completedSections: seq<string>,
    bookmarkedSections: seq<string>,
    lastVisited: Option<string>)

  datatype UserPreferences = UserPreferences(
    darkMode: bool,
    fontSize: FontSize,
    sidebarCollapsed: bool,
    operatingSystem: OperatingSystem)
}

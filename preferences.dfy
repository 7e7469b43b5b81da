/** Display preferences (src/hooks/usePreferences.ts): operating-system
    detection from the user-agent string, the default record, the four
    one-field mutators and the document's "dark" class kept in step with
    `darkMode`. The user-agent string and the system colour-scheme flag are
    parameters; the storage behind the record is the `preferences` field. */
module Preferences {
  import opened Types

  // ----- Lower-casing and substring search on the user-agent string -----

  function LowerChar(c: char): char {
    if 'A' <= c <= 'Z' then (c as int + 32) as char else c
  }

  lemma LowerCharNotM(c: char)
    requires c != 'm' && c != 'M'
    ensures LowerChar(c) != 'm'
  {
  }

  /** `String.prototype.toLowerCase`, on the letters A to Z. */
  function ToLower(s: string): (r: string)
    ensures |r| == |s|
    ensures forall i :: 0 <= i < |s| ==> r[i] == LowerChar(s[i])
    ensures forall i :: 0 <= i < |s| ==> !('A' <= r[i] <= 'Z')
  {
    if s == [] then [] else [LowerChar(s[0])] + ToLower(s[1..])
  }

  /** Lower-casing twice is lower-casing once. */
  lemma ToLowerIdempotent(s: string)
    ensures ToLower(ToLower(s)) == ToLower(s)
  {
  }

  /** `pat` sits in `s` at position `i`. */
  ghost predicate OccursAt(pat: string, s: string, i: int) {
    0 <= i && i + |pat| <= |s| && s[i..i + |pat|] == pat
  }

  ghost predicate Occurs(pat: string, s: string) {
    exists i :: OccursAt(pat, s, i)
  }

  lemma OccursShift(pat: string, s: string)
    requires s != [] && !OccursAt(pat, s, 0)
    ensures Occurs(pat, s) <==> Occurs(pat, s[1..])
  {
    if Occurs(pat, s) {
      var i :| OccursAt(pat, s, i);
      assert s[1..][i - 1..i - 1 + |pat|] == s[i..i + |pat|];
      assert OccursAt(pat, s[1..], i - 1);
    }
    if Occurs(pat, s[1..]) {
      var i :| OccursAt(pat, s[1..], i);
      assert s[1..][i..i + |pat|] == s[i + 1..i + 1 + |pat|];
      assert OccursAt(pat, s, i + 1);
    }
  }

  /** `String.prototype.includes`: `pat` occurs somewhere in `s`. */
  function Includes(s: string, pat: string): (r: bool)
    ensures r <==> Occurs(pat, s)
    decreases |s|
  {
    if |pat| > |s| then
      assert forall i :: !OccursAt(pat, s, i);
      false
    else if s[..|pat|] == pat then
      assert OccursAt(pat, s, 0);
      true
    else
      OccursShift(pat, s);
      Includes(s[1..], pat)
  }

  // ----- Operating-system detection and defaults -----

  /** `detectOS`: "mac" is looked for first, then "linux", in the lower-cased
      user agent; anything else is Windows. */
  function DetectOS(userAgent: string): (os: OperatingSystem)
    ensures os == Mac <==> Occurs("mac", ToLower(userAgent))
    ensures os == Linux <==> !Occurs("mac", ToLower(userAgent)) && Occurs("linux", ToLower(userAgent))
    ensures os == Windows <==> !Occurs("mac", ToLower(userAgent)) && !Occurs("linux", ToLower(userAgent))
  {
    var ua := ToLower(userAgent);
    if Includes(ua, "mac") then Mac
    else if Includes(ua, "linux") then Linux
    else Windows
  }

  /** Detection does not depend on the case of the user agent. */
  lemma DetectOSIgnoresCase(userAgent: string)
    ensures DetectOS(ToLower(userAgent)) == DetectOS(userAgent)
  {
    ToLowerIdempotent(userAgent);
  }

  /** A user agent naming both systems is classified as mac. */
  lemma MacBeforeLinux(userAgent: string)
    requires Occurs("mac", ToLower(userAgent)) && Occurs("linux", ToLower(userAgent))
    ensures DetectOS(userAgent) == Mac
  {
  }

  /** A pattern cannot occur where its first letter never does. */
  lemma AbsentFirstChar(pat: string, s: string)
    requires |pat| > 0 && forall k :: 0 <= k < |s| ==> s[k] != pat[0]
    ensures !Occurs(pat, s)
  {
    forall i | 0 <= i && i + |pat| <= |s|
      ensures !OccursAt(pat, s, i)
    {
      assert s[i..i + |pat|][0] == s[i];
    }
  }

  /** `s` has no letter m, in either case. */
  predicate LacksM(s: string) {
    s == [] || (s[0] != 'm' && s[0] != 'M' && LacksM(s[1..]))
  }

  lemma {:induction false} LacksMFromChars(s: string)
    requires forall k :: 0 <= k < |s| ==> s[k] != 'm' && s[k] != 'M'
    ensures LacksM(s)
  {
    if s != [] {
      LacksMFromChars(s[1..]);
    }
  }

  /** Without the letter m, "mac" cannot occur in the lower-cased string. */
  lemma {:induction false} NoMacWithoutM(s: string)
    requires LacksM(s)
    ensures !Occurs("mac", ToLower(s))
  {
    if s != [] {
      NoMacWithoutM(s[1..]);
      LowerCharNotM(s[0]);
      var t := ToLower(s);
      assert t == [LowerChar(s[0])] + ToLower(s[1..]);
      forall i | 0 <= i && i + 3 <= |t|
        ensures !OccursAt("mac", t, i)
      {
        if i > 0 {
          assert t[i..i + 3] == ToLower(s[1..])[i - 1..i + 2];
          assert !OccursAt("mac", ToLower(s[1..]), i - 1);
        } else {
          assert t[i..i + 3][0] == LowerChar(s[0]) != 'm';
        }
      }
    } else {
      AbsentFirstChar("mac", ToLower(s));
    }
  }

  /** A user agent without the letter m that mentions Linux is classified as
      linux. */
  lemma DetectOSLinuxWithoutM(userAgent: string)
    requires Occurs("linux", ToLower(userAgent)) && LacksM(userAgent)
    ensures DetectOS(userAgent) == Linux
  {
    NoMacWithoutM(userAgent);
  }

  lemma DetectOSLinuxExample(userAgent: string)
    requires userAgent == "X11; Linux"
    ensures DetectOS(userAgent) == Linux
  {
    var ua := ToLower(userAgent);
    assert ua[5..] == "linux";
    assert OccursAt("linux", ua, 5);
    LacksMFromChars(userAgent);
    DetectOSLinuxWithoutM(userAgent);
  }

  lemma DetectOSMacExample(userAgent: string)
    requires userAgent == "Mac; Linux"
    ensures DetectOS(userAgent) == Mac
  {
  }

  lemma DetectOSWindowsExample(userAgent: string)
    requires userAgent == "Win NT"
    ensures DetectOS(userAgent) == Windows
  {
    var ua := ToLower(userAgent);
    assert ua == "win nt";
    AbsentFirstChar("mac", ua);
    AbsentFirstChar("linux", ua);
  }

  /** `initialPreferences`: the record used when nothing is stored. */
  function InitialPreferences(userAgent: string, prefersDark: bool): (p: UserPreferences)
    ensures p.darkMode == prefersDark
    ensures p.fontSize == Medium && !p.sidebarCollapsed
    ensures p.operatingSystem == DetectOS(userAgent)
  {
    UserPreferences(prefersDark, Medium, false, DetectOS(userAgent))
  }

  // ----- The four mutators, as updates of the previous record -----

  datatype Field = DarkModeField | FontSizeField | SidebarField | OperatingSystemField

  /** `p` and `q` agree on field `f`. */
  predicate SameOn(p: UserPreferences, q: UserPreferences, f: Field) {
    match f
    case DarkModeField => p.darkMode == q.darkMode
    case FontSizeField => p.fontSize == q.fontSize
    case SidebarField => p.sidebarCollapsed == q.sidebarCollapsed
    case OperatingSystemField => p.operatingSystem == q.operatingSystem
  }

  /** `p` and `q` agree on every field except possibly `f`. */
  predicate SameExcept(p: UserPreferences, q: UserPreferences, f: Field) {
    forall g: Field :: g != f ==> SameOn(p, q, g)
  }

  /** `prev => ({ ...prev, darkMode: !prev.darkMode })` */
  function WithDarkModeToggled(p: UserPreferences): (r: UserPreferences)
    ensures r.darkMode == !p.darkMode && SameExcept(p, r, DarkModeField)
  {
    p.(darkMode := !p.darkMode)
  }

  /** `prev => ({ ...prev, fontSize })` */
  function WithFontSize(p: UserPreferences, size: FontSize): (r: UserPreferences)
    ensures r.fontSize == size && SameExcept(p, r, FontSizeField)
  {
    p.(fontSize := size)
  }

  /** `prev => ({ ...prev, sidebarCollapsed: !prev.sidebarCollapsed })` */
  function WithSidebarToggled(p: UserPreferences): (r: UserPreferences)
    ensures r.sidebarCollapsed == !p.sidebarCollapsed && SameExcept(p, r, SidebarField)
  {
    p.(sidebarCollapsed := !p.sidebarCollapsed)
  }

  /** `prev => ({ ...prev, operatingSystem })` */
  function WithOperatingSystem(p: UserPreferences, os: OperatingSystem): (r: UserPreferences)
    ensures r.operatingSystem == os && SameExcept(p, r, OperatingSystemField)
  {
    p.(operatingSystem := os)
  }

  lemma ToggleDarkModeInvolution(p: UserPreferences)
    ensures WithDarkModeToggled(WithDarkModeToggled(p)) == p
  {
  }

  lemma ToggleSidebarInvolution(p: UserPreferences)
    ensures WithSidebarToggled(WithSidebarToggled(p)) == p
  {
  }

  lemma SetFontSizeIdempotent(p: UserPreferences, size: FontSize)
    ensures WithFontSize(WithFontSize(p, size), size) == WithFontSize(p, size)
  {
  }

  lemma SetOperatingSystemIdempotent(p: UserPreferences, os: OperatingSystem)
    ensures WithOperatingSystem(WithOperatingSystem(p, os), os) == WithOperatingSystem(p, os)
  {
  }

  /** One call of one of the four mutators returned by the hook. */
  datatype Update =
    | DarkModeToggle
    | FontSizeSet(size: FontSize)
    | SidebarToggle
    | OperatingSystemSet(os: OperatingSystem)

  function FieldOf(u: Update): Field {
    match u
    case DarkModeToggle => DarkModeField
    case FontSizeSet(_) => FontSizeField
    case SidebarToggle => SidebarField
    case OperatingSystemSet(_) => OperatingSystemField
  }

  /** The record after one mutator call: only the mutator's own field moves. */
  function Apply(u: Update, p: UserPreferences): (r: UserPreferences)
    ensures SameExcept(p, r, FieldOf(u))
  {
    match u
    case DarkModeToggle => WithDarkModeToggled(p)
    case FontSizeSet(size) => WithFontSize(p, size)
    case SidebarToggle => WithSidebarToggled(p)
    case OperatingSystemSet(os) => WithOperatingSystem(p, os)
  }

  /** Mutators of different fields commute. */
  lemma UpdatesCommute(u: Update, v: Update, p: UserPreferences)
    requires FieldOf(u) != FieldOf(v)
    ensures Apply(u, Apply(v, p)) == Apply(v, Apply(u, p))
  {
  }

  /** The record after a sequence of mutator calls, first call first. */
  function ApplyAll(us: seq<Update>, p: UserPreferences): UserPreferences
    decreases |us|
  {
    if us == [] then p else ApplyAll(us[1..], Apply(us[0], p))
  }

  function CountDarkToggles(us: seq<Update>): nat {
    if us == [] then 0
    else (if us[0] == DarkModeToggle then 1 else 0) + CountDarkToggles(us[1..])
  }

  /** After any sequence of calls, dark mode is flipped iff it was toggled
      an odd number of times. */
  lemma {:induction false} DarkModeParity(us: seq<Update>, p: UserPreferences)
    ensures ApplyAll(us, p).darkMode == (p.darkMode != (CountDarkToggles(us) % 2 == 1))
    decreases |us|
  {
    if us != [] {
      DarkModeParity(us[1..], Apply(us[0], p));
    }
  }

  /** Calls that never touch field `f` leave it as it was. */
  lemma {:induction false} UntouchedFieldKept(us: seq<Update>, p: UserPreferences, f: Field)
    requires forall k :: 0 <= k < |us| ==> FieldOf(us[k]) != f
    ensures SameOn(p, ApplyAll(us, p), f)
    decreases |us|
  {
    if us != [] {
      UntouchedFieldKept(us[1..], Apply(us[0], p), f);
    }
  }

  // ----- The hook's state -----

  /** The stored preferences and the document's "dark" class. */
  class PreferencesStore {
    var preferences: UserPreferences
    /** Whether the document element carries the class "dark". */
    ghost var darkClass: bool

    /** The effect has run: the class mirrors `darkMode`. */
    ghost predicate Valid()
      reads this
    {
      darkClass == preferences.darkMode
    }

    /** Load: the stored record if there is one, else the defaults built from
        the user agent and the system colour scheme; then the class effect. */
    constructor (stored: Option<UserPreferences>, userAgent: string, prefersDark: bool)
      ensures preferences == stored.GetOr(InitialPreferences(userAgent, prefersDark))
      ensures Valid()
    {
      preferences := stored.GetOr(InitialPreferences(userAgent, prefersDark));
      new;
      SyncDarkClass();
    }

    /** The effect on `preferences.darkMode`: add or remove "dark". */
    method SyncDarkClass()
      modifies this`darkClass
      ensures Valid()
    {
      if preferences.darkMode {
        darkClass := true;
      } else {
        darkClass := false;
      }
    }

    method ToggleDarkMode()
      modifies this
      ensures preferences == WithDarkModeToggled(old(preferences))
      ensures Valid()
    {
      preferences := WithDarkModeToggled(preferences);
      SyncDarkClass();
    }

    method SetFontSize(size: FontSize)
      modifies this
      ensures preferences == WithFontSize(old(preferences), size)
      ensures Valid()
    {
      preferences := WithFontSize(preferences, size);
      SyncDarkClass();
    }

    method ToggleSidebar()
      modifies this
      ensures preferences == WithSidebarToggled(old(preferences))
      ensures Valid()
    {
      preferences := WithSidebarToggled(preferences);
      SyncDarkClass();
    }

    method SetOperatingSystem(os: OperatingSystem)
      modifies this
      ensures preferences == WithOperatingSystem(old(preferences), os)
      ensures Valid()
    {
      preferences := WithOperatingSystem(preferences, os);
      SyncDarkClass();
    }
  }
}

/** The settings record shared by every page and the extension, its
    defaults, and the settings page's edits: toggles, range sliders and the
    entertainment-site list. */
module SettingsPage {
  import opened Wrappers
  import Text
  import Digits

  /** How a visited domain is matched against a listed site. Any stored
      string other than the three known ones behaves as `Unrecognised`. */
  datatype Strictness = Strict | Moderate | Loose | Unrecognised

  function ParseStrictness(s: string): (r: Strictness)
    ensures r == Strict <==> s == "strict"
    ensures r == Moderate <==> s == "moderate"
    ensures r == Loose <==> s == "loose"
  {
    if s == "strict" then Strict
    else if s == "moderate" then Moderate
    else if s == "loose" then Loose
    else Unrecognised
  }

  /** The stored `settings` object. The site list can be missing from a
      stored object, which some readers handle and others do not. */
  datatype Settings = Settings(
    focusTracking: bool,
    studyReminders: bool,
    breakReminders: bool,
    focusSensitivity: int,
    petName: string,
    petColor: string,
    petPersonality: string,
    petAnimations: bool,
    soundNotifications: bool,
    desktopNotifications: bool,
    notificationVolume: int,
    smartBlocking: bool,
    happinessThreshold: int,
    energyThreshold: int,
    focusThreshold: int,
    blockingStrictness: Strictness,
    entertainmentSites: Option<seq<string>>)

  const DefaultSites: seq<string> := [
    "youtube.com", "tiktok.com", "twitter.com", "netflix.com", "instagram.com",
    "reddit.com", "twitch.tv", "discord.com", "pinterest.com", "facebook.com",
    "snapchat.com", "tumblr.com", "9gag.com", "buzzfeed.com", "vice.com",
    "vox.com", "theverge.com", "techcrunch.com", "mashable.com"]

  predicate NoDuplicates<T(==)>(s: seq<T>) {
    forall i, j :: 0 <= i < j < |s| ==> s[i] != s[j]
  }

  /** A number that tells the default sites apart: length, first and
      second character. */
  function SiteCode(site: string): int {
    if |site| < 2 then 0 else |site| * 1000000 + (site[0] as int) * 1000 + site[1] as int
  }

  /** The default sites' codes, in list order. */
  const DefaultSiteCodes: seq<int> := [
    11121111, 10116105, 11116119, 11110101, 13105110,
    10114101, 9116119, 11100105, 13112105, 12102097,
    12115110, 10116117, 8057103, 12098117, 8118105,
    7118111, 12116104, 14116101, 12109097]

  /** The same codes from smallest to largest; `CodeRank[i]` is where the
      code of site `i` comes in that order, and `CodeOrder` undoes it. */
  const SortedCodes: seq<int> := [
    7118111, 8057103, 8118105, 9116119, 10114101,
    10116105, 10116117, 11100105, 11110101, 11116119,
    11121111, 12098117, 12102097, 12109097, 12115110,
    12116104, 13105110, 13112105, 14116101]
  const CodeRank: seq<nat> := [10, 5, 9, 8, 16, 4, 3, 7, 17, 12, 14, 6, 1, 11, 2, 0, 15, 18, 13]
  const CodeOrder: seq<nat> := [15, 12, 14, 6, 5, 1, 11, 7, 3, 2, 0, 13, 9, 18, 10, 16, 4, 8, 17]

  lemma DefaultSiteCodesMatch(i: nat)
    requires i < |DefaultSites|
    ensures |DefaultSiteCodes| == |DefaultSites| && SiteCode(DefaultSites[i]) == DefaultSiteCodes[i]
  {
  }

  lemma DefaultCodesAll()
    ensures |DefaultSiteCodes| == |DefaultSites|
    ensures forall i :: 0 <= i < |DefaultSites| ==> SiteCode(DefaultSites[i]) == DefaultSiteCodes[i]
  {
    forall i | 0 <= i < |DefaultSites|
      ensures SiteCode(DefaultSites[i]) == DefaultSiteCodes[i]
    {
      DefaultSiteCodesMatch(i);
    }
  }

  lemma CodeRankSorts()
    ensures |CodeRank| == |DefaultSiteCodes|
    ensures forall i :: 0 <= i < |CodeRank| ==> CodeRank[i] < |SortedCodes| && SortedCodes[CodeRank[i]] == DefaultSiteCodes[i]
  {
  }

  lemma CodeOrderInverts()
    ensures forall i :: 0 <= i < |CodeRank| ==> CodeRank[i] < |CodeOrder| && CodeOrder[CodeRank[i]] == i
  {
  }

  lemma SortedCodesIncrease()
    ensures forall k :: 0 <= k < |SortedCodes| - 1 ==> SortedCodes[k] < SortedCodes[k + 1]
  {
  }

  /** Numbers that grow step by step grow all along. */
  lemma {:induction false} Increasing(code: seq<int>, a: nat, b: nat)
    requires forall k :: 0 <= k < |code| - 1 ==> code[k] < code[k + 1]
    requires a < b < |code|
    ensures code[a] < code[b]
    decreases b
  {
    if a < b - 1 {
      Increasing(code, a, b - 1);
    }
  }

  /** Sites whose codes all differ are all different. The codes differ
      when each one sits at its own place in a strictly increasing list. */
  lemma DistinctByCodes(s: seq<string>, code: seq<int>, sorted: seq<int>, rank: seq<nat>, order: seq<nat>)
    requires |code| == |s| == |rank|
    requires forall i :: 0 <= i < |s| ==> SiteCode(s[i]) == code[i]
    requires forall i :: 0 <= i < |rank| ==> rank[i] < |sorted| && sorted[rank[i]] == code[i]
    requires forall i :: 0 <= i < |rank| ==> rank[i] < |order| && order[rank[i]] == i
    requires forall k :: 0 <= k < |sorted| - 1 ==> sorted[k] < sorted[k + 1]
    ensures NoDuplicates(s)
  {
    forall i, j | 0 <= i < j < |s|
      ensures s[i] != s[j]
    {
      var a, b := rank[i], rank[j];
      assert a != b;
      if a < b {
        Increasing(sorted, a, b);
      } else {
        Increasing(sorted, b, a);
      }
    }
  }

  /** The default list names each site once. */
  lemma DefaultSitesDistinct()
    ensures |DefaultSites| == 19 && NoDuplicates(DefaultSites)
  {
    DefaultCodesAll();
    CodeRankSorts();
    CodeOrderInverts();
    SortedCodesIncrease();
    DistinctByCodes(DefaultSites, DefaultSiteCodes, SortedCodes, CodeRank, CodeOrder);
  }

  /** The settings written on first load. */
  function DefaultSettings(): (d: Settings)
    ensures d.smartBlocking
    ensures d.happinessThreshold == 70 && d.energyThreshold == 60 && d.focusThreshold == 80
    ensures d.blockingStrictness == Moderate
    ensures d.entertainmentSites == Some(DefaultSites) && |DefaultSites| == 19
    ensures NoDuplicates(DefaultSites)
  {
    DefaultSitesDistinct();
    Settings(
      focusTracking := true, studyReminders := false, breakReminders := true,
      focusSensitivity := 7, petName := "Study Buddy", petColor := "#fbbf24",
      petPersonality := "cheerful", petAnimations := true, soundNotifications := false,
      desktopNotifications := true, notificationVolume := 50,
      smartBlocking := true, happinessThreshold := 70, energyThreshold := 60,
      focusThreshold := 80, blockingStrictness := Moderate,
      entertainmentSites := Some(DefaultSites))
  }

  // ---------------------------------------------------------------- toggles

  /** The on/off settings a toggle switch can name. */
  datatype Toggle = FocusTracking | StudyReminders | BreakReminders | PetAnimations
                  | SoundNotifications | DesktopNotifications | SmartBlocking

  function ToggleValue(s: Settings, t: Toggle): bool {
    match t
    case FocusTracking => s.focusTracking
    case StudyReminders => s.studyReminders
    case BreakReminders => s.breakReminders
    case PetAnimations => s.petAnimations
    case SoundNotifications => s.soundNotifications
    case DesktopNotifications => s.desktopNotifications
    case SmartBlocking => s.smartBlocking
  }

  function SetToggle(s: Settings, t: Toggle, v: bool): Settings {
    match t
    case FocusTracking => s.(focusTracking := v)
    case StudyReminders => s.(studyReminders := v)
    case BreakReminders => s.(breakReminders := v)
    case PetAnimations => s.(petAnimations := v)
    case SoundNotifications => s.(soundNotifications := v)
    case DesktopNotifications => s.(desktopNotifications := v)
    case SmartBlocking => s.(smartBlocking := v)
  }

  /** `handleToggleSwitch`: a switch showing "active" turns its setting
      off, any other turns it on; nothing else in the settings changes. */
  function HandleToggleSwitch(s: Settings, t: Toggle, wasActive: bool): (r: Settings)
    ensures ToggleValue(r, t) == !wasActive
    ensures SetToggle(r, t, ToggleValue(s, t)) == s
  {
    SetToggleRestores(s, t, !wasActive);
    SetToggle(s, t, !wasActive)
  }

  /** Writing a toggle and then writing back its old value restores every
      setting: a toggle write touches only its own field. */
  lemma SetToggleRestores(s: Settings, t: Toggle, v: bool)
    ensures ToggleValue(SetToggle(s, t, v), t) == v
    ensures SetToggle(SetToggle(s, t, v), t, ToggleValue(s, t)) == s
  {
    match t
    case FocusTracking =>
    case StudyReminders =>
    case BreakReminders =>
    case PetAnimations =>
    case SoundNotifications =>
    case DesktopNotifications =>
    case SmartBlocking =>
  }

  /** Two clicks on the same switch restore the settings, as long as the
      switch's display tracked the setting. */
  lemma ToggleTwiceRestores(s: Settings, t: Toggle)
    ensures HandleToggleSwitch(HandleToggleSwitch(s, t, ToggleValue(s, t)), t, !ToggleValue(s, t)) == s
  {
  }

  // ----------------------------------------------------------- range inputs

  /** The whole-number settings a range slider can name. */
  datatype RangeKey = FocusSensitivity | NotificationVolume
                    | HappinessThreshold | EnergyThreshold | FocusThreshold

  function RangeValue(s: Settings, k: RangeKey): int {
    match k
    case FocusSensitivity => s.focusSensitivity
    case NotificationVolume => s.notificationVolume
    case HappinessThreshold => s.happinessThreshold
    case EnergyThreshold => s.energyThreshold
    case FocusThreshold => s.focusThreshold
  }

  function SetRange(s: Settings, k: RangeKey, v: int): Settings {
    match k
    case FocusSensitivity => s.(focusSensitivity := v)
    case NotificationVolume => s.(notificationVolume := v)
    case HappinessThreshold => s.(happinessThreshold := v)
    case EnergyThreshold => s.(energyThreshold := v)
    case FocusThreshold => s.(focusThreshold := v)
  }

  /** `handleRangeInput`: the named setting becomes `parseInt` of the
      slider's value and nothing else changes. A slider's value is always a
      number, so `parseInt` never yields NaN here. */
  function HandleRangeInput(s: Settings, k: RangeKey, value: string): (r: Settings)
    requires Digits.ParseInt(value).Some?
    ensures RangeValue(r, k) == Digits.ParseInt(value).value
    ensures SetRange(r, k, RangeValue(s, k)) == s
  {
    SetRangeRestores(s, k, Digits.ParseInt(value).value);
    SetRange(s, k, Digits.ParseInt(value).value)
  }

  /** A slider write touches only its own field. */
  lemma SetRangeRestores(s: Settings, k: RangeKey, v: int)
    ensures RangeValue(SetRange(s, k, v), k) == v
    ensures SetRange(SetRange(s, k, v), k, RangeValue(s, k)) == s
  {
    match k
    case FocusSensitivity =>
    case NotificationVolume =>
    case HappinessThreshold =>
    case EnergyThreshold =>
    case FocusThreshold =>
  }

  /** A slider showing the number `n` sets its setting to exactly `n`. */
  lemma RangeInputReadsNumber(s: Settings, k: RangeKey, n: nat)
    ensures Digits.ParseInt(Digits.NatToString(n)).Some?
    ensures RangeValue(HandleRangeInput(s, k, Digits.NatToString(n)), k) == n
  {
    Digits.ParseIntNatToString(n, "");
    assert Digits.NatToString(n) + "" == Digits.NatToString(n);
  }

  // ------------------------------------------------------ entertainment sites

  /** `xs.filter(s => s !== x)`. */
  function RemoveAll(xs: seq<string>, x: string): (r: seq<string>)
    ensures x !in r
    ensures multiset(r) == multiset(xs)[x := 0]
    ensures |r| <= |xs|
  {
    if |xs| == 0 then []
    else
      assert xs == [xs[0]] + xs[1..];
      if xs[0] == x then RemoveAll(xs[1..], x) else [xs[0]] + RemoveAll(xs[1..], x)
  }

  /** Filtering keeps the relative order: it distributes over concatenation. */
  lemma {:induction false} RemoveAllAppend(a: seq<string>, b: seq<string>, x: string)
    ensures RemoveAll(a + b, x) == RemoveAll(a, x) + RemoveAll(b, x)
    decreases |a|
  {
    if |a| == 0 {
      assert a + b == b;
    } else {
      assert (a + b)[1..] == a[1..] + b;
      RemoveAllAppend(a[1..], b, x);
    }
  }

  lemma {:induction false} RemoveAllAbsent(xs: seq<string>, x: string)
    requires x !in xs
    ensures RemoveAll(xs, x) == xs
    decreases |xs|
  {
    if |xs| > 0 {
      RemoveAllAbsent(xs[1..], x);
      assert xs == [xs[0]] + xs[1..];
    }
  }

  /** The add-site button: the input is trimmed, and it is appended only when
      it is non-empty and not already listed. With no stored list the
      handler throws before changing anything. */
  function AddSite(s: Settings, input: string): (r: Settings)
    ensures s.entertainmentSites.None? ==> r == s
    ensures s.entertainmentSites.Some? && (Text.Trim(input) == "" || Text.Trim(input) in s.entertainmentSites.value) ==> r == s
    ensures s.entertainmentSites.Some? && Text.Trim(input) != "" && Text.Trim(input) !in s.entertainmentSites.value
            ==> r == s.(entertainmentSites := Some(s.entertainmentSites.value + [Text.Trim(input)]))
    ensures s.entertainmentSites.Some? && NoDuplicates(s.entertainmentSites.value)
            ==> r.entertainmentSites.Some? && NoDuplicates(r.entertainmentSites.value)
  {
    match s.entertainmentSites
    case None => s
    case Some(sites) =>
      var site := Text.Trim(input);
      if site != "" && site !in sites then
        var r := s.(entertainmentSites := Some(sites + [site]));
        assert forall i :: 0 <= i < |sites| ==> (sites + [site])[i] == sites[i];
        r
      else s
  }

  /** A remove button: every occurrence of the site is filtered out. With no
      stored list the handler throws before changing anything. */
  function RemoveSite(s: Settings, site: string): (r: Settings)
    ensures s.entertainmentSites.None? ==> r == s
    ensures s.entertainmentSites.Some? ==> r.entertainmentSites.Some?
    ensures s.entertainmentSites.Some? ==> site !in r.entertainmentSites.value
    ensures s.entertainmentSites.Some? ==>
      forall x :: x != site ==> (x in r.entertainmentSites.value <==> x in s.entertainmentSites.value)
    ensures r.(entertainmentSites := s.entertainmentSites) == s
  {
    match s.entertainmentSites
    case None => s
    case Some(sites) =>
      var kept := RemoveAll(sites, site);
      assert forall x :: x != site ==> (x in kept <==> x in multiset(kept)) && (x in sites <==> x in multiset(sites));
      s.(entertainmentSites := Some(kept))
  }

  /** Removing a site that was just added undoes the addition. */
  lemma AddThenRemove(s: Settings, input: string)
    requires s.entertainmentSites.Some?
    requires Text.Trim(input) != "" && Text.Trim(input) !in s.entertainmentSites.value
    ensures RemoveSite(AddSite(s, input), Text.Trim(input)) == s
  {
    var sites := s.entertainmentSites.value;
    var site := Text.Trim(input);
    RemoveAllAppend(sites, [site], site);
    RemoveAllAbsent(sites, site);
    assert RemoveAll([site], site) == [];
    assert sites + [] == sites;
  }
}

/** The blocker the web pages load: the same threshold rule, evaluated on
    stats read with the `||` loader, the per-stat shortfall list shown on
    the blocking page, an average-based face, and an uncapped attempt log. */
module PageBlocker {
  import opened Wrappers
  import opened PetStats
  import opened SettingsPage
  import Policy
  import Matching
  import Extension

  /** The page blocker's state. */
  datatype Page = Page(settings: Settings, petStats: Stats, isBlockingActive: bool)

  /** `checkPetThresholds` on the page: every stat at least its threshold. */
  function CheckPetThresholds(p: Page): (ok: bool)
    ensures ok <==> Policy.MeetsThresholds(p.petStats, p.settings)
  {
    var happinessOk := p.petStats.happiness >= p.settings.happinessThreshold as real;
    var energyOk := p.petStats.energy >= p.settings.energyThreshold as real;
    var focusOk := p.petStats.focusPercentage >= p.settings.focusThreshold as real;
    happinessOk && energyOk && focusOk
  }

  /** `checkBlockingStatus`: with smart blocking off blocking is cleared and
      the stats are not reloaded; otherwise the stats are reloaded from
      `stored` and blocking is on exactly when a threshold is missed. */
  function CheckBlockingStatus(p: Page, stored: Option<StoredStats>): (r: Page)
    ensures r.settings == p.settings
    ensures !p.settings.smartBlocking ==> r == p.(isBlockingActive := false)
    ensures p.settings.smartBlocking ==> r.petStats == LoadPetStatsAsWritten(stored)
    ensures p.settings.smartBlocking ==> (r.isBlockingActive <==> !Policy.MeetsThresholds(r.petStats, r.settings))
  {
    if !p.settings.smartBlocking then p.(isBlockingActive := false)
    else
      var reloaded := p.(petStats := LoadPetStatsAsWritten(stored));
      reloaded.(isBlockingActive := !CheckPetThresholds(reloaded))
  }

  /** The page reaches the shared utilities' verdict on the stats it loads. */
  lemma PageAgreesWithUtilities(p: Page, stored: Option<StoredStats>)
    ensures CheckBlockingStatus(p, stored).isBlockingActive
         == Policy.CheckBlockingStatus(CheckBlockingStatus(p, stored).petStats, p.settings)
  {
  }

  /** `checkCurrentPage`: the current page is replaced by the blocking page
      when blocking is on and its host is an entertainment site. With no
      site list the lookup throws and the page is left alone. */
  function ShouldBlockPage(p: Page, hostname: string): (block: bool)
    ensures block ==> p.isBlockingActive && p.settings.entertainmentSites.Some?
    ensures p.isBlockingActive && p.settings.entertainmentSites.Some? ==>
      (block <==> (exists i :: 0 <= i < |p.settings.entertainmentSites.value|
                     && Matching.DomainMatches(hostname, p.settings.entertainmentSites.value[i], p.settings.blockingStrictness)))
  {
    p.isBlockingActive && p.settings.entertainmentSites.Some?
    && Matching.IsEntertainmentSite(hostname, p.settings.entertainmentSites.value, p.settings.blockingStrictness)
  }

  // ----------------------------------------------------------- shortfalls

  datatype StatName = Happiness | Energy | Focus

  function StatRank(n: StatName): nat {
    match n
    case Happiness => 0
    case Energy => 1
    case Focus => 2
  }

  /** `getMissingStats`: the stats strictly below their thresholds, in the
      order happiness, energy, focus. */
  function MissingStats(p: Page): (missing: seq<StatName>)
    ensures Happiness in missing <==> p.petStats.happiness < p.settings.happinessThreshold as real
    ensures Energy in missing <==> p.petStats.energy < p.settings.energyThreshold as real
    ensures Focus in missing <==> p.petStats.focusPercentage < p.settings.focusThreshold as real
    ensures forall i, j :: 0 <= i < j < |missing| ==> StatRank(missing[i]) < StatRank(missing[j])
    ensures missing == [] <==> CheckPetThresholds(p)
  {
    var h := if p.petStats.happiness < p.settings.happinessThreshold as real then [Happiness] else [];
    var e := if p.petStats.energy < p.settings.energyThreshold as real then [Energy] else [];
    var f := if p.petStats.focusPercentage < p.settings.focusThreshold as real then [Focus] else [];
    h + e + f
  }

  // ----------------------------------------------------------------- face

  /** The four faces of the blocking page, best first. */
  datatype Face = Grinning | Smiling | Crying | Pouting

  function FaceRank(f: Face): nat {
    match f
    case Pouting => 0
    case Crying => 1
    case Smiling => 2
    case Grinning => 3
  }

  function Average(s: Stats): real {
    (s.happiness + s.energy + s.focusPercentage) / 3.0
  }

  /** `getPetEmoji` on the page: by the average of all three stats, with
      steps at 80, 60 and 40. */
  function PetFace(s: Stats): (f: Face)
    ensures f == Grinning <==> Average(s) >= 80.0
    ensures f == Smiling <==> 60.0 <= Average(s) < 80.0
    ensures f == Crying <==> 40.0 <= Average(s) < 60.0
    ensures f == Pouting <==> Average(s) < 40.0
  {
    var avg := Average(s);
    if avg >= 80.0 then Grinning
    else if avg >= 60.0 then Smiling
    else if avg >= 40.0 then Crying
    else Pouting
  }

  /** Raising any stat never gives a sadder face. */
  lemma PetFaceMonotone(s: Stats, t: Stats)
    requires s.happiness <= t.happiness && s.energy <= t.energy && s.focusPercentage <= t.focusPercentage
    ensures FaceRank(PetFace(s)) <= FaceRank(PetFace(t))
  {
  }

  /** The page face and the dashboard mood can disagree: a pet whose energy
      is 0 is sad on the dashboard while its face here still smiles. */
  lemma FaceAndMoodDisagree()
    ensures MoodOf(100.0, 0.0) == Sad
    ensures PetFace(Stats(100.0, 0.0, 100.0)) == Smiling
  {
  }

  // ---------------------------------------------------------- attempt log

  /** A blocked attempt as the page logs it. */
  datatype Attempt = Attempt(domain: string, timestamp: int, petStats: Stats)

  /** `trackBlockedAttempt` on the page: the attempt is appended to the
      stored log (an empty log when none is stored) and nothing is dropped. */
  function TrackBlockedAttempt(stored: Option<seq<Attempt>>, a: Attempt): (r: seq<Attempt>)
    ensures |r| == |stored.GetOr([])| + 1
    ensures r[..|r| - 1] == stored.GetOr([]) && r[|r| - 1] == a
  {
    stored.GetOr([]) + [a]
  }

  /** The page's and the extension's `trackBlockedAttempt` differ as
      written: on 100 entries the page's keeps all 101, the extension's
      drops the oldest. They write different stores and the extension's has
      no caller, so this compares the two functions, not two live logs. */
  lemma LogsDivergeAtCap(log: seq<Attempt>, a: Attempt, ext: seq<Extension.Attempt>, b: Extension.Attempt)
    requires |log| == 100 && |ext| == 100
    ensures |TrackBlockedAttempt(Some(log), a)| == 101
    ensures |Extension.TrackBlockedAttempt(Some(ext), b)| == 100
  {
  }
}

/** The dashboard page: pet care actions on happiness and energy, the focus
    percentage, the achievement count, and the blocking banner. The page
    shows aggregated stats and runs no timer; its study tick with a coin
    reward, `updateStudyTime`, is defined but has no caller. */
module Dashboard {
  import opened Wrappers
  import opened PetStats
  import opened SettingsPage
  import Policy

  /** The dashboard's in-memory counters and vitals. */
  datatype Board = Board(
    isFocused: bool,
    studyTime: nat,
    sessionTime: nat,
    totalStudyTime: nat,
    happiness: real,
    energy: real,
    streak: nat,
    coins: int)

  /** The dashboard as constructed, before stored stats are loaded. */
  const Initial: Board := Board(true, 0, 0, 0, 50.0, 50.0, 0, 0)

  /** `updateHappiness`: happiness moves by `change` and is clamped to
      [0, 100]; nothing else changes. */
  function UpdateHappiness(b: Board, change: real): (r: Board)
    ensures InRange(r.happiness)
    ensures InRange(b.happiness + change) ==> r.happiness == b.happiness + change
    ensures b.happiness + change < 0.0 ==> r.happiness == 0.0
    ensures b.happiness + change > 100.0 ==> r.happiness == 100.0
    ensures r.(happiness := b.happiness) == b
  {
    b.(happiness := Max(0.0, Min(100.0, b.happiness + change)))
  }

  /** The dashboard's happiness step is the shared utility's. */
  lemma UpdateHappinessIsUtility(b: Board, change: real, focus: real)
    ensures UpdateHappiness(b, change).happiness
         == UpdatePetStats(Stats(b.happiness, b.energy, focus), Changes(Some(change), None, None)).happiness
  {
  }

  // ------------------------------------------------------------- care

  datatype Action = Feed | Play | Rest | Pet

  /** Each action's change to happiness and to energy. Every action
      cheers the pet up; only play tires it. */
  function HappinessDelta(a: Action): (r: real)
    ensures r > 0.0
  {
    match a
    case Feed => 3.0
    case Play => 8.0
    case Rest => 2.0
    case Pet => 5.0
  }

  function EnergyDelta(a: Action): (r: real)
    ensures r < 0.0 <==> a == Play
  {
    match a
    case Feed => 10.0
    case Play => -5.0
    case Rest => 15.0
    case Pet => 3.0
  }

  /** `feedPet`, `playWithPet`, `restPet`, `petPet`: a gain is capped at
      100 and the one loss, play's energy cost, is floored at 0. */
  function Act(v: Vitals, a: Action): (r: Vitals)
    ensures r == Vitals(Nudge(v.happiness, HappinessDelta(a)), Nudge(v.energy, EnergyDelta(a)))
    ensures ValidVitals(v) ==> ValidVitals(r)
  {
    match a
    case Feed => Vitals(Min(100.0, v.happiness + 3.0), Min(100.0, v.energy + 10.0))
    case Play => Vitals(Min(100.0, v.happiness + 8.0), Max(0.0, v.energy - 5.0))
    case Rest => Vitals(Min(100.0, v.happiness + 2.0), Min(100.0, v.energy + 15.0))
    case Pet => Vitals(Min(100.0, v.happiness + 5.0), Min(100.0, v.energy + 3.0))
  }

  /** On vitals in range, every action is the shared clamped update with
      the action's deltas. */
  lemma ActIsClampedUpdate(v: Vitals, a: Action, focus: real)
    requires ValidVitals(v)
    ensures var u := UpdatePetStats(Stats(v.happiness, v.energy, focus),
                                    Changes(Some(HappinessDelta(a)), Some(EnergyDelta(a)), None));
      Act(v, a) == Vitals(u.happiness, u.energy)
  {
  }

  /** Any sequence of actions keeps vitals that start in range in range. */
  function ActAll(v: Vitals, actions: seq<Action>): (r: Vitals)
    ensures ValidVitals(v) ==> ValidVitals(r)
    decreases |actions|
  {
    if |actions| == 0 then v else ActAll(Act(v, actions[0]), actions[1..])
  }

  /** Feeding never makes the pet sadder. */
  lemma FeedNeverSaddens(v: Vitals)
    requires ValidVitals(v)
    ensures MoodRank(MoodOf(v.happiness, v.energy)) <= MoodRank(MoodOf(Act(v, Feed).happiness, Act(v, Feed).energy))
  {
    MoodMonotone(v.happiness, v.energy, Act(v, Feed).happiness, Act(v, Feed).energy);
  }

  // ------------------------------------------- study tick (no caller)

  const CoinsPerHalfMinute: int := 5

  /** `updateStudyTime`, which nothing on the page calls: one second of
      study. All three counters go up by one, happiness by one (clamped),
      and 5 coins are earned whenever the new study time is a multiple of
      30 seconds. */
  function UpdateStudyTime(b: Board): (r: Board)
    ensures r.studyTime == b.studyTime + 1
    ensures r.sessionTime == b.sessionTime + 1
    ensures r.totalStudyTime == b.totalStudyTime + 1
    ensures r.happiness == UpdateHappiness(b, 1.0).happiness
    ensures r.coins == b.coins + (if r.studyTime % 30 == 0 then CoinsPerHalfMinute else 0)
    ensures r.energy == b.energy && r.isFocused == b.isFocused && r.streak == b.streak
  {
    var ticked := b.(studyTime := b.studyTime + 1, sessionTime := b.sessionTime + 1,
                     totalStudyTime := b.totalStudyTime + 1);
    var happier := UpdateHappiness(ticked, 1.0);
    if happier.studyTime % 30 == 0 then happier.(coins := happier.coins + CoinsPerHalfMinute) else happier
  }

  function Ticks(b: Board, n: nat): Board {
    if n == 0 then b else UpdateStudyTime(Ticks(b, n - 1))
  }

  /** Studying `n` seconds from the start earns 5 coins per full half
      minute. */
  lemma {:induction false} TicksEarn(b: Board, n: nat)
    requires b.studyTime == 0
    ensures Ticks(b, n).studyTime == n
    ensures Ticks(b, n).coins == b.coins + CoinsPerHalfMinute * (n / 30)
  {
    if n > 0 {
      TicksEarn(b, n - 1);
      assert n / 30 == (n - 1) / 30 + (if n % 30 == 0 then 1 else 0);
    }
  }

  // --------------------------------------------------------- calculations

  /** `calculateFocusPercentage`: 95 when focused, 60 when not, plus one
      point per minute studied up to 10, capped at 100. */
  function CalculateFocusPercentage(isFocused: bool, studyTime: nat): (f: real)
    ensures isFocused ==> 95.0 <= f <= 100.0
    ensures !isFocused ==> 60.0 <= f <= 70.0
  {
    var baseFocus := if isFocused then 95.0 else 60.0;
    var timeBonus := Min(10.0, studyTime as real / 60.0);
    Min(100.0, baseFocus + timeBonus)
  }

  /** Studying longer never lowers the focus percentage. */
  lemma FocusPercentageMonotone(isFocused: bool, t: nat, t': nat)
    requires t <= t'
    ensures CalculateFocusPercentage(isFocused, t) <= CalculateFocusPercentage(isFocused, t')
  {
    assert t as real / 60.0 <= t' as real / 60.0;
  }

  /** The four milestones `calculateAchievements` counts. */
  datatype Milestone = OneMinute | HappyPet | ThreeDayStreak | HalfHourTotal

  const Milestones: seq<Milestone> := [OneMinute, HappyPet, ThreeDayStreak, HalfHourTotal]

  predicate Reached(m: Milestone, studyTime: int, happiness: real, streak: int, totalStudyTime: int) {
    match m
    case OneMinute => studyTime >= 60
    case HappyPet => happiness >= 80.0
    case ThreeDayStreak => streak >= 3
    case HalfHourTotal => totalStudyTime >= 1800
  }

  /** How many of `ms` are reached. */
  function CountReached(ms: seq<Milestone>, studyTime: int, happiness: real, streak: int, totalStudyTime: int): (n: nat)
    ensures n <= |ms|
  {
    if |ms| == 0 then 0
    else (if Reached(ms[0], studyTime, happiness, streak, totalStudyTime) then 1 else 0)
         + CountReached(ms[1..], studyTime, happiness, streak, totalStudyTime)
  }

  /** `calculateAchievements`: the number of milestones reached. */
  function CalculateAchievements(studyTime: int, happiness: real, streak: int, totalStudyTime: int): (count: nat)
    ensures count == CountReached(Milestones, studyTime, happiness, streak, totalStudyTime)
    ensures count <= 4
    ensures count == 4 <==> studyTime >= 60 && happiness >= 80.0 && streak >= 3 && totalStudyTime >= 1800
    ensures count == 0 <==> studyTime < 60 && happiness < 80.0 && streak < 3 && totalStudyTime < 1800
  {
    var count := 0;
    var count := if studyTime >= 60 then count + 1 else count;
    var count := if happiness >= 80.0 then count + 1 else count;
    var count := if streak >= 3 then count + 1 else count;
    var count := if totalStudyTime >= 1800 then count + 1 else count;
    var c4 := CountReached([HalfHourTotal], studyTime, happiness, streak, totalStudyTime);
    assert [HalfHourTotal][1..] == [];
    var c3 := CountReached([ThreeDayStreak, HalfHourTotal], studyTime, happiness, streak, totalStudyTime);
    assert [ThreeDayStreak, HalfHourTotal][1..] == [HalfHourTotal];
    var c2 := CountReached([HappyPet, ThreeDayStreak, HalfHourTotal], studyTime, happiness, streak, totalStudyTime);
    assert [HappyPet, ThreeDayStreak, HalfHourTotal][1..] == [ThreeDayStreak, HalfHourTotal];
    assert Milestones[1..] == [HappyPet, ThreeDayStreak, HalfHourTotal];
    count
  }

  /** More study, happiness or streak never lowers the count. */
  lemma AchievementsMonotone(s: int, h: real, k: int, t: int, s': int, h': real, k': int, t': int)
    requires s <= s' && h <= h' && k <= k' && t <= t'
    ensures CalculateAchievements(s, h, k, t) <= CalculateAchievements(s', h', k', t')
  {
  }

  // ------------------------------------------------------------- banner

  /** The stored `settings` object as the banner reads it: any field may
      be missing. */
  datatype StoredSettings = StoredSettings(
    smartBlocking: Option<bool>,
    happinessThreshold: Option<int>,
    energyThreshold: Option<int>,
    focusThreshold: Option<int>)

  /** What the settings page stores for a settings record. */
  function StoreSettings(s: Settings): StoredSettings {
    StoredSettings(Some(s.smartBlocking), Some(s.happinessThreshold), Some(s.energyThreshold), Some(s.focusThreshold))
  }

  /** JavaScript's `v || d` on a stored whole number. */
  function IntOrDefault(v: Option<int>, d: int): (r: int)
    ensures v.Some? && v.value != 0 ==> r == v.value
    ensures v.None? || v.value == 0 ==> r == d
  {
    if v.None? || v.value == 0 then d else v.value
  }

  /** The decision in `updateBlockingStatus`: the banner shows when smart
      blocking is on and a stat, read with `|| default`, is below its
      threshold, also read with `|| default`. With nothing stored, both
      objects read as empty. */
  function ShowBanner(settings: Option<StoredSettings>, stats: Option<StoredStats>): (show: bool)
    ensures settings.None? || settings.value.smartBlocking != Some(true) ==> !show
    ensures settings.Some? && settings.value.smartBlocking == Some(true) ==>
      var s := settings.value;
      var p := LoadPetStatsAsWritten(stats);
      (show <==> (p.happiness < IntOrDefault(s.happinessThreshold, 70) as real
                 || p.energy < IntOrDefault(s.energyThreshold, 60) as real
                 || p.focusPercentage < IntOrDefault(s.focusThreshold, 80) as real))
  {
    match settings
    case None => false
    case Some(s) =>
      if s.smartBlocking != Some(true) then false
      else
        var p := stats.GetOr(StoredStats(None, None, None));
        var happinessOk := OrDefault(p.happiness, 85.0) >= IntOrDefault(s.happinessThreshold, 70) as real;
        var energyOk := OrDefault(p.energy, 70.0) >= IntOrDefault(s.energyThreshold, 60) as real;
        var focusOk := OrDefault(p.focusPercentage, 95.0) >= IntOrDefault(s.focusThreshold, 80) as real;
        !(happinessOk && energyOk && focusOk)
  }

  /** For stored settings with non-zero thresholds, the banner shows
      exactly when the shared check blocks on the stats the `||` loader
      reads. */
  lemma BannerMatchesPolicy(s: Settings, stats: Option<StoredStats>)
    requires s.happinessThreshold != 0 && s.energyThreshold != 0 && s.focusThreshold != 0
    ensures ShowBanner(Some(StoreSettings(s)), stats) == Policy.CheckBlockingStatus(LoadPetStatsAsWritten(stats), s)
  {
  }

  /** A threshold stored as 0 is read as the default: with happiness at 50
      and the happiness threshold set to 0, the banner still shows. */
  lemma ZeroThresholdReadAsDefault()
    ensures var s := StoredSettings(Some(true), Some(0), Some(0), Some(0));
      ShowBanner(Some(s), Some(StoredStats(Some(50.0), Some(100.0), Some(100.0))))
  {
  }
}

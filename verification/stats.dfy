/** Pet stats: the three percentages every page reads, the clamp that keeps
    them in [0, 100], the shared `updatePetStats` utility, the loaders that
    fill in defaults, and the happy/neutral/sad mood. */
module PetStats {
  import opened Wrappers

  /** The stored stats record (`studyPetsPetStats`). */
  datatype Stats = Stats(happiness: real, energy: real, focusPercentage: real)

  /** The two stats the dashboard and the study page keep in memory. */
  datatype Vitals = Vitals(happiness: real, energy: real)

  const DefaultHappiness: real := 85.0
  const DefaultEnergy: real := 70.0
  const DefaultFocus: real := 95.0

  /** The stats of a first run, before anything has been stored. */
  const DefaultStats: Stats := Stats(DefaultHappiness, DefaultEnergy, DefaultFocus)

  function Min(a: real, b: real): real {
    if a <= b then a else b
  }

  function Max(a: real, b: real): real {
    if a >= b then a else b
  }

  predicate InRange(x: real) {
    0.0 <= x <= 100.0
  }

  predicate Valid(s: Stats) {
    InRange(s.happiness) && InRange(s.energy) && InRange(s.focusPercentage)
  }

  predicate ValidVitals(v: Vitals) {
    InRange(v.happiness) && InRange(v.energy)
  }

  /** `Math.max(0, Math.min(100, x))`: the nearest value in [0, 100]. */
  function Clamp(x: real): (r: real)
    ensures InRange(r)
    ensures InRange(x) ==> r == x
    ensures x < 0.0 ==> r == 0.0
    ensures x > 100.0 ==> r == 100.0
  {
    Max(0.0, Min(100.0, x))
  }

  /** How the pages apply a fixed step to a stat: a gain is capped at 100
      (`Math.min(100, x + d)`) and a loss floored at 0 (`Math.max(0, x + d)`).
      On a stat in range this is the clamp. */
  function Nudge(x: real, d: real): (r: real)
    ensures d >= 0.0 ==> r >= x || r == 100.0
    ensures d < 0.0 ==> r <= x || r == 0.0
    ensures InRange(x) ==> r == Clamp(x + d)
  {
    if d >= 0.0 then Min(100.0, x + d) else Max(0.0, x + d)
  }

  /** The `changes` argument of `updatePetStats`: a field that is absent
      (`undefined`) leaves its stat alone. */
  datatype Changes = Changes(happiness: Option<real>, energy: Option<real>, focusPercentage: Option<real>)

  /** `updatePetStats`: happiness and energy move by the given delta,
      focus is set to the given value; each result is clamped to [0, 100]
      and absent fields keep their old value. */
  function UpdatePetStats(current: Stats, changes: Changes): (r: Stats)
    ensures changes.happiness.None? ==> r.happiness == current.happiness
    ensures changes.energy.None? ==> r.energy == current.energy
    ensures changes.focusPercentage.None? ==> r.focusPercentage == current.focusPercentage
    ensures changes.happiness.Some? ==> r.happiness == Clamp(current.happiness + changes.happiness.value)
    ensures changes.energy.Some? ==> r.energy == Clamp(current.energy + changes.energy.value)
    ensures changes.focusPercentage.Some? ==> r.focusPercentage == Clamp(changes.focusPercentage.value)
    ensures Valid(current) ==> Valid(r)
  {
    var h := if changes.happiness.Some? then Clamp(current.happiness + changes.happiness.value) else current.happiness;
    var e := if changes.energy.Some? then Clamp(current.energy + changes.energy.value) else current.energy;
    var f := if changes.focusPercentage.Some? then Clamp(changes.focusPercentage.value) else current.focusPercentage;
    Stats(h, e, f)
  }

  /** Focus is an absolute setting, not a delta: applying the same change a
      second time leaves focus where the first application put it. */
  lemma FocusChangeIsAbsolute(current: Stats, changes: Changes)
    ensures UpdatePetStats(UpdatePetStats(current, changes), changes).focusPercentage
         == UpdatePetStats(current, changes).focusPercentage
  {
  }

  /** A stat as stored: a field may be missing from the stored object. */
  datatype StoredStats = StoredStats(happiness: Option<real>, energy: Option<real>, focusPercentage: Option<real>)

  /** What `save` writes for a stats record. */
  function Store(s: Stats): StoredStats {
    StoredStats(Some(s.happiness), Some(s.energy), Some(s.focusPercentage))
  }

  /** JavaScript's `v || d` on a stored number: a missing value and a stored
      0 both give `d`. */
  function OrDefault(v: Option<real>, d: real): (r: real)
    ensures v.Some? && v.value != 0.0 ==> r == v.value
    ensures v.None? || v.value == 0.0 ==> r == d
  {
    if v.None? || v.value == 0.0 then d else v.value
  }

  /** `loadPetStats` as written: each field is read with `|| default`, so a
      stored 0 comes back as the default; no record at all gives the
      defaults. */
  function LoadPetStatsAsWritten(stored: Option<StoredStats>): (r: Stats)
    ensures stored.None? ==> r == DefaultStats
    ensures stored.Some? && (stored.value.happiness.None? || stored.value.happiness.value == 0.0) ==> r.happiness == DefaultHappiness
    ensures stored.Some? && (stored.value.energy.None? || stored.value.energy.value == 0.0) ==> r.energy == DefaultEnergy
    ensures stored.Some? && (stored.value.focusPercentage.None? || stored.value.focusPercentage.value == 0.0) ==> r.focusPercentage == DefaultFocus
    ensures stored.Some? && stored.value.happiness.Some? && stored.value.happiness.value != 0.0 ==> r.happiness == stored.value.happiness.value
    ensures stored.Some? && stored.value.energy.Some? && stored.value.energy.value != 0.0 ==> r.energy == stored.value.energy.value
    ensures stored.Some? && stored.value.focusPercentage.Some? && stored.value.focusPercentage.value != 0.0 ==> r.focusPercentage == stored.value.focusPercentage.value
  {
    match stored
    case None => DefaultStats
    case Some(s) =>
      Stats(OrDefault(s.happiness, DefaultHappiness),
            OrDefault(s.energy, DefaultEnergy),
            OrDefault(s.focusPercentage, DefaultFocus))
  }

  /** A pet whose happiness has fallen to 0 is read back at 85: saving and
      loading does not give back what was saved. */
  lemma AsWrittenLoaderForgetsZero()
    ensures LoadPetStatsAsWritten(Some(Store(Stats(0.0, 50.0, 50.0)))) == Stats(85.0, 50.0, 50.0)
    ensures LoadPetStatsAsWritten(Some(Store(Stats(0.0, 50.0, 50.0)))) != Stats(0.0, 50.0, 50.0)
  {
  }

  /** The loader with the defaults applied only to missing fields (`??`),
      which is what the fallback is for. */
  function LoadPetStats(stored: Option<StoredStats>): (r: Stats)
    ensures stored.None? ==> r == DefaultStats
    ensures stored.Some? && stored.value.happiness.Some? ==> r.happiness == stored.value.happiness.value
    ensures stored.Some? && stored.value.energy.Some? ==> r.energy == stored.value.energy.value
    ensures stored.Some? && stored.value.focusPercentage.Some? ==> r.focusPercentage == stored.value.focusPercentage.value
    ensures stored.Some? && stored.value.happiness.None? ==> r.happiness == DefaultHappiness
    ensures stored.Some? && stored.value.energy.None? ==> r.energy == DefaultEnergy
    ensures stored.Some? && stored.value.focusPercentage.None? ==> r.focusPercentage == DefaultFocus
  {
    match stored
    case None => DefaultStats
    case Some(s) =>
      Stats(s.happiness.GetOr(DefaultHappiness),
            s.energy.GetOr(DefaultEnergy),
            s.focusPercentage.GetOr(DefaultFocus))
  }

  /** Loading what was saved gives it back, zeros included. */
  lemma LoadStoreRoundTrip(s: Stats)
    ensures LoadPetStats(Some(Store(s))) == s
  {
  }

  /** The two loaders differ only on stored zeros. */
  lemma LoadersAgreeOnNonZero(stored: StoredStats)
    requires stored.happiness != Some(0.0) && stored.energy != Some(0.0) && stored.focusPercentage != Some(0.0)
    ensures LoadPetStatsAsWritten(Some(stored)) == LoadPetStats(Some(stored))
  {
  }

  /** The pet's mood, shown as an emoji on the dashboard and saved as
      `pet_state` by the study page. */
  datatype Mood = Happy | Neutral | Sad

  /** `getPetEmoji` / `getPetState`: happy when both stats are at least 70,
      neutral when both are at least 40, sad otherwise. */
  function MoodOf(happiness: real, energy: real): (m: Mood)
    ensures m == Happy <==> happiness >= 70.0 && energy >= 70.0
    ensures m == Neutral <==> !(happiness >= 70.0 && energy >= 70.0) && happiness >= 40.0 && energy >= 40.0
    ensures m == Sad <==> happiness < 40.0 || energy < 40.0
  {
    if happiness >= 70.0 && energy >= 70.0 then Happy
    else if happiness >= 40.0 && energy >= 40.0 then Neutral
    else Sad
  }

  function MoodRank(m: Mood): nat {
    match m
    case Sad => 0
    case Neutral => 1
    case Happy => 2
  }

  /** Raising either stat never makes the mood worse. */
  lemma MoodMonotone(h: real, e: real, h': real, e': real)
    requires h <= h' && e <= e'
    ensures MoodRank(MoodOf(h, e)) <= MoodRank(MoodOf(h', e'))
  {
  }
}

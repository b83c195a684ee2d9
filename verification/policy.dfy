/** The threshold rule every copy of the blocker shares: entertainment is
    allowed while each of the pet's three stats is at least its threshold,
    and `smartBlocking` switches blocking off altogether. */
module Policy {
  import opened PetStats
  import opened SettingsPage

  /** A stat meets its threshold when it is at least the threshold. */
  predicate Meets(stat: real, threshold: int) {
    stat >= threshold as real
  }

  /** The reference rule: all three stats meet their thresholds. */
  predicate MeetsThresholds(p: Stats, s: Settings) {
    Meets(p.happiness, s.happinessThreshold)
    && Meets(p.energy, s.energyThreshold)
    && Meets(p.focusPercentage, s.focusThreshold)
  }

  /** `checkBlockingStatus` in the shared utilities: true means block. */
  function CheckBlockingStatus(p: Stats, s: Settings): (block: bool)
    ensures !s.smartBlocking ==> !block
    ensures s.smartBlocking ==>
      (block <==> (p.happiness < s.happinessThreshold as real
                   || p.energy < s.energyThreshold as real
                   || p.focusPercentage < s.focusThreshold as real))
  {
    if !s.smartBlocking then false
    else
      var happinessOk := p.happiness >= s.happinessThreshold as real;
      var energyOk := p.energy >= s.energyThreshold as real;
      var focusOk := p.focusPercentage >= s.focusThreshold as real;
      !(happinessOk && energyOk && focusOk)
  }

  /** The utilities' answer is the reference rule, negated, behind the
      `smartBlocking` switch. */
  lemma CheckBlockingStatusIsPolicy(p: Stats, s: Settings)
    ensures CheckBlockingStatus(p, s) <==> s.smartBlocking && !MeetsThresholds(p, s)
  {
  }

  /** Raising stats can only lift a block, never impose one. */
  lemma BlockingAntitone(p: Stats, q: Stats, s: Settings)
    requires p.happiness <= q.happiness && p.energy <= q.energy && p.focusPercentage <= q.focusPercentage
    ensures CheckBlockingStatus(q, s) ==> CheckBlockingStatus(p, s)
  {
  }

  /** Fresh stats meet the default thresholds, so a first run never blocks. */
  lemma DefaultsDoNotBlock()
    ensures !CheckBlockingStatus(DefaultStats, DefaultSettings())
  {
  }
}

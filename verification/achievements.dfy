/** The achievements page: progress towards each achievement, unlocking,
    the level computed from the number earned, and the split into earned,
    in-progress and not-started achievements. */
module Achievements {
  import opened Wrappers
  import JsMath
  import Sorting

  /** An achievement's state; its name, description, icon and reward are
      display only. `earnedAt` is set when it is unlocked. */
  datatype Achievement = Achievement(id: string, progress: int, maxProgress: nat, earned: bool, earnedAt: Option<int>)

  /** An achievement is consistent when its progress is within its maximum
      and it is earned exactly when the maximum is reached. */
  predicate Consistent(a: Achievement) {
    && 0 <= a.progress <= a.maxProgress
    && (a.earned <==> a.progress == a.maxProgress)
    && (a.earned ==> a.earnedAt.Some?)
  }

  predicate AllConsistent(s: seq<Achievement>) {
    forall i :: 0 <= i < |s| ==> Consistent(s[i])
  }

  /** `getDefaultAchievements`, with the clock reading `now` supplied by the
      caller: the two earned ones were earned one and two days earlier. */
  function DefaultAchievements(now: int): (s: seq<Achievement>)
    ensures |s| == 8 && AllConsistent(s)
  {
    [Achievement("first_focus", 1, 1, true, Some(now - 86400000)),
     Achievement("happy_pet", 1, 1, true, Some(now - 172800000)),
     Achievement("study_streak", 2, 3, false, None),
     Achievement("distraction_free", 0, 1, false, None),
     Achievement("early_bird", 3, 5, false, None),
     Achievement("night_owl", 1, 3, false, None),
     Achievement("weekend_warrior", 0, 1, false, None),
     Achievement("consistency_king", 4, 7, false, None)]
  }

  function AchievementId(a: Achievement): string {
    a.id
  }

  /** The position of the first achievement with the id, or `|s|`. */
  function FirstIndex(s: seq<Achievement>, id: string): nat {
    Sorting.FindIndex(s, AchievementId, id)
  }

  /** `updateAchievementProgress` with `unlockAchievement`, at time `now`:
      an unknown id or an achievement already earned changes nothing.
      Otherwise the first achievement with the id takes the new progress,
      capped at its maximum, and is unlocked when the maximum is reached. */
  function UpdateAchievementProgress(s: seq<Achievement>, id: string, progress: int, now: int): (r: seq<Achievement>)
    ensures |r| == |s|
    ensures FirstIndex(s, id) == |s| || s[FirstIndex(s, id)].earned ==> r == s
    ensures var k := FirstIndex(s, id);
      k < |s| && !s[k].earned ==>
        && r[k].id == id && r[k].maxProgress == s[k].maxProgress
        && r[k].progress == (if progress < s[k].maxProgress then progress else s[k].maxProgress)
        && (r[k].earned <==> progress >= s[k].maxProgress)
        && (r[k].earned ==> r[k].earnedAt == Some(now))
        && (!r[k].earned ==> r[k].earnedAt == s[k].earnedAt)
        && (forall j :: 0 <= j < |s| && j != k ==> r[j] == s[j])
  {
    var k := FirstIndex(s, id);
    if k == |s| || s[k].earned then s
    else
      var a := s[k];
      var capped := if progress < a.maxProgress then progress else a.maxProgress;
      var updated := if capped >= a.maxProgress then a.(progress := capped, earned := true, earnedAt := Some(now))
                     else a.(progress := capped);
      s[k := updated]
  }

  /** An update never takes an achievement away, never raises progress past
      the maximum, and keeps a consistent list consistent as long as the
      reported progress is not negative. */
  lemma UpdateKeepsConsistent(s: seq<Achievement>, id: string, progress: int, now: int)
    requires AllConsistent(s) && progress >= 0
    ensures var r := UpdateAchievementProgress(s, id, progress, now);
      AllConsistent(r) && forall j :: 0 <= j < |s| && s[j].earned ==> r[j] == s[j]
  {
  }

  // --------------------------------------------------------------- counts

  function EarnedCount(s: seq<Achievement>): (n: nat)
    ensures n <= |s|
  {
    if |s| == 0 then 0 else (if s[0].earned then 1 else 0) + EarnedCount(s[1..])
  }

  function InProgressCount(s: seq<Achievement>): (n: nat)
    ensures n <= |s|
  {
    if |s| == 0 then 0 else (if !s[0].earned && s[0].progress > 0 then 1 else 0) + InProgressCount(s[1..])
  }

  function NotStartedCount(s: seq<Achievement>): (n: nat)
    ensures n <= |s|
  {
    if |s| == 0 then 0 else (if !s[0].earned && s[0].progress == 0 then 1 else 0) + NotStartedCount(s[1..])
  }

  /** Replacing one achievement changes the earned count by what that one
      contributed. */
  lemma {:induction false} EarnedCountUpdate(s: seq<Achievement>, k: nat, a: Achievement)
    requires k < |s|
    ensures EarnedCount(s[k := a]) + (if s[k].earned then 1 else 0) == EarnedCount(s) + (if a.earned then 1 else 0)
  {
    if k == 0 {
      assert s[k := a][1..] == s[1..];
    } else {
      assert s[k := a][1..] == s[1..][k - 1 := a];
      EarnedCountUpdate(s[1..], k - 1, a);
    }
  }

  /** An update that unlocks an achievement raises the earned count by
      exactly one; any other update leaves it alone. */
  lemma UnlockCountsOnce(s: seq<Achievement>, id: string, progress: int, now: int)
    ensures var k := FirstIndex(s, id);
      EarnedCount(UpdateAchievementProgress(s, id, progress, now))
        == EarnedCount(s) + (if k < |s| && !s[k].earned && progress >= s[k].maxProgress then 1 else 0)
  {
    var k := FirstIndex(s, id);
    if k < |s| && !s[k].earned {
      EarnedCountUpdate(s, k, UpdateAchievementProgress(s, id, progress, now)[k]);
      assert UpdateAchievementProgress(s, id, progress, now) == s[k := UpdateAchievementProgress(s, id, progress, now)[k]];
    }
  }

  /** The counts of `getAchievementStats`. */
  datatype AchievementStats = AchievementStats(earned: nat, inProgress: nat, notStarted: nat, total: nat)

  function GetAchievementStats(s: seq<Achievement>): (r: AchievementStats)
    ensures r.earned == EarnedCount(s) && r.total == |s|
    ensures (forall i :: 0 <= i < |s| ==> s[i].progress >= 0) ==> r.earned + r.inProgress + r.notStarted == r.total
  {
    PartitionCounts(s);
    AchievementStats(EarnedCount(s), InProgressCount(s), NotStartedCount(s), |s|)
  }

  /** With no negative progress, every achievement is in exactly one of the
      three classes, so the counts add up to the total. */
  lemma {:induction false} PartitionCounts(s: seq<Achievement>)
    ensures (forall i :: 0 <= i < |s| ==> s[i].progress >= 0) ==>
      EarnedCount(s) + InProgressCount(s) + NotStartedCount(s) == |s|
  {
    if |s| > 0 && (forall i :: 0 <= i < |s| ==> s[i].progress >= 0) {
      assert forall i :: 0 <= i < |s[1..]| ==> s[1..][i] == s[i + 1];
      PartitionCounts(s[1..]);
    }
  }

  // ---------------------------------------------------------------- level

  /** The numbers `calculateStats` shows. The completion rate is `None`
      for an empty list, where the division gives NaN. */
  datatype PageStats = PageStats(earnedCount: nat, totalCount: nat, completionRate: Option<int>, level: nat, nextLevelProgress: real)

  /** `calculateStats`: a new level every three achievements, the share of
      the way to the next one, and the rounded percentage earned. Both
      percentages are exact here; the page computes them in floating point. */
  function CalculateStats(s: seq<Achievement>): (r: PageStats)
    ensures r.earnedCount == EarnedCount(s) && r.totalCount == |s| && r.earnedCount <= r.totalCount
    ensures r.level >= 1 && 3 * (r.level - 1) <= r.earnedCount < 3 * r.level
    ensures r.nextLevelProgress == (r.earnedCount - 3 * (r.level - 1)) as real * 100.0 / 3.0
    ensures 0.0 <= r.nextLevelProgress < 100.0
    ensures r.completionRate.None? <==> |s| == 0
    ensures r.completionRate.Some? ==> 0 <= r.completionRate.value <= 100
    ensures r.completionRate.Some? ==>
      2 * |s| * r.completionRate.value <= 200 * r.earnedCount + |s| < 2 * |s| * (r.completionRate.value + 1)
  {
    var earned := EarnedCount(s);
    var total := |s|;
    var level := earned / 3 + 1;
    var next := ((earned % 3) as real / 3.0) * 100.0;
    if total == 0 then PageStats(earned, total, None, level, next)
    else
      JsMath.RoundRatioScaledBounds(earned, total, 100);
      PageStats(earned, total, Some(JsMath.RoundRatio(100 * earned, total)), level, next)
  }

  /** The level never drops as achievements are earned. */
  lemma LevelMonotone(s: seq<Achievement>, t: seq<Achievement>)
    requires EarnedCount(s) <= EarnedCount(t)
    ensures CalculateStats(s).level <= CalculateStats(t).level
  {
  }

  /** `calculateProgressPercent`: progress as a percentage of the maximum;
      `None` for a maximum of 0, where the division gives no finite
      percentage (NaN for no progress, Infinity otherwise). No shipped
      achievement has a maximum of 0. */
  function ProgressPercent(a: Achievement): (p: Option<real>)
    ensures p.None? <==> a.maxProgress == 0
    ensures Consistent(a) && p.Some? ==> 0.0 <= p.value <= 100.0
    ensures Consistent(a) && p.Some? ==> (p.value == 100.0 <==> a.earned)
  {
    if a.maxProgress == 0 then None
    else Some((a.progress as real / a.maxProgress as real) * 100.0)
  }
}

# StudyPets core in Dafny

StudyPets is a study companion. A virtual pet's happiness, energy and focus
follow how well the user studies. When the pet falls below thresholds the
user has set, entertainment sites are blocked. This project models the
rules under the pages and the browser extension as pure Dafny functions over
immutable values. Storage, timers, the DOM and the browser APIs become
parameters or are left out.

What is modelled, module by module:

- `PetStats` (stats.dfy). The stat record and the clamp to [0, 100]. The
  shared `updatePetStats`. The loaders that fill in defaults (85/70/95). The
  happy/neutral/sad mood.
- `Policy` (policy.dfy). The threshold rule: block while some stat is below
  its threshold and smart blocking is on. The other copies of the rule are
  proved equal to it.
- `Extension` (extension.dfy). The background worker's state machine, made
  of the blocking flag and the installed redirect rules. It includes rule
  generation per strictness tier and the redirect address. The worker also
  defines `trackBlockedAttempt`, a blocked-attempt log capped at 100, which
  has no caller: the message listener (background.js:303-318) answers only
  settings, stats and status messages. So the stored log the popup counts
  stays empty. The function is modelled as written, not as something the
  worker runs.
- `Matching` (matching.dfy). Domain matching under the strict, moderate and
  loose tiers.
- `PageBlocker` (page_blocker.dfy). The blocker the web pages load. It covers
  the threshold check, the missing-stat list, the average-based face and the
  uncapped attempt log.
- `Dashboard` (dashboard.dfy). Pet care actions, focus percentage,
  achievement count and the blocking banner. The dashboard shows aggregated
  stats and runs no live timer. It also defines `updateStudyTime`, a
  one-second tick with a coin reward that nothing calls; it is modelled as
  the method it is, not as something the dashboard runs.
- `Study` (study.js in study.dfy). Session start and the once-a-second focus
  tracker with its 30-second idle limit. Also mood reactions, coins earned
  and the focus level saved with a session.
- `Shop` (shop.dfy). The catalogue, purchase, use, inventory and item
  effects.
- `Achievements` (achievements.dfy). Progress, unlocking, level and the
  earned/in-progress/not-started split.
- `SettingsPage` (settings.dfy). The settings record and its defaults. Also
  toggle switches, range sliders, and adding and removing entertainment sites.
- `Calendar` (calendar.dfy). Adding a planned session to its date, kept in
  time order. Also the two sessions a day cell shows, the five upcoming
  sessions, and `YYYY-MM-DD` keys.
- `Analytics` (analytics.dfy). The weekly focus chart.
- Supporting modules:
  - `TimeFormat`: `Xm Ys` and `MM:SS`, each with a parser that reads it back.
  - `Digits`: JavaScript's `parseInt`, number-to-text and two-digit padding.
  - `Text`: trimming, searching and code-point order.
  - `Sorting`: lookup by id and a stable sort by a string key.
  - `Uri`: `encodeURIComponent` over UTF-8, with a decoder.
  - `JsMath`: `Math.round` and `Math.floor` of a ratio, computed exactly.
  - `Wrappers`: `Option`.

Stats are `real`, because the pages add fractions and divide. Thresholds and
slider settings are `int`, because they come from `parseInt`. A JavaScript
`x || d` is modelled as written: a missing value and a stored 0 both give
`d`.

Clock readings are parameters: `now` in the focus tracker, in session start
and in achievement unlocking. So are the weekday of a saved session and the
extension's blocked-page address.

## Model

| member | source | states |
|---|---|---|
| PetStats.Clamp | src/utils/studyPetsUtils.js:175 | The result lies in [0, 100]. It equals the input when the input is in range, 0 below the range and 100 above it. |
| PetStats.Nudge | src/frontend/dashboard/script.js:331-357 | A gain is capped at 100 and a loss floored at 0. A gain never lowers the stat and a loss never raises it, except at the bounds. On an in-range stat this is the clamp of stat plus step. |
| PetStats.UpdatePetStats | src/utils/studyPetsUtils.js:171-187 | Happiness and energy become the clamp of old plus delta. Focus becomes the clamp of the given value. A field absent from `changes` is unchanged. A stat record in range stays in range. |
| PetStats.FocusChangeIsAbsolute | src/utils/studyPetsUtils.js:182-184 | Focus is set, not added to: applying the same change twice gives the same focus as applying it once. |
| PetStats.LoadPetStatsAsWritten | src/utils/studyPetsUtils.js:10-33 | With nothing stored the defaults 85/70/95 are returned. Each field that is missing or stored as 0 comes back as its default (85, 70 or 95). Every other stored field comes back as stored. |
| PetStats.AsWrittenLoaderForgetsZero | src/utils/studyPetsUtils.js:16-18 | Saving a pet with happiness 0 and loading it back gives happiness 85, not the 0 that was saved. |
| PetStats.LoadPetStats | src/utils/studyPetsUtils.js:10-33 | The corrected loader: every stored field is returned as stored, zeros included. A field missing from the stored record gets its default (85, 70 or 95), and so does every field of a missing record. |
| PetStats.LoadStoreRoundTrip | src/utils/studyPetsUtils.js:10-40 | Loading what was saved gives back exactly the saved stats. |
| PetStats.LoadersAgreeOnNonZero | src/utils/studyPetsUtils.js:16-18 | The written and corrected loaders agree on every stored record that has no zero field. |
| PetStats.MoodOf | src/utils/studyPetsUtils.js:106-114 | Happy iff both stats are at least 70. Neutral iff not happy and both are at least 40. Sad iff either stat is below 40. |
| PetStats.MoodMonotone | src/utils/studyPetsUtils.js:106-114 | Raising either stat never gives a worse mood. |
| Policy.CheckBlockingStatus | src/utils/studyPetsUtils.js:189-199 | With smart blocking off nothing is blocked. With it on, blocking happens iff some stat is strictly below its threshold; a stat equal to its threshold passes. |
| Policy.CheckBlockingStatusIsPolicy | src/utils/studyPetsUtils.js:189-199 | The utilities' answer is the reference rule "all three thresholds met", negated, behind the smart-blocking switch. |
| Policy.BlockingAntitone | src/utils/studyPetsUtils.js:194-198 | If higher stats are blocked, lower stats are blocked too: raising stats can only lift a block. |
| Policy.DefaultsDoNotBlock | src/frontend/settings/settings.js:39-43 | A fresh pet (85/70/95) meets the default thresholds (70/60/80), so a first run never blocks. |
| Extension.CheckPetThresholds | browser-extension/background.js:142-159 | With settings or stats missing, the threshold test reports "not met". Otherwise it holds iff the reference rule holds. |
| Extension.BuildRules | browser-extension/background.js:169-211 | Moderate and loose give two rules per site; strict and any other tier give one. Rule i has id `next + i` and priority 1. |
| Extension.OneRulePerSite | browser-extension/background.js:173-190 | Under strict or an unrecognised tier, rule k is site k's exact-domain rule with id `next + k`. |
| Extension.TwoRulesPerSite | browser-extension/background.js:173-211 | Under moderate and loose, rules 2k and 2k+1 are site k's exact-domain rule followed by its subdomain rule, numbered consecutively. |
| Extension.SiteRulesShareRedirect | browser-extension/background.js:180-203 | Both rules of a site redirect to the same blocked-page address, the one built for that site. |
| Extension.RuleIdsUnique | browser-extension/background.js:171-196 | No two generated rules share an id. |
| Extension.RedirectCarriesSite | browser-extension/background.js:181-183 | The redirect query starts with `?domain=`. Up to the first `&` it decodes to the site's UTF-8 bytes. After `&originalUrl=` it decodes to those of `https://` plus the site. |
| Extension.ClearBlockingRules | browser-extension/background.js:227-243 | Afterwards no rule is installed and nothing else has changed. |
| Extension.UpdateBlockingRules | browser-extension/background.js:161-225 | With settings or the site list missing, nothing changes. Otherwise the installed set becomes exactly the rules for the listed sites, numbered from 1. Only the installed set changes. |
| Extension.RulesReplaced | browser-extension/background.js:166-167 | The rules installed by an update do not depend on what was installed before: the set is replaced, not added to. |
| Extension.UpdateBlockingStatus | browser-extension/background.js:118-140 | Blocking is on iff smart blocking is enabled and the threshold check fails. While blocking is off no rule is installed. While it is on, the rules for the site list are installed, or the old set is kept when there is no list. |
| Extension.UpdateIdempotent | browser-extension/background.js:118-140 | A second update with nothing new read from storage changes nothing. |
| Extension.ExtensionAgreesWithUtilities | browser-extension/background.js:127-137 | Once settings and stats are loaded, the extension blocks exactly when the shared utilities' check says to. |
| Extension.Init | browser-extension/background.js:12-66 | Settings and stats are the stored ones, or the defaults when nothing is stored. The rules for the site list are installed at once, while the blocking flag is still off. |
| Extension.InitInstallsWhileInactive | browser-extension/background.js:12-18 | With a non-empty site list, the worker starts with rules installed and blocking off. |
| Extension.FreshInstallBlocksUntilFirstCheck | browser-extension/background.js:12-18 | A fresh install starts with the 38 default rules installed and blocking off. The first status update removes them all, since the default pet meets every threshold. |
| Extension.DefaultBlockInstallsTwoRulesPerSite | browser-extension/background.js:193-210 | Take the default settings and a pet below the happiness threshold. Then 38 rules are installed, two for each of the 19 default sites. |
| Extension.TrackBlockedAttempt | browser-extension/background.js:257-278 | The function has no caller (background.js:303-318 never invokes it). Called, the log is the last min(100, n + 1) entries of the old log followed by the new attempt. The new attempt is last. A missing log counts as empty. |
| Extension.TrackBelowCap | browser-extension/background.js:269-272 | About the uncalled function only. Below 100 entries nothing is dropped. |
| Extension.TrackAtCap | browser-extension/background.js:269-272 | About the uncalled function only. At 100 entries exactly the oldest one is dropped. |
| Matching.IsEntertainmentSite | src/frontend/shared/website-blocker.js:133-146 | True iff some listed site matches the domain under the current tier. |
| Matching.DomainMatches | src/frontend/shared/website-blocker.js:135-143 | The reference match of one listed site. Strict and unrecognised tiers need equality. Moderate also accepts a domain ending in `.` plus the site. Loose accepts either name containing the other. |
| Matching.ExactMatchesEverywhere | src/frontend/shared/website-blocker.js:136-143 | A domain equal to a listed site matches under every tier. |
| Matching.TiersNest | src/frontend/shared/website-blocker.js:135-144 | A strict match is a moderate match, and a moderate match is a loose match. An unrecognised tier matches exactly as strict does. |
| Matching.ListTiersNest | src/frontend/shared/website-blocker.js:133-146 | The same nesting holds for a whole site list. |
| Matching.SubdomainCaughtFromModerate | src/frontend/shared/website-blocker.js:136-139 | `m.youtube.com` is caught by the list `youtube.com` under moderate but not under strict. |
| PageBlocker.CheckPetThresholds | src/frontend/shared/website-blocker.js:86-99 | Holds iff the reference rule holds. |
| PageBlocker.CheckBlockingStatus | src/frontend/shared/website-blocker.js:61-84 | With smart blocking off, blocking is cleared and the stats are not reloaded. Otherwise the stats are reloaded with the `||` loader, and blocking is on iff a threshold is missed. |
| PageBlocker.PageAgreesWithUtilities | src/frontend/shared/website-blocker.js:61-84 | On the stats it loads, the page reaches the shared utilities' verdict. |
| PageBlocker.ShouldBlockPage | src/frontend/shared/website-blocker.js:125-131 | A page is replaced only while blocking is on and a site list exists. It is then replaced iff some listed site matches its host. |
| PageBlocker.MissingStats | src/frontend/shared/website-blocker.js:207-219 | Lists exactly the stats strictly below their thresholds, in the order happiness, energy, focus. The list is empty iff the threshold check holds. |
| PageBlocker.PetFace | src/frontend/shared/website-blocker.js:221-227 | The face is decided by the average of the three stats, with steps at 80, 60 and 40. Each face holds iff the average is in its band. |
| PageBlocker.PetFaceMonotone | src/frontend/shared/website-blocker.js:221-227 | Raising any stat never gives a sadder face. |
| PageBlocker.FaceAndMoodDisagree | src/frontend/shared/website-blocker.js:221-227 | With happiness 100, energy 0 and focus 100, the page's face smiles while the dashboard mood is sad. |
| PageBlocker.TrackBlockedAttempt | src/frontend/shared/website-blocker.js:411-421 | The log grows by exactly one: the old log, then the new attempt. Nothing is dropped. |
| PageBlocker.LogsDivergeAtCap | src/frontend/shared/website-blocker.js:411-418 | The two functions differ as written: applied to 100 entries, the page's grows the log to 101 and the extension's keeps 100. They write different stores, and the extension's function has no caller, so no running log shows this. |
| Dashboard.UpdateHappiness | src/frontend/dashboard/script.js:312-315 | Happiness stays in [0, 100] for any change. It moves by exactly the change when that stays in range and sticks at the bound otherwise. Nothing else changes. |
| Dashboard.UpdateHappinessIsUtility | src/frontend/dashboard/script.js:312-315 | The dashboard's happiness step is the shared `updatePetStats` with only a happiness delta. |
| Dashboard.Act | src/frontend/dashboard/script.js:331-357 | Every care action moves each stat by its own step (feed +3/+10, play +8/-5, rest +2/+15, pet +5/+3), capped at 100 and floored at 0. Vitals in range stay in range. |
| Dashboard.HappinessDelta | src/frontend/dashboard/script.js:331-354 | The happiness step of each care action. Every action raises happiness. |
| Dashboard.EnergyDelta | src/frontend/dashboard/script.js:331-354 | The energy step of each care action. Energy drops iff the action is play. |
| Dashboard.ActIsClampedUpdate | src/frontend/dashboard/script.js:331-357 | On vitals in range, every care action is the shared clamped update with that action's deltas. |
| Dashboard.ActAll | src/frontend/dashboard/script.js:331-357 | Any sequence of care actions keeps vitals that start in range in range. |
| Dashboard.FeedNeverSaddens | src/frontend/dashboard/script.js:331-336 | Feeding never makes the mood worse. |
| Dashboard.UpdateStudyTime | src/frontend/dashboard/script.js:261-271 | The method has no caller: the dashboard runs no timer (script.js:251-257). Called, all three counters go up by one and happiness by one, clamped. Five coins are earned exactly when the new study time is a multiple of 30. Energy, focus and streak are untouched. |
| Dashboard.TicksEarn | src/frontend/dashboard/script.js:261-271 | About the uncalled method only. From a study time of 0, n ticks reach study time n and earn 5 coins per full 30 seconds. |
| Dashboard.CalculateFocusPercentage | src/frontend/dashboard/script.js:495-499 | The percentage is in [95, 100] when focused and in [60, 70] when not. |
| Dashboard.FocusPercentageMonotone | src/utils/studyPetsUtils.js:156-160 | Studying longer never lowers the focus percentage. |
| Dashboard.CalculateAchievements | src/utils/studyPetsUtils.js:162-169 | The count is the number of the four milestones reached, at most 4. It is 4 iff all four hold and 0 iff none holds. |
| Dashboard.CountReached | src/frontend/dashboard/script.js:501-508 | The reference count: how many of the listed milestones are reached, at most as many as are listed. |
| Dashboard.AchievementsMonotone | src/frontend/dashboard/script.js:501-508 | More study time, happiness, streak or total time never lowers the count. |
| Dashboard.ShowBanner | src/frontend/dashboard/script.js:896-924 | The banner is hidden unless smart blocking is on. It then shows iff some stat is below its threshold. Stats are read with `|| 85/70/95` and thresholds with `|| 70/60/80`, and a missing stored object reads as empty. |
| Dashboard.BannerMatchesPolicy | src/frontend/dashboard/script.js:907-911 | With non-zero thresholds, the banner shows iff the shared check blocks on the stats the `||` loader reads. |
| Dashboard.ZeroThresholdReadAsDefault | src/frontend/dashboard/script.js:908 | A threshold stored as 0 is read as the default: a happiness of 50 against a stored threshold of 0 still shows the banner. |
| Study.StartSession | src/frontend/study/study.js:115-157 | No session starts without a selected option. A custom session lasts the entered minutes when they parse to a positive number, and 25 minutes otherwise. A focus session has no limit and every other type lasts 25 minutes. Counters start at 0 and the start time is `now`. |
| Study.CustomMinutes | src/frontend/study/study.js:125-129 | A custom duration of n > 0 minutes typed as digits gives a session of n minutes. |
| Study.UpdateFocusTracking | src/frontend/study/study.js:279-300 | A tick is focused iff the last activity was under 30 s ago. A focused tick adds 1000 ms of focus to both records. A focused-to-unfocused tick counts one distraction in both. The pet's stats are unchanged, because the display-only redefinition at line 731 replaces the stat-changing method. |
| Study.IdleWhileUnfocused | src/frontend/study/study.js:279-300 | Idle ticks on an unfocused tracker change nothing. |
| Study.IdleStretchCountsOnce | src/frontend/study/study.js:284-295 | A run of idle ticks counts at most one distraction and adds no focus time, however long it lasts. |
| Study.UpdateActivity | src/frontend/study/study.js:392-394 | The last-activity time becomes `now` and nothing else changes. |
| Study.ActivityRefocuses | src/frontend/study/study.js:281-285 | A tick within 30 s of an activity is focused. |
| Study.HandleVisibilityChange | src/frontend/study/study.js:396-403 | Hiding the tab loses focus and counts a distraction, even when focus was already lost. Nothing else in the focus record changes: the last-activity time and the focus total are kept. Showing it again counts as activity. |
| Study.UpdatePetState | src/frontend/study/study.js:694-712 | Happy moves happiness by +5 and energy by +2, capped at 100. Sad moves them by -10 and -5, floored at 0. Any other mood changes nothing. Vitals in range stay in range. |
| Study.MoodChangeIsClampedUpdate | src/frontend/study/study.js:694-702 | On vitals in range, both mood reactions are the shared clamped update with those deltas. |
| Study.HandleActivity | src/frontend/study/study.js:587-602 | Input always leaves the tracker focused. Input after focus was lost also cheers the pet up, and only the focus flag of the focus record changes: the last-activity time is not refreshed. Input while focused changes nothing. |
| Study.ClickDoesNotRefreshIdleClock | src/frontend/study/study.js:562-602 | A click reaches only `handleActivity` (study.js:562-565), which does not move the last-activity time. So when that time is at least 30 s old, the tick after a click refocuses drops focus again and counts one more distraction. |
| Study.HandleMoveOrKey | src/frontend/study/study.js:552-560 | A mouse move or key press first runs `updateActivity` (bound at study.js:85-86), then `handleActivity`. The tracker ends focused, with the last-activity time set to now. Distractions, focus total and session are unchanged. The pet is cheered up only if focus had been lost. |
| Study.MoveOrKeyRefreshesIdleClock | src/frontend/study/study.js:85-86 | After a mouse move or key press, every tick within the next 30 s is focused, unlike after a click. |
| Study.GetPetState | src/frontend/study/study.js:500-507 | The saved pet state is the same mood the dashboard shows. |
| Study.UpdateCurrency | src/frontend/study/study.js:406-417 | The coins earned are the whole minutes of focus. The new balance is the stored balance plus those coins. A missing or empty balance reads as 0, and one that does not parse gives NaN. |
| Study.CurrencyAccumulates | src/frontend/study/study.js:415-416 | A balance stored as digits reads back and grows by `totalFocusTime / 60000`. |
| Study.UnfocusedMs | src/frontend/study/study.js:421-422 | The unfocused time is never negative. It is total minus focused when focus does not exceed the total, and 0 otherwise. |
| Study.CalculateFocusLevel | src/frontend/study/study.js:495-498 | With no session or no elapsed time the level is 0. Otherwise it is the exact focused share as a percentage, rounded half up (see "Left out" for the floating-point product). |
| Study.FocusLevelInRange | src/frontend/study/study.js:495-498 | A session never focused for longer than it ran scores between 0 and 100. |
| Study.FullFocusScoresHundred | src/frontend/study/study.js:495-498 | A fully focused session scores 100. |
| Shop.ItemsForCategory | src/frontend/shop/shop.js:200-209 | "all" lists food, toys and accessories in that order. A known category lists its own items and an unknown one lists nothing. Every listed item is in the catalogue. |
| Shop.FindItemById | src/frontend/shop/shop.js:270-276 | A found item is in the catalogue and has the id. Nothing is found iff no catalogue item has the id. |
| Shop.FindItemFindsEachItem | src/frontend/shop/shop.js:39-145 | Catalogue ids are distinct, so looking up any item's id finds that item. |
| Shop.RemoveItemFromInventory | src/frontend/shop/shop.js:325-331 | The count drops by one, and the entry is deleted when it would reach 0. Every other entry is unchanged, and all counts stay positive. |
| Shop.InventoryItems | src/frontend/shop/shop.js:251-253 | Lists exactly the held items with their counts. |
| Shop.PositiveListedInFull | src/frontend/shop/shop.js:251-253 | An inventory of positive counts is listed in full. |
| Shop.ApplyEffectToStats | src/frontend/shop/shop.js:346-356 | Each stat the effect names becomes the stored value plus the effect, capped at 100. A missing or zero stored value reads as 85/70/95. Stats the effect does not name are left as they are. |
| Shop.EffectIsClampedUpdate | src/frontend/shop/shop.js:346-352 | On stats in range with no zero stat, a happiness and energy boost is the shared clamped update. |
| Shop.EffectKeepsRange | src/frontend/shop/shop.js:346-356 | Effects that are never negative keep every stored stat in range. |
| Shop.BuyItem | src/frontend/shop/shop.js:278-304 | An unknown item, or one the user cannot afford, changes nothing. Otherwise the price is paid, that item's count goes up by one with every other entry unchanged, and the item's effect is applied. The balance never goes negative, and positive counts stay positive. |
| Shop.CanAfford | src/frontend/shop/shop.js:290-292 | The reference affordability test: the balance is at least the price. |
| Shop.UseItem | src/frontend/shop/shop.js:306-323 | An item not held, or not in the catalogue, changes nothing. Otherwise one is taken from the inventory and its effect is applied; the balance is untouched. |
| Shop.HasItem | src/frontend/shop/shop.js:321-323 | The reference holding test: a positive count is stored for the id. |
| Shop.UseUndoesBuyInventory | src/frontend/shop/shop.js:278-331 | Using what was just bought restores the inventory from before the purchase. The price stays paid. |
| Achievements.DefaultAchievements | src/frontend/achievements/achievements.js:26-111 | Eight achievements, each with progress within its maximum and earned exactly when the maximum is reached. |
| Achievements.UpdateAchievementProgress | src/frontend/achievements/achievements.js:295-314 | An unknown id or an earned achievement changes nothing. Otherwise the first achievement with the id takes the progress, capped at its maximum. It is unlocked at time `now` iff the maximum is reached. No other achievement changes. |
| Achievements.UpdateKeepsConsistent | src/frontend/achievements/achievements.js:295-314 | An update keeps every achievement consistent for non-negative progress: progress within the maximum, earned exactly at the maximum. It never takes an earned achievement away. |
| Achievements.EarnedCountUpdate | src/frontend/achievements/achievements.js:236 | Replacing one achievement changes the earned count by exactly what that one contributed. |
| Achievements.UnlockCountsOnce | src/frontend/achievements/achievements.js:295-314 | An update that unlocks raises the earned count by exactly one. Any other update leaves it alone. |
| Achievements.GetAchievementStats | src/frontend/achievements/achievements.js:378-389 | Earned is the earned count and total is the list length. With non-negative progress, earned, in-progress and not-started add up to the total. |
| Achievements.EarnedCount | src/frontend/achievements/achievements.js:378 | The number of earned achievements, at most the list length. The inductions about this count are `PartitionCounts` and `EarnedCountUpdate`. |
| Achievements.InProgressCount | src/frontend/achievements/achievements.js:379 | The number of unearned achievements with positive progress, at most the list length. How it splits the list with the other two counts is `PartitionCounts`. |
| Achievements.NotStartedCount | src/frontend/achievements/achievements.js:380 | The number of unearned achievements with no progress, at most the list length. How it splits the list with the other two counts is `PartitionCounts`. |
| Achievements.PartitionCounts | src/frontend/achievements/achievements.js:378-380 | With non-negative progress every achievement is in exactly one of the three classes. |
| Achievements.CalculateStats | src/frontend/achievements/achievements.js:235-250 | The level is one more than a third of the earned count, rounded down, and the next-level progress lies in [0, 100). The completion rate is the exact earned percentage rounded half up, within [0, 100], and NaN for an empty list. |
| Achievements.LevelMonotone | src/frontend/achievements/achievements.js:240 | Earning more never lowers the level. |
| Achievements.ProgressPercent | src/frontend/achievements/achievements.js:204-206 | There is no finite percentage iff the maximum is 0 (JavaScript gives NaN or Infinity there; no shipped achievement has a maximum of 0). For a consistent achievement it lies in [0, 100], and it is 100 iff the achievement is earned. |
| SettingsPage.ParseStrictness | src/frontend/shared/website-blocker.js:135-144 | Each of "strict", "moderate" and "loose" selects its own tier. Any other string is unrecognised. |
| SettingsPage.DefaultSitesDistinct | src/frontend/settings/settings.js:44-49 | The default list has 19 sites and names each once. |
| SettingsPage.DefaultSettings | src/frontend/settings/settings.js:25-51 | Smart blocking is on, the thresholds are 70/60/80 and the tier is moderate. The site list is the 19 distinct defaults. |
| SettingsPage.HandleToggleSwitch | src/frontend/settings/settings.js:115-129 | A switch shown active turns its setting off and any other turns it on. Writing the old value back restores every setting, so nothing else changed. |
| SettingsPage.SetToggleRestores | src/frontend/settings/settings.js:121-124 | A toggle write sets its own field and touches no other. |
| SettingsPage.ToggleTwiceRestores | src/frontend/settings/settings.js:115-129 | Two clicks on the same switch restore the settings. |
| SettingsPage.HandleRangeInput | src/frontend/settings/settings.js:139-146 | The named setting becomes `parseInt` of the slider's value. Writing the old value back restores every setting, so nothing else changed. |
| SettingsPage.SetRangeRestores | src/frontend/settings/settings.js:143 | A slider write sets its own field and touches no other. |
| SettingsPage.RangeInputReadsNumber | src/frontend/settings/settings.js:139-146 | A slider showing the number n sets its setting to exactly n. |
| SettingsPage.RemoveAll | src/frontend/settings/settings.js:478 | The filtered list no longer holds the site. Every other site keeps its number of occurrences. |
| SettingsPage.RemoveAllAbsent | src/frontend/settings/settings.js:478 | Filtering out a site that is not listed changes nothing. |
| SettingsPage.RemoveAllAppend | src/frontend/settings/settings.js:478 | Filtering a concatenation filters each part and keeps their order. |
| SettingsPage.AddSite | src/frontend/settings/settings.js:453-463 | The trimmed input is appended iff it is non-empty and not already listed; otherwise nothing changes. A list without duplicates keeps none. With no stored list nothing changes. |
| SettingsPage.RemoveSite | src/frontend/settings/settings.js:474-485 | Every occurrence of the site is removed, and every other site stays listed iff it was listed. Nothing but the list changes. |
| SettingsPage.AddThenRemove | src/frontend/settings/settings.js:453-485 | Removing a site that was just added restores the settings. |
| Calendar.AddSessionToCalendar | src/frontend/calendar/calendar.js:390-408 | The date's list grows by one and is a permutation of the old list plus the new session, sorted by time. Every other date is unchanged. |
| Calendar.AddInsertsAfterEqualTimes | src/frontend/calendar/calendar.js:402-408 | On a list already in time order, the new session is inserted after every session at the same time or earlier. The others keep their order. |
| Calendar.SaveStudySession | src/frontend/calendar/calendar.js:365-388 | Invalid form data changes nothing; valid data adds the session. |
| Calendar.ValidateSessionData | src/frontend/calendar/calendar.js:386-388 | The reference form check: date, time and subject are non-empty and the duration is a positive number. |
| Calendar.DaySessions | src/frontend/calendar/calendar.js:238-243 | A day cell shows the first min(2, n) sessions of its date, and none for a date with no entry. |
| Calendar.SortAndLimitUpcoming | src/frontend/calendar/calendar.js:487-491 | At most five sessions, in start order. They are a sub-multiset of the input and the first five of its stable sort. |
| Calendar.FormatDateString | src/frontend/calendar/calendar.js:197-202 | The key is made of digits and dashes. For a month below 99 and a day below 100 it is the year followed by six characters. The only dashes are right after the year and three places later; every other character is a digit. |
| Calendar.DayOfFormattedKey | src/frontend/calendar/calendar.js:222-223 | `parseInt` of the third dash-separated field of a formatted key gives back the day. |
| Calendar.YearAndMonthOfFormattedKey | src/frontend/calendar/calendar.js:197-202 | The key reads back as `YYYY-MM-DD`: `parseInt` of the whole key gives the year, and `parseInt` of the second field gives the month counted from 1. |
| Sorting.FindIndex | src/frontend/achievements/achievements.js:296 | `find` by id: the position of the first element with the id, or the list length when none has it. No earlier element has the id. |
| Sorting.InsertPermutes | src/frontend/calendar/calendar.js:407 | Inserting adds the element and keeps every other. |
| Sorting.SortPermutes | src/frontend/calendar/calendar.js:407 | Sorting neither adds nor drops elements. |
| Sorting.InsertSorted | src/frontend/calendar/calendar.js:407 | Inserting into a sorted list keeps it sorted. |
| Sorting.SortSorted | src/frontend/calendar/calendar.js:407 | The result is in key order. |
| Sorting.SortOfSorted | src/frontend/calendar/calendar.js:407 | Sorting a list that is already in order changes nothing. |
| Sorting.InsertSplices | src/frontend/calendar/calendar.js:407 | Inserting splices the element in at one position and keeps the rest in their relative order. |
| Sorting.InsertIndexAfterSmaller | src/frontend/calendar/calendar.js:407 | In a sorted list everything before the insertion point sorts no later than the inserted element. |
| Analytics.ChartDay | src/frontend/analytics/analytics.js:55-57 | The column is the weekday moved back one place modulo 7: Monday is 0 and Sunday is 6. |
| Analytics.ChartDayBijective | src/frontend/analytics/analytics.js:55-57 | The column mapping is a bijection on the seven days. |
| Analytics.FocusPercent | src/frontend/analytics/analytics.js:60 | A session's exact focused share of its duration, as a percentage rounded half up. It lies in [0, 100] for a well-formed session and is 100 for a fully focused one. |
| Analytics.Averages | src/frontend/analytics/analytics.js:66-69 | Seven values, each the rounded average of its column, or 0 for an empty column. |
| Analytics.ProcessFocusData | src/frontend/analytics/analytics.js:49-77 | Seven values: the column averages, or the sample week `[85, 92, 78, 88, 95, 70, 65]` when every average is 0. |
| Analytics.ProcessFocusDataLoop | src/frontend/analytics/analytics.js:49-77 | The two-pass loop over the sessions computes exactly `ProcessFocusData`. |
| Analytics.UncountedSessionIgnored | src/frontend/analytics/analytics.js:59-63 | A session without a positive duration changes nothing in the chart. |
| Analytics.NoSessionsShowSample | src/frontend/analytics/analytics.js:72-74 | With no sessions the sample week is shown. |
| Analytics.UncountedSessionsShowSample | src/frontend/analytics/analytics.js:59-74 | When no session has a positive duration, whatever the sessions, the sample week is shown. |
| Analytics.ColumnTotalBounds | src/frontend/analytics/analytics.js:59-62 | A column's total lies between 0 and 100 per counted session. |
| Analytics.AveragesArePercentages | src/frontend/analytics/analytics.js:49-77 | When no session was focused for longer than it ran, every chart value lies in [0, 100]. |
| TimeFormat.SplitSeconds | src/utils/studyPetsUtils.js:4-8 | Minutes times 60 plus seconds is the input, with fewer than 60 seconds left over. |
| TimeFormat.SplitSecondsUnique | src/utils/studyPetsUtils.js:5-6 | The split is the only one with fewer than 60 seconds left over. |
| TimeFormat.FormatTime | src/utils/studyPetsUtils.js:4-8 | The text contains `m` and ends with `s`. |
| TimeFormat.TimeTextRoundTrip | src/frontend/dashboard/script.js:510-514 | Reading `Xm Ys` back with `parseInt` on either side of the `m` gives 60X + Y. |
| TimeFormat.FormatTimeRoundTrip | src/utils/studyPetsUtils.js:4-8 | Every number of seconds reads back from its formatted text. |
| TimeFormat.Clock | src/frontend/study/study.js:510-515 | Below 100 minutes the clock is five characters with `:` in the middle. |
| TimeFormat.ClockRoundTrip | src/frontend/study/study.js:510-515 | Every clock reads back as the whole seconds elapsed, `ms / 1000`, however many minutes. |
| TimeFormat.ClockTextRoundTrip | src/frontend/study/study.js:514 | Padded minutes and seconds read back from their clock text. |
| Uri.Utf8CharRoundTrip | browser-extension/background.js:182-183 | A character's UTF-8 bytes decode to its code point. |
| Uri.EncodeUriComponent | browser-extension/background.js:182-183 | The encoding contains only unreserved characters and `%` escapes, and never `&`, `=`, `?` or `#`. |
| Uri.DecodeEncode | browser-extension/background.js:182-183 | Percent-decoding the encoding gives back the text's UTF-8 bytes. |
| Uri.EncodeUnreserved | browser-extension/background.js:182-183 | A text of unreserved characters, as a site name usually is, is left as it is. |
| Text.Trim | src/frontend/settings/settings.js:454 | The result is empty iff the input is all whitespace. Otherwise it neither starts nor ends with whitespace. |
| Text.TrimStripsPadding | src/frontend/settings/settings.js:454 | Trimming whitespace padding around a text that neither starts nor ends with whitespace gives back that text. |
| Digits.ParseIntNatToString | src/frontend/study/study.js:415 | `parseInt` reads back a number's decimal text, whatever non-digit text follows. |
| Digits.ParseIntDigits | src/frontend/calendar/calendar.js:223 | `parseInt` of a digit string is its value, leading zeros included. |
| Digits.ParseInt | src/frontend/settings/settings.js:143 | `parseInt` with no radix: blank text is NaN. `ParseIntDigits` and `ParseIntNatToString` state what it reads from digits. |
| Digits.Pad2 | src/frontend/calendar/calendar.js:199-200 | The padded text is digits with the number's value. It is two characters below 100 and the plain decimal text from 10 on. |
| JsMath.RoundRatio | src/frontend/analytics/analytics.js:68 | `Math.round(p / q)` for positive q on whole numbers: the nearest whole number, halves rounded up. |
| JsMath.RoundRatioUnique | src/frontend/analytics/analytics.js:60 | Any whole number within those bounds is the rounded result. |
| JsMath.RoundRatioScaledBounds | src/frontend/analytics/analytics.js:60 | Rounding a ratio of at most one, scaled, stays within [0, scale]. |
| JsMath.RoundRatioWithin | src/frontend/analytics/analytics.js:68 | Rounding a ratio that lies in [0, hi] stays in [0, hi]. |
| JsMath.FloorDiv | src/frontend/study/study.js:408 | `Math.floor(a / b)`: the largest whole number whose multiple of b does not exceed a. |

## Left out

- Study.CalculateFocusLevel: the model rounds the exact ratio; study.js computes `Math.round((focusTime / totalTime) * 100)` in floating point. The two differ near a half: 23000 ms focused of 40000 gives 57.49999999999999 and 57 in the source, 58 in the model.
- Analytics.FocusPercent: rounds the exact ratio where analytics.js:60 rounds the floating-point `(focused_ms / duration_ms) * 100`; 23000 of 40000 gives 57 in the source and 58 here.
- Analytics.Averages: carries the exact per-session rounding of `FocusPercent`, so a column can differ from the source near a half. The column average itself, `Math.round(total / count)` on whole numbers, is exact in both.
- Analytics.ProcessFocusData: the same per-session rounding difference as `Analytics.Averages`.
- Analytics.ProcessFocusDataLoop: the same per-session rounding difference as `Analytics.Averages`.
- Achievements.CalculateStats: the completion rate rounds the exact ratio where the page rounds `(earnedCount / totalCount) * 100` in floating point (23 of 40: 57 in the source, 58 here). `nextLevelProgress` is the exact real `(earned mod 3) * 100 / 3`, not its double approximation (33.33333333333333 for one).
- Timers and polling are not modelled: the 1 s tick, the 5 s checks, `setTimeout` and `requestAnimationFrame`. Each step is a function, and the order of calls is the caller's.
- The inactivity monitor and the distraction timer in src/frontend/study/study.js:604-650 are not modelled; they run on `requestAnimationFrame` and `setTimeout`. The listeners that feed them (study.js:547-602) are modelled as `HandleActivity` and `HandleMoveOrKey`; the idle timestamps they also record serve only the monitor.
- Async interleaving between the storage listener and the periodic check is not modelled.
- The DOM, notifications, modals, CSS and chart drawing are left out; they are presentation only.
- Face tracking and the React components are left out. The components repeat the page logic modelled here.
- Browser storage, `chrome.storage`, `chrome.declarativeNetRequest` and badge calls are modelled as values. Storage blobs are records with optional fields, and the installed rules are a sequence.
- Error handlers around storage and rule calls are not modelled; those calls cannot fail in the model.
- JSON parsing and serialisation are left out. A stored value is already a record.
- Dates are not parsed. The weekday of a saved session is an input. The upcoming-session date window and `toLocaleDateString` are left out.
- The chart's study-hours series in src/frontend/analytics/analytics.js:79-101 is left out; it is float hour rounding.
- Storage keys are abstract. The shop writes stats under a different key from the one the other pages read, and the model does not show that mismatch.
- `handleTextInput` in src/frontend/settings/settings.js:167-172 is not modelled; it stores a string into an arbitrary field.
- `getAchievementsByCategory` is not modelled; no page calls it.
- Shop inventory is a map. Entry order, which only affects display, is not kept.
- A stored currency that does not parse is not modelled. The shop's balance is a whole number.
- Handlers that throw on a missing site list are modelled as leaving the settings unchanged.
- SettingsPage.HandleRangeInput: requires the slider's value to parse as a whole number. A range input always holds a number string, so the NaN branch of `parseInt` cannot arise there.
- Calendar.AddSessionToCalendar: `localeCompare` on times is modelled as code-point order. The two agree on the `HH:MM` text the time field produces.
- Calendar.SortAndLimitUpcoming: the sort is on the text `date time` in code-point order, not on parsed `Date` values. The two agree for `YYYY-MM-DD` dates with `HH:MM` times.
- Sorting.Sort: `Array.prototype.sort` is modelled as a stable insertion sort. Any stable sort gives the same result for one comparator.
- Uri.EncodeUriComponent: JavaScript strings are UTF-16 and throw on a lone surrogate. Here a string is a sequence of Unicode scalar values, so that error cannot occur.
- Dashboard.CalculateFocusPercentage: study time is a whole number of seconds, which is all the dashboard ever stores.
- PageBlocker.ShouldBlockPage: navigation warnings and the blocking page's buttons are left out.

## Findings

| source | as written | input that shows it | evidently intended | confidence | as-written member | corrected member |
|---|---|---|---|---|---|---|
| src/utils/studyPetsUtils.js:16-18 | Each stored stat is read as `stats.x \|\| default`, so a stored 0 is replaced by the default. The same pattern is in src/frontend/shared/website-blocker.js:29-31 and src/frontend/dashboard/script.js:908-910. | A pet saved with happiness 0 loads with happiness 85. | Defaults only for missing fields, so that what was saved is what is loaded. | not executed | PetStats.LoadPetStatsAsWritten, PetStats.AsWrittenLoaderForgetsZero | PetStats.LoadPetStats, PetStats.LoadStoreRoundTrip |

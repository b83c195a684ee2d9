/** The browser extension's background worker: a blocking flag and the set
    of redirect rules it has installed, stepped by `updateBlockingStatus`,
    plus the capped log of blocked attempts. */
module Extension {
  import opened Wrappers
  import opened Text
  import opened PetStats
  import opened SettingsPage
  import Policy
  import Uri

  /** What a rule's condition matches: the site's own domain, or any of
      its subdomains. */
  datatype Filter = ExactDomain(site: string) | Subdomains(site: string)

  /** A dynamic redirect rule, reduced to the parts that vary. Every rule
      applies to main-frame requests only and redirects to the blocked
      page for its filter's site. */
  datatype Rule = Rule(id: nat, priority: nat, filter: Filter)

  /** The rule's `urlFilter` pattern. */
  function UrlFilter(f: Filter): string {
    match f
    case ExactDomain(site) => "*://" + site + "/*"
    case Subdomains(site) => "*://*." + site + "/*"
  }

  /** The query naming a blocked site: the site and its https address,
      each encoded as a URI component. */
  function RedirectQuery(site: string): string {
    "?domain=" + (Uri.EncodeUriComponent(site)
      + ("&originalUrl=" + Uri.EncodeUriComponent("https://" + site)))
  }

  /** The blocked page's address for a site: the extension page `page`
      followed by the site's query. */
  function RedirectUrl(page: string, site: string): string {
    page + RedirectQuery(site)
  }

  /** Where a rule sends the browser. */
  function RuleRedirect(page: string, r: Rule): string {
    RedirectUrl(page, r.filter.site)
  }

  function ExactRule(site: string, id: nat): Rule {
    Rule(id, 1, ExactDomain(site))
  }

  function SubdomainRule(site: string, id: nat): Rule {
    Rule(id, 1, Subdomains(site))
  }

  /** Only the two named tiers add a subdomain rule; strict and any
      unrecognised tier block the exact domain only. */
  predicate AddsSubdomainRule(t: Strictness) {
    t == Moderate || t == Loose
  }

  /** The rules for `sites`, numbered consecutively from `next`: each
      site's exact-domain rule, followed by its subdomain rule when the
      tier adds one. */
  function BuildRules(sites: seq<string>, t: Strictness, next: nat): (r: seq<Rule>)
    ensures |r| == if AddsSubdomainRule(t) then 2 * |sites| else |sites|
    ensures forall i :: 0 <= i < |r| ==> r[i].id == next + i && r[i].priority == 1
    decreases |sites|
  {
    if |sites| == 0 then []
    else if AddsSubdomainRule(t) then
      [ExactRule(sites[0], next), SubdomainRule(sites[0], next + 1)]
        + BuildRules(sites[1..], t, next + 2)
    else
      [ExactRule(sites[0], next)] + BuildRules(sites[1..], t, next + 1)
  }

  /** Under strict (or an unrecognised tier) rule k is site k's exact
      rule. */
  lemma {:induction false} OneRulePerSite(sites: seq<string>, t: Strictness, next: nat)
    requires !AddsSubdomainRule(t)
    ensures forall k :: 0 <= k < |sites| ==> BuildRules(sites, t, next)[k] == ExactRule(sites[k], next + k)
    decreases |sites|
  {
    if |sites| > 0 {
      var r := BuildRules(sites, t, next);
      var rest := BuildRules(sites[1..], t, next + 1);
      assert r == [ExactRule(sites[0], next)] + rest;
      OneRulePerSite(sites[1..], t, next + 1);
      forall k | 1 <= k < |sites|
        ensures r[k] == ExactRule(sites[k], next + k)
      {
        assert r[k] == rest[k - 1];
        assert sites[1..][k - 1] == sites[k];
      }
    }
  }

  /** Under moderate and loose, rules 2k and 2k+1 are site k's exact rule
      followed by its subdomain rule. */
  lemma {:induction false} TwoRulesPerSite(sites: seq<string>, t: Strictness, next: nat)
    requires AddsSubdomainRule(t)
    ensures forall k :: 0 <= k < |sites| ==>
      && BuildRules(sites, t, next)[2 * k] == ExactRule(sites[k], next + 2 * k)
      && BuildRules(sites, t, next)[2 * k + 1] == SubdomainRule(sites[k], next + 2 * k + 1)
    decreases |sites|
  {
    if |sites| > 0 {
      var r := BuildRules(sites, t, next);
      var rest := BuildRules(sites[1..], t, next + 2);
      assert r == [ExactRule(sites[0], next), SubdomainRule(sites[0], next + 1)] + rest;
      TwoRulesPerSite(sites[1..], t, next + 2);
      forall k | 1 <= k < |sites|
        ensures r[2 * k] == ExactRule(sites[k], next + 2 * k)
        ensures r[2 * k + 1] == SubdomainRule(sites[k], next + 2 * k + 1)
      {
        assert r[2 * k] == rest[2 * (k - 1)];
        assert r[2 * k + 1] == rest[2 * (k - 1) + 1];
        assert sites[1..][k - 1] == sites[k];
      }
    }
  }

  /** Both rules of a site redirect to the same blocked-page address. */
  lemma SiteRulesShareRedirect(page: string, sites: seq<string>, t: Strictness, k: int)
    requires AddsSubdomainRule(t) && 0 <= k < |sites|
    ensures 2 * k + 1 < |BuildRules(sites, t, 1)|
    ensures RuleRedirect(page, BuildRules(sites, t, 1)[2 * k]) == RuleRedirect(page, BuildRules(sites, t, 1)[2 * k + 1])
           == RedirectUrl(page, sites[k])
  {
    TwoRulesPerSite(sites, t, 1);
  }

  /** Rule ids never repeat. */
  lemma RuleIdsUnique(sites: seq<string>, t: Strictness)
    ensures forall i, j :: 0 <= i < j < |BuildRules(sites, t, 1)| ==>
      BuildRules(sites, t, 1)[i].id != BuildRules(sites, t, 1)[j].id
  {
  }

  /** In a query made of `d`, a separator starting with `&`, and `o`, where
      `d` has no `&`, the first `&` ends `d`. */
  lemma SplitQuery(d: string, sep: string, o: string)
    requires '&' !in d && |sep| > 0 && sep[0] == '&'
    ensures var q := d + (sep + o);
      && IndexOf(q, '&') == |d|
      && q[..|d|] == d
      && q[|d|..|d| + |sep|] == sep
      && q[|d| + |sep|..] == o
  {
    var q := d + (sep + o);
    assert q == d + ['&'] + (sep[1..] + o);
    IndexOfAfterPrefix(d, '&', sep[1..] + o);
  }

  /** The redirect names the site twice: up to the first `&` its query
      decodes to the site itself, and after `&originalUrl=` to the site's
      https address. */
  lemma RedirectCarriesSite(site: string)
    ensures
      var query := RedirectQuery(site);
      var q := query[8..];
      var amp := IndexOf(q, '&');
      && |query| >= 8 && query[..8] == "?domain="
      && 0 <= amp && amp + 13 <= |q|
      && q[amp..amp + 13] == "&originalUrl="
      && Uri.DecodeBytes(q[..amp]) == Some(Uri.Utf8(site))
      && Uri.DecodeBytes(q[amp + 13..]) == Some(Uri.Utf8("https://" + site))
  {
    var d := Uri.EncodeUriComponent(site);
    var o := Uri.EncodeUriComponent("https://" + site);
    var q := d + ("&originalUrl=" + o);
    assert RedirectQuery(site)[8..] == q;
    SplitQuery(d, "&originalUrl=", o);
    Uri.DecodeEncode(site);
    Uri.DecodeEncode("https://" + site);
  }

  // ------------------------------------------------------------- the worker

  /** The worker's state: what it last read from storage, the blocking
      flag, and the dynamic rules currently installed. */
  datatype Blocker = Blocker(
    settings: Option<Settings>,
    petStats: Option<Stats>,
    isBlockingActive: bool,
    installed: seq<Rule>)

  /** The worker as constructed, before storage has been read. */
  const Initial: Blocker := Blocker(None, None, false, [])

  /** `checkPetThresholds`: with no settings or no stats it reports "not
      met"; otherwise each stat must be at least its threshold. */
  function CheckPetThresholds(b: Blocker): (ok: bool)
    ensures b.settings.None? || b.petStats.None? ==> !ok
    ensures b.settings.Some? && b.petStats.Some? ==>
      (ok <==> Policy.MeetsThresholds(b.petStats.value, b.settings.value))
  {
    match (b.settings, b.petStats)
    case (Some(s), Some(p)) =>
      var happinessOk := p.happiness >= s.happinessThreshold as real;
      var energyOk := p.energy >= s.energyThreshold as real;
      var focusOk := p.focusPercentage >= s.focusThreshold as real;
      happinessOk && energyOk && focusOk
    case _ => false
  }

  /** `clearBlockingRules`: every installed rule is removed. */
  function ClearBlockingRules(b: Blocker): (r: Blocker)
    ensures r.installed == []
    ensures r.(installed := b.installed) == b
  {
    b.(installed := [])
  }

  /** `updateBlockingRules`: with no settings or no site list nothing
      happens; otherwise the installed set is cleared and replaced by the
      rules for the listed sites, numbered from 1. */
  function UpdateBlockingRules(b: Blocker): (r: Blocker)
    ensures b.settings.None? || b.settings.value.entertainmentSites.None? ==> r == b
    ensures b.settings.Some? && b.settings.value.entertainmentSites.Some? ==>
      r.installed == BuildRules(b.settings.value.entertainmentSites.value, b.settings.value.blockingStrictness, 1)
    ensures r.(installed := b.installed) == b
  {
    match b.settings
    case None => b
    case Some(s) =>
      match s.entertainmentSites
      case None => b
      case Some(sites) =>
        var cleared := ClearBlockingRules(b);
        var rules := BuildRules(sites, s.blockingStrictness, 1);
        if |rules| > 0 then cleared.(installed := cleared.installed + rules) else cleared
  }

  /** The rules installed by an update do not depend on what was installed
      before: the set is replaced, never added to. */
  lemma RulesReplaced(b: Blocker, other: seq<Rule>)
    requires b.settings.Some? && b.settings.value.entertainmentSites.Some?
    ensures UpdateBlockingRules(b).installed == UpdateBlockingRules(b.(installed := other)).installed
  {
  }

  /** `updateBlockingStatus`: blocking is on exactly when smart blocking is
      enabled and the pet falls short of a threshold; while it is off no
      rule is installed. */
  function UpdateBlockingStatus(b: Blocker): (r: Blocker)
    ensures r.settings == b.settings && r.petStats == b.petStats
    ensures b.settings.None? || !b.settings.value.smartBlocking ==> !r.isBlockingActive
    ensures b.settings.Some? && b.settings.value.smartBlocking ==> (r.isBlockingActive <==> !CheckPetThresholds(b))
    ensures !r.isBlockingActive ==> r.installed == []
    ensures r.isBlockingActive && b.settings.value.entertainmentSites.Some? ==>
      r.installed == BuildRules(b.settings.value.entertainmentSites.value, b.settings.value.blockingStrictness, 1)
    ensures r.isBlockingActive && b.settings.value.entertainmentSites.None? ==> r.installed == b.installed
  {
    if b.settings.None? || !b.settings.value.smartBlocking then
      ClearBlockingRules(b.(isBlockingActive := false))
    else if CheckPetThresholds(b) then
      ClearBlockingRules(b.(isBlockingActive := false))
    else
      UpdateBlockingRules(b.(isBlockingActive := true))
  }

  /** A second update with nothing new read from storage changes nothing. */
  lemma UpdateIdempotent(b: Blocker)
    ensures UpdateBlockingStatus(UpdateBlockingStatus(b)) == UpdateBlockingStatus(b)
  {
  }

  /** Once both settings and stats are loaded, the extension blocks exactly
      when the shared utilities' check says to. */
  lemma ExtensionAgreesWithUtilities(b: Blocker)
    requires b.settings.Some? && b.petStats.Some?
    ensures UpdateBlockingStatus(b).isBlockingActive
        == Policy.CheckBlockingStatus(b.petStats.value, b.settings.value)
  {
  }

  /** With default settings and a pet below every threshold, the extension
      installs two rules for each of the 19 default sites. */
  lemma DefaultBlockInstallsTwoRulesPerSite(p: Stats)
    requires p.happiness < 70.0
    ensures |UpdateBlockingStatus(Blocker(Some(DefaultSettings()), Some(p), false, [])).installed| == 38
  {
  }

  /** `init`: settings and stats are read from storage, each falling back to
      its defaults when nothing is stored, and the rules for the site list
      are installed at once. No threshold check has run yet, so the blocking
      flag is still off. */
  function Init(storedSettings: Option<Settings>, storedStats: Option<Stats>): (r: Blocker)
    ensures r.settings == Some(storedSettings.GetOr(DefaultSettings()))
    ensures r.petStats == Some(storedStats.GetOr(DefaultStats))
    ensures !r.isBlockingActive
    ensures var s := r.settings.value;
      r.installed == if s.entertainmentSites.Some?
        then BuildRules(s.entertainmentSites.value, s.blockingStrictness, 1)
        else []
  {
    var loaded := Initial.(settings := Some(storedSettings.GetOr(DefaultSettings())),
                           petStats := Some(storedStats.GetOr(DefaultStats)));
    UpdateBlockingRules(loaded)
  }

  /** Whenever the site list is non-empty, the worker starts with rules
      installed while its blocking flag is off. */
  lemma InitInstallsWhileInactive(storedSettings: Option<Settings>, storedStats: Option<Stats>)
    requires var s := storedSettings.GetOr(DefaultSettings());
      s.entertainmentSites.Some? && |s.entertainmentSites.value| > 0
    ensures Init(storedSettings, storedStats).installed != []
    ensures !Init(storedSettings, storedStats).isBlockingActive
  {
  }

  /** A fresh install runs with the 38 default rules in place and blocking
      off; the first periodic check finds the default pet above every
      threshold and removes them all. */
  lemma FreshInstallBlocksUntilFirstCheck()
    ensures |Init(None, None).installed| == 38 && !Init(None, None).isBlockingActive
    ensures UpdateBlockingStatus(Init(None, None)).installed == []
  {
  }

  // ---------------------------------------------------- blocked-attempt log

  /** A blocked navigation as logged: the domain, the full url, the time,
      and a copy of the pet's stats (absent before stats are loaded). */
  datatype Attempt = Attempt(domain: string, url: string, timestamp: int, petStats: Option<Stats>)

  const MaxAttempts: nat := 100

  /** `trackBlockedAttempt`: the new attempt is appended to the stored log
      (an empty log when none is stored) and only the most recent 100 are
      kept. Nothing in the worker calls it: the message listener answers
      only settings, stats and status messages, so the stored log stays
      empty. */
  function TrackBlockedAttempt(stored: Option<seq<Attempt>>, a: Attempt): (r: seq<Attempt>)
    ensures var log := stored.GetOr([]);
      && |r| == (if |log| + 1 <= MaxAttempts then |log| + 1 else MaxAttempts)
      && r == (log + [a])[|log| + 1 - |r|..]
    ensures r[|r| - 1] == a
  {
    var attempts := stored.GetOr([]) + [a];
    if |attempts| > MaxAttempts then attempts[|attempts| - MaxAttempts..] else attempts
  }

  /** Below the cap nothing is dropped. */
  lemma TrackBelowCap(log: seq<Attempt>, a: Attempt)
    requires |log| < MaxAttempts
    ensures TrackBlockedAttempt(Some(log), a) == log + [a]
  {
  }

  /** At the cap exactly the oldest entry is dropped. */
  lemma TrackAtCap(log: seq<Attempt>, a: Attempt)
    requires |log| == MaxAttempts
    ensures TrackBlockedAttempt(Some(log), a) == log[1..] + [a]
  {
    assert (log + [a])[1..] == log[1..] + [a];
  }
}

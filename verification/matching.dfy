/** Which visited domains count as entertainment, by strictness tier: an
    exact match, a subdomain match, or containment either way. */
module Matching {
  import opened Text
  import opened SettingsPage

  /** One listed site against the visited domain under a tier. An
      unrecognised tier falls back to exact matching. */
  predicate DomainMatches(domain: string, site: string, tier: Strictness) {
    match tier
    case Strict => domain == site
    case Moderate => domain == site || EndsWith(domain, "." + site)
    case Loose => Contains(domain, site) || Contains(site, domain)
    case Unrecognised => domain == site
  }

  /** `isEntertainmentSite`: some listed site matches the domain. */
  function IsEntertainmentSite(domain: string, sites: seq<string>, tier: Strictness): (r: bool)
    ensures r <==> exists i :: 0 <= i < |sites| && DomainMatches(domain, sites[i], tier)
  {
    if |sites| == 0 then false
    else if DomainMatches(domain, sites[0], tier) then true
    else
      var rest := IsEntertainmentSite(domain, sites[1..], tier);
      assert forall i :: 1 <= i < |sites| ==> sites[i] == sites[1..][i - 1];
      rest
  }

  /** An exact match is a match under every tier. */
  lemma ExactMatchesEverywhere(domain: string, tier: Strictness)
    ensures DomainMatches(domain, domain, tier)
  {
    if tier == Loose {
      ContainsSelf(domain);
    }
  }

  /** The tiers nest: strict within moderate within loose. */
  lemma TiersNest(domain: string, site: string)
    ensures DomainMatches(domain, site, Strict) ==> DomainMatches(domain, site, Moderate)
    ensures DomainMatches(domain, site, Moderate) ==> DomainMatches(domain, site, Loose)
    ensures DomainMatches(domain, site, Unrecognised) <==> DomainMatches(domain, site, Strict)
  {
    if domain == site {
      ContainsSelf(domain);
    } else if EndsWith(domain, "." + site) {
      var dotted := "." + site;
      EndsWithContains(domain, dotted);
      var i :| 0 <= i <= |domain| && OccursAt(domain, dotted, i);
      assert domain[i + 1..i + 1 + |site|] == dotted[1..] == site;
      assert OccursAt(domain, site, i + 1);
    }
  }

  /** The nesting carries over to the whole list. */
  lemma ListTiersNest(domain: string, sites: seq<string>)
    ensures IsEntertainmentSite(domain, sites, Strict) ==> IsEntertainmentSite(domain, sites, Moderate)
    ensures IsEntertainmentSite(domain, sites, Moderate) ==> IsEntertainmentSite(domain, sites, Loose)
  {
    if IsEntertainmentSite(domain, sites, Strict) {
      var i :| 0 <= i < |sites| && DomainMatches(domain, sites[i], Strict);
      TiersNest(domain, sites[i]);
    }
    if IsEntertainmentSite(domain, sites, Moderate) {
      var i :| 0 <= i < |sites| && DomainMatches(domain, sites[i], Moderate);
      TiersNest(domain, sites[i]);
    }
  }

  /** A subdomain of a listed site is caught from the moderate tier on, but
      not under strict. */
  lemma SubdomainCaughtFromModerate()
    ensures IsEntertainmentSite("m.youtube.com", ["youtube.com"], Moderate)
    ensures !IsEntertainmentSite("m.youtube.com", ["youtube.com"], Strict)
  {
    assert DomainMatches("m.youtube.com", "youtube.com", Moderate) by {
      assert "m.youtube.com"[|"m.youtube.com"| - |".youtube.com"|..] == ".youtube.com";
    }
  }
}

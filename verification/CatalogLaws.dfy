/**
What the wishes of a target mean for the server that is chosen: each wish is
obeyed, each narrows the choice by itself, and a target without wishes gets any
standard server.
*/
module CatalogLaws {
  import opened Catalog
  import opened Wrappers

  /** A feature a server may have without being asked for it. */
  predicate Common(f: Feature) { f == P2p || f == Streaming || f == Ipv6 }

  ghost predicate HasSmallLetter(s: string) { exists i :: 0 <= i < |s| && 'a' <= s[i] <= 'z' }

  /** The country of a target is compared in capital letters. */
  lemma UpperMeans(s: string, code: string)
    ensures s == Upper(code) <==> SameText(s, code) && !HasSmallLetter(s)
  {
    if SameText(s, code) && !HasSmallLetter(s) {
      forall i | 0 <= i < |s| ensures s[i] == Upper(code)[i] {
        assert LowerChar(s[i]) == LowerChar(code[i]);
      }
    }
  }

  lemma StandardMeans(s: Server)
    ensures s.Standard() <==> forall f :: f in s.features ==> Common(f)
  {
    if s.Standard() {
      forall f | f in s.features ensures Common(f) {
        assert f !in {SecureCore, Tor, Restricted, Partner, DoubleRestricted};
      }
    }
  }

  /**
   A server matches a target exactly when it obeys every wish, its country is
   written in capitals if one is asked for, and it has common features only
   unless the target asks for a feature or a gateway.
   */
  lemma MatchesMeans(catalog: seq<Server>, t: Target, deviceCountry: string, s: Server)
    ensures Matches(catalog, t, deviceCountry, s) <==>
              && Obeys(catalog, t, deviceCountry, s)
              && (t.countryCode != "" ==> !HasSmallLetter(s.exitCountry))
              && (!t.secureCore && !t.p2p && !t.tor && t.gateway == "" ==> forall f :: f in s.features ==> Common(f))
  {
    hide CanonicalState, SameText, Upper, Server.Standard, HasSmallLetter, Common;
    UpperMeans(s.exitCountry, t.countryCode);
    StandardMeans(s);
  }

  /** Without exclusions, the eligible servers are the enabled, paid-for and reachable ones that match. */
  lemma EligibleMeans(catalog: seq<Server>, t: Target, tier: nat, deviceCountry: string, s: Server)
    ensures Eligible(catalog, t, tier, [], deviceCountry, s) <==>
              && s.enabled && s.tier <= tier && (exists k :: 0 <= k < |s.servers| && s.servers[k].active)
              && Matches(catalog, t, deviceCountry, s)
  {
    hide Matches;
  }

  /** The targets that make sense: at most one feature, and no feature at a gateway; a country for a place. */
  ghost predicate Sensible(t: Target) {
    && !(t.secureCore && t.p2p) && !(t.secureCore && t.tor) && !(t.p2p && t.tor)
    && (t.gateway != "" ==> !t.secureCore && !t.p2p && !t.tor)
    && (t.state != "" ==> t.countryCode != "") && (t.city != "" ==> t.countryCode != "")
    && (t.entryCountryCode != "" ==> t.secureCore)
    && !(t.random && t.randomServer)
  }

  lemma InvalidMeans(t: Target, deviceCountry: string)
    ensures Invalid(t, deviceCountry) == Some("invalid_params") <==> !Sensible(t)
    ensures Invalid(t, deviceCountry) == Some("device_location_unavailable")
       <==> Sensible(t) && t.excludeMyCountry && deviceCountry == ""
    ensures Invalid(t, deviceCountry).None? <==> Sensible(t) && (t.excludeMyCountry ==> deviceCountry != "")
  {
    var invalid, unavailable := "invalid_params", "device_location_unavailable";
    assert |invalid| != |unavailable|;
  }

  /** The state is named by a server of the city of `s`. */
  ghost predicate NamedNear(catalog: seq<Server>, s: Server, state: string) {
    exists i :: 0 <= i < |catalog| && catalog[i].state == state && !Blank(state)
           && catalog[i].city == s.city != "" && catalog[i].exitCountry == s.exitCountry
  }

  /** A server without a state of its own is in the one its city is known under, if it is known under one only. */
  lemma CanonicalStateMeans(catalog: seq<Server>, s: Server, state: string)
    requires state != ""
    ensures !Blank(s.state) ==> CanonicalState(catalog, s) == s.state
    ensures Blank(s.state) ==>
              (CanonicalState(catalog, s) == state <==>
               NamedNear(catalog, s, state) && forall other :: NamedNear(catalog, s, other) ==> other == state)
  {
    hide Blank;
    var states := CityStates(catalog, s.exitCountry, s.city);
    assert forall x :: x in states <==> NamedNear(catalog, s, x);
    if NamedNear(catalog, s, state) && forall other :: NamedNear(catalog, s, other) ==> other == state {
      assert states == {state};
    }
    if |states| == 1 {
      assert Only(states) in states;
    }
  }

  // ----- exclusions -----

  /** The place that is excluded: a country, a state of it, or a city (of that state, if one is named). */
  ghost predicate InPlace(l: ExcludedLocation, s: Server, state: string) {
    && SameText(s.exitCountry, l.countryCode)
    && (l.kind == "state" ==> SameText(state, l.state))
    && (l.kind == "city" ==> SameText(s.city, l.city) && (l.state != "" ==> SameText(state, l.state)))
  }

  /**
   An exclusion covers the servers that exit in its place; the exclusion of a
   country also covers the secure-core servers entered there. No other kind
   excludes anything.
   */
  lemma ExclusionMeans(l: ExcludedLocation, s: Server, state: string)
    ensures l.kind == "country" ==>
              (ExcludedBy(l, s, state) <==>
               InPlace(l, s, state) || (SecureCore in s.features && SameText(s.entryCountry, l.countryCode)))
    ensures l.kind in ["state", "city"] ==> (ExcludedBy(l, s, state) <==> InPlace(l, s, state))
    ensures l.kind !in ["country", "state", "city"] ==> !ExcludedBy(l, s, state)
  {
    hide SameText;
  }

  /**
   Exclusions hold for paying users who name no location, and for nobody else:
   they take away exactly the servers in an excluded place.
   */
  lemma ExclusionsObeyed(catalog: seq<Server>, t: Target, tier: nat, excluded: seq<ExcludedLocation>,
                         deviceCountry: string, s: Server)
    ensures (tier == 0 || t.countryCode + t.entryCountryCode + t.state + t.city + t.gateway != "") ==>
              (Eligible(catalog, t, tier, excluded, deviceCountry, s) <==> Eligible(catalog, t, tier, [], deviceCountry, s))
    ensures tier > 0 && t.countryCode + t.entryCountryCode + t.state + t.city + t.gateway == "" ==>
              (Eligible(catalog, t, tier, excluded, deviceCountry, s) <==>
               && Eligible(catalog, t, tier, [], deviceCountry, s)
               && forall l :: l in excluded ==> !ExcludedBy(l, s, CanonicalState(catalog, s)))
  {
    hide Available, Matches, ExcludedBy, CanonicalState;
    assert forall k :: 0 <= k < |excluded| ==> excluded[k] in excluded;
  }
}

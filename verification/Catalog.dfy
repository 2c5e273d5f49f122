/**
Choosing a server: eligibility, exclusions, random modes, and the rejection of
servers none of whose endpoints can be verified. Servers are told apart by
their position in the catalog; scores are totally ordered.
*/
module Catalog {
  import opened Unicode
  import opened Wrappers

  datatype Feature = SecureCore | Tor | P2p | Streaming | Ipv6 | Restricted | Partner | DoubleRestricted

  datatype Endpoint = Endpoint(active: bool, entryIp: string)

  datatype Server = Server(name: string, exitCountry: string, entryCountry: string, state: string, city: string,
                           gateway: string, features: set<Feature>, enabled: bool, tier: nat, score: int,
                           servers: seq<Endpoint>)
  {
    predicate Enabled() { enabled && exists i :: 0 <= i < |servers| && servers[i].active }
    predicate Standard() { features !! {SecureCore, Tor, Restricted, Partner, DoubleRestricted} }
  }

  datatype ExcludedLocation = ExcludedLocation(kind: string, countryCode: string, state: string, city: string)

  datatype Target = Target(
    serverName: string, countryCode: string, entryCountryCode: string, state: string, city: string, gateway: string,
    secureCore: bool, p2p: bool, tor: bool, random: bool, randomServer: bool, excludeMyCountry: bool,
    freeRandom: bool, excludeServerName: string)

  datatype Selection = Selected(server: int, state: string, endpoint: Endpoint) | Refused(code: string)

  // ----- text -----

  function LowerChar(c: char): char { if 'A' <= c <= 'Z' then 'a' + (c - 'A') else c }
  function UpperChar(c: char): char { if 'a' <= c <= 'z' then 'A' + (c - 'a') else c }

  function Upper(s: string): string { seq(|s|, (i: nat) requires i < |s| => UpperChar(s[i])) }

  predicate SameText(a: string, b: string) {
    |a| == |b| && forall i :: 0 <= i < |a| ==> LowerChar(a[i]) == LowerChar(b[i])
  }

  predicate Blank(s: string) { forall c :: c in s ==> IsWhitespace(c) }

  // ----- states -----

  /** The states named by the servers of a city. */
  function CityStates(catalog: seq<Server>, country: string, city: string): set<string> {
    set i | 0 <= i < |catalog| && catalog[i].city != "" && !Blank(catalog[i].state)
            && catalog[i].exitCountry == country && catalog[i].city == city :: catalog[i].state
  }

  /** The state of a server, or the only one its city is known under. */
  function CanonicalState(catalog: seq<Server>, s: Server): string {
    if !Blank(s.state) then s.state
    else
      var states := CityStates(catalog, s.exitCountry, s.city);
      if |states| == 1 then Only(states) else ""
  }

  function Only(states: set<string>): (s: string)
    requires |states| == 1
    ensures states == {s}
  {
    var s :| s in states;
    assert |states - {s}| == 0;
    assert forall t :: t in states ==> t == s;
    s
  }

  /** Servers of a city all of whose named states agree share that state, named or not. */
  lemma CanonicalStateAgrees(catalog: seq<Server>, i: nat, j: nat)
    requires i < |catalog| && j < |catalog| && catalog[i].city == catalog[j].city != ""
    requires catalog[i].exitCountry == catalog[j].exitCountry && !Blank(catalog[i].state)
    requires forall state :: state in CityStates(catalog, catalog[i].exitCountry, catalog[i].city) ==>
               state == catalog[i].state
    ensures CanonicalState(catalog, catalog[j]) == catalog[i].state
  {
    var states := CityStates(catalog, catalog[j].exitCountry, catalog[j].city);
    assert catalog[i].state in states && states == {catalog[i].state};
    assert !Blank(catalog[j].state) ==> catalog[j].state in states;
  }

  // ----- eligibility -----

  function FeatureCount(t: Target): nat {
    (if t.secureCore then 1 else 0) + (if t.p2p then 1 else 0) + (if t.tor then 1 else 0)
  }

  /** The refusal of a target that makes no sense. */
  function Invalid(t: Target, deviceCountry: string): Option<string> {
    if FeatureCount(t) > 1 || (t.gateway != "" && FeatureCount(t) > 0) then Some("invalid_params")
    else if (t.state != "" || t.city != "") && t.countryCode == "" then Some("invalid_params")
    else if t.entryCountryCode != "" && !t.secureCore then Some("invalid_params")
    else if t.random && t.randomServer then Some("invalid_params")
    else if t.excludeMyCountry && deviceCountry == "" then Some("device_location_unavailable")
    else None
  }

  predicate Available(s: Server, tier: nat) { s.Enabled() && s.tier <= tier }

  predicate HasFeatures(t: Target, s: Server) {
    (t.secureCore ==> SecureCore in s.features) && (t.p2p ==> P2p in s.features) && (t.tor ==> Tor in s.features)
  }

  predicate Matches(catalog: seq<Server>, t: Target, deviceCountry: string, s: Server) {
    && (t.gateway == "" || s.gateway == t.gateway)
    && (t.countryCode == "" || s.exitCountry == Upper(t.countryCode))
    && (!t.excludeMyCountry || !SameText(s.exitCountry, deviceCountry))
    && (t.entryCountryCode == "" || SameText(s.entryCountry, t.entryCountryCode))
    && (t.state == "" || SameText(CanonicalState(catalog, s), t.state))
    && (t.city == "" || SameText(s.city, t.city))
    && HasFeatures(t, s)
    && (t.secureCore || t.p2p || t.tor || t.gateway != "" || s.Standard())
    && (!t.freeRandom || s.tier == 0)
    && (t.excludeServerName == "" || !SameText(s.name, t.excludeServerName))
  }

  predicate ExcludedBy(l: ExcludedLocation, s: Server, state: string) {
    if SecureCore in s.features && l.kind == "country" && SameText(s.entryCountry, l.countryCode) then true
    else if !SameText(s.exitCountry, l.countryCode) then false
    else
      || l.kind == "country"
      || (l.kind == "state" && SameText(state, l.state))
      || (l.kind == "city" && (l.state == "" || SameText(state, l.state)) && SameText(s.city, l.city))
  }

  /** Exclusions apply to paying users who name no location. */
  predicate ExclusionsApply(t: Target, tier: nat, excluded: seq<ExcludedLocation>) {
    && tier > 0 && excluded != []
    && t.countryCode == "" && t.entryCountryCode == "" && t.state == "" && t.city == "" && t.gateway == ""
  }

  predicate Excluded(catalog: seq<Server>, excluded: seq<ExcludedLocation>, s: Server) {
    exists k :: 0 <= k < |excluded| && ExcludedBy(excluded[k], s, CanonicalState(catalog, s))
  }

  /** A server the user may be given. */
  predicate Eligible(catalog: seq<Server>, t: Target, tier: nat, excluded: seq<ExcludedLocation>,
                     deviceCountry: string, s: Server)
  {
    && Available(s, tier) && Matches(catalog, t, deviceCountry, s)
    && (ExclusionsApply(t, tier, excluded) ==> !Excluded(catalog, excluded, s))
  }

  // ----- what a target asks for -----

  /** The server is where, and what, the target asks for. */
  ghost predicate Obeys(catalog: seq<Server>, t: Target, deviceCountry: string, s: Server) {
    && (t.countryCode != "" ==> SameText(s.exitCountry, t.countryCode))
    && (t.entryCountryCode != "" ==> SameText(s.entryCountry, t.entryCountryCode))
    && (t.state != "" ==> SameText(CanonicalState(catalog, s), t.state))
    && (t.city != "" ==> SameText(s.city, t.city))
    && (t.gateway != "" ==> s.gateway == t.gateway)
    && (t.secureCore ==> SecureCore in s.features) && (t.p2p ==> P2p in s.features) && (t.tor ==> Tor in s.features)
    && (t.excludeMyCountry ==> !SameText(s.exitCountry, deviceCountry))
    && (t.excludeServerName != "" ==> !SameText(s.name, t.excludeServerName))
    && (t.freeRandom ==> s.tier == 0)
  }

  lemma UpperIsSameText(s: string, code: string)
    requires s == Upper(code)
    ensures SameText(s, code)
  {
  }

  /** What is eligible is enabled, paid for and obeys the target. */
  lemma EligibleObeys(catalog: seq<Server>, t: Target, tier: nat, excluded: seq<ExcludedLocation>,
                      deviceCountry: string, s: Server)
    requires Eligible(catalog, t, tier, excluded, deviceCountry, s)
    ensures Obeys(catalog, t, deviceCountry, s) && s.enabled && s.tier <= tier
    ensures exists k :: 0 <= k < |s.servers| && s.servers[k].active
  {
    hide CanonicalState, SameText, Excluded, ExclusionsApply;
    if t.countryCode != "" {
      UpperIsSameText(s.exitCountry, t.countryCode);
    }
  }

  predicate Usable(s: Server, valid: Endpoint -> bool) {
    exists k :: 0 <= k < |s.servers| && s.servers[k].active && valid(s.servers[k])
  }

  // ----- lists of positions -----

  function Filter(items: seq<int>, p: int -> bool): (r: seq<int>)
    ensures forall i :: i in r <==> i in items && p(i)
    ensures |r| <= |items|
    ensures (exists i :: i in items && !p(i)) ==> |r| < |items|
  {
    if items == [] then []
    else
      var init, last := Filter(items[..|items| - 1], p), items[|items| - 1];
      assert items == items[..|items| - 1] + [last];
      if p(last) then init + [last] else init
  }

  function Positions(n: nat): (r: seq<int>)
    ensures forall i :: i in r <==> 0 <= i < n
  {
    if n == 0 then [] else Positions(n - 1) + [n - 1]
  }

  ghost predicate Ascending(items: seq<int>) {
    forall j, k :: 0 <= j < k < |items| ==> items[j] < items[k]
  }

  lemma {:induction false} PositionsAscend(n: nat)
    ensures Ascending(Positions(n))
  {
    if n > 0 {
      PositionsAscend(n - 1);
      var init := Positions(n - 1);
      assert forall k :: 0 <= k < |init| ==> init[k] in init;
    }
  }

  lemma {:induction false} FilterAscends(items: seq<int>, p: int -> bool)
    requires Ascending(items)
    ensures Ascending(Filter(items, p))
  {
    if items != [] {
      var init, last := items[..|items| - 1], items[|items| - 1];
      FilterAscends(init, p);
      var kept := Filter(init, p);
      assert forall k :: 0 <= k < |kept| ==> kept[k] in kept;
      assert forall i :: i in init ==> i < last;
    }
  }

  /** The first position of least score. */
  function Best(catalog: seq<Server>, items: seq<int>): (b: int)
    requires items != [] && forall i :: i in items ==> 0 <= i < |catalog|
    ensures b in items && forall i :: i in items ==> catalog[b].score <= catalog[i].score
  {
    if |items| == 1 then assert items[0] in items; items[0]
    else
      var init, last := items[..|items| - 1], items[|items| - 1];
      assert items == init + [last] && init != [] && last in items && forall i :: i in init ==> i in items;
      var b := Best(catalog, init);
      if catalog[last].score < catalog[b].score then last else b
  }

  /** In the country-random modes a choice is compared within its country. */
  predicate Compared(t: Target, a: Server, b: Server) {
    !t.randomServer && ((t.random || t.freeRandom) ==> a.exitCountry == b.exitCountry)
  }

  // ----- selection -----

  /** The eligible servers among the available ones. */
  method Candidates(catalog: seq<Server>, t: Target, tier: nat, excluded: seq<ExcludedLocation>,
                    deviceCountry: string, available: seq<int>)
    returns (candidates: seq<int>, allExcluded: bool)
    requires forall i :: i in available ==> 0 <= i < |catalog| && Available(catalog[i], tier)
    ensures forall i :: i in candidates <==>
              i in available && Eligible(catalog, t, tier, excluded, deviceCountry, catalog[i])
    ensures allExcluded <==>
              && candidates == [] && ExclusionsApply(t, tier, excluded)
              && exists i :: i in available && Matches(catalog, t, deviceCountry, catalog[i])
  {
    hide Matches, Excluded, ExclusionsApply, Server.Enabled;
    candidates := Filter(available, i => 0 <= i < |catalog| && Matches(catalog, t, deviceCountry, catalog[i]));
    allExcluded := false;
    if ExclusionsApply(t, tier, excluded) {
      var before := |candidates|;
      ghost var matching := candidates;
      assert before > 0 ==> candidates[0] in candidates;
      candidates := Filter(candidates, i => 0 <= i < |catalog| && !Excluded(catalog, excluded, catalog[i]));
      allExcluded := before > 0 && candidates == [];
      assert forall i :: i in matching <==> i in available && Matches(catalog, t, deviceCountry, catalog[i]);
    }
  }

  /** One choice among the available servers. */
  method Choose(catalog: seq<Server>, t: Target, tier: nat, excluded: seq<ExcludedLocation>, deviceCountry: string,
                available: seq<int>)
    returns (choice: Option<int>, allExcluded: bool)
    requires forall i :: i in available ==> 0 <= i < |catalog| && Available(catalog[i], tier)
    ensures choice.Some? ==>
              choice.value in available && Eligible(catalog, t, tier, excluded, deviceCountry, catalog[choice.value])
    ensures choice.Some? ==>
              forall i :: i in available && Eligible(catalog, t, tier, excluded, deviceCountry, catalog[i]) ==>
                Compared(t, catalog[choice.value], catalog[i]) ==> catalog[choice.value].score <= catalog[i].score
    ensures choice.None? ==>
              forall i :: i in available ==> !Eligible(catalog, t, tier, excluded, deviceCountry, catalog[i])
    ensures allExcluded <==>
              && choice.None? && ExclusionsApply(t, tier, excluded)
              && exists i :: i in available && Matches(catalog, t, deviceCountry, catalog[i])
  {
    hide Eligible, Server.Enabled, Available, Matches, ExclusionsApply;
    var candidates;
    candidates, allExcluded := Candidates(catalog, t, tier, excluded, deviceCountry, available);
    if candidates == [] {
      return None, allExcluded;
    }
    ghost var eligible := candidates;
    if t.random || t.freeRandom {
      var k: nat :| k < |candidates|;
      var kept := candidates[k];
      assert kept in candidates;
      var country := catalog[kept].exitCountry;
      candidates := Filter(candidates, i => 0 <= i < |catalog| && catalog[i].exitCountry == country);
      assert kept in candidates;
    }
    var chosen;
    if t.randomServer {
      var k: nat :| k < |candidates|;
      chosen := candidates[k];
    } else {
      chosen := Best(catalog, candidates);
    }
    assert chosen in candidates && chosen in eligible;
    choice := Some(chosen);
  }

  /** A verified active endpoint, chosen at random. */
  method ChooseEndpoint(s: Server, valid: Endpoint -> bool) returns (e: Option<Endpoint>)
    ensures e.Some? <==> Usable(s, valid)
    ensures e.Some? ==> e.value in s.servers && e.value.active && valid(e.value)
  {
    if k :| 0 <= k < |s.servers| && s.servers[k].active && valid(s.servers[k]) {
      e := Some(s.servers[k]);
    } else {
      e := None;
    }
  }

  /** The first available server of that name. */
  ghost predicate FirstNamed(catalog: seq<Server>, tier: nat, name: string, i: int) {
    && 0 <= i < |catalog| && Available(catalog[i], tier) && SameText(catalog[i].name, name)
    && forall j :: 0 <= j < i && Available(catalog[j], tier) ==> !SameText(catalog[j].name, name)
  }

  method FindNamed(catalog: seq<Server>, tier: nat, name: string, available: seq<int>) returns (choice: Option<int>)
    requires Ascending(available) && forall i :: i in available <==> 0 <= i < |catalog| && Available(catalog[i], tier)
    ensures forall i :: FirstNamed(catalog, tier, name, i) <==> choice == Some(i)
  {
    hide Available, SameText;
    assert forall j :: 0 <= j < |available| ==> available[j] in available;
    for k := 0 to |available|
      invariant forall j :: 0 <= j < k ==> !SameText(catalog[available[j]].name, name)
    {
      if SameText(catalog[available[k]].name, name) {
        forall j | 0 <= j < available[k] && Available(catalog[j], tier)
          ensures !SameText(catalog[j].name, name)
        {
          assert j in available;
        }
        return Some(available[k]);
      }
    }
    choice := None;
  }

  predicate IsAnswer(catalog: seq<Server>, t: Target, tier: nat, excluded: seq<ExcludedLocation>,
                     deviceCountry: string, i: int)
  {
    0 <= i < |catalog| && Eligible(catalog, t, tier, excluded, deviceCountry, catalog[i])
  }

  /** The answer to a target that names a server: the first one of that name, or why not. */
  ghost predicate NamedAnswer(catalog: seq<Server>, t: Target, tier: nat, valid: Endpoint -> bool, r: Selection) {
    match r
    case Selected(i, _, _) =>
      FirstNamed(catalog, tier, t.serverName, i) && HasFeatures(t, catalog[i]) && Usable(catalog[i], valid)
    case Refused(code) =>
      || (code == "server_not_found" && forall i :: !FirstNamed(catalog, tier, t.serverName, i))
      || (code == "server_feature_mismatch"
          && exists i :: FirstNamed(catalog, tier, t.serverName, i) && !HasFeatures(t, catalog[i]))
      || (code == "server_validation_failed"
          && exists i :: FirstNamed(catalog, tier, t.serverName, i) && HasFeatures(t, catalog[i]) && !Usable(catalog[i], valid))
  }

  /** Why no server was found for a target without a name. */
  ghost predicate PlainRefusal(catalog: seq<Server>, t: Target, tier: nat, excluded: seq<ExcludedLocation>,
                               deviceCountry: string, code: string)
  {
    || (code == "server_not_found" && forall i :: !IsAnswer(catalog, t, tier, excluded, deviceCountry, i))
    || (code == "server_validation_failed" && exists i :: IsAnswer(catalog, t, tier, excluded, deviceCountry, i))
    || (code == "all_candidates_excluded" && ExclusionsApply(t, tier, excluded)
        && exists i :: 0 <= i < |catalog| && Available(catalog[i], tier) && Matches(catalog, t, deviceCountry, catalog[i])
             && Excluded(catalog, excluded, catalog[i]))
  }

  lemma NamedOutcome(catalog: seq<Server>, t: Target, tier: nat, valid: Endpoint -> bool, choice: Option<int>)
    requires forall i :: FirstNamed(catalog, tier, t.serverName, i) <==> choice == Some(i)
    ensures choice.None? ==> NamedAnswer(catalog, t, tier, valid, Refused("server_not_found"))
    ensures choice.Some? ==>
              && 0 <= choice.value < |catalog| && Available(catalog[choice.value], tier)
              && var s := catalog[choice.value];
                 && (!HasFeatures(t, s) ==> NamedAnswer(catalog, t, tier, valid, Refused("server_feature_mismatch")))
                 && (HasFeatures(t, s) && !Usable(s, valid) ==>
                       NamedAnswer(catalog, t, tier, valid, Refused("server_validation_failed")))
                 && (HasFeatures(t, s) && Usable(s, valid) ==>
                       forall state, e :: NamedAnswer(catalog, t, tier, valid, Selected(choice.value, state, e)))
  {
    hide HasFeatures, Usable, Available, SameText;
    assert choice.Some? ==> FirstNamed(catalog, tier, t.serverName, choice.value);
  }

  lemma AnswerIsAvailable(catalog: seq<Server>, t: Target, tier: nat, excluded: seq<ExcludedLocation>, deviceCountry: string)
    ensures forall i :: IsAnswer(catalog, t, tier, excluded, deviceCountry, i) ==> Available(catalog[i], tier)
  {
    hide ExclusionsApply, Available, Matches, Excluded;
  }

  lemma NotFound(catalog: seq<Server>, t: Target, tier: nat, excluded: seq<ExcludedLocation>,
                 deviceCountry: string, available: seq<int>)
    requires forall i :: 0 <= i < |catalog| && Available(catalog[i], tier) ==> i in available
    requires forall i :: i in available && 0 <= i < |catalog| ==> !Eligible(catalog, t, tier, excluded, deviceCountry, catalog[i])
    ensures PlainRefusal(catalog, t, tier, excluded, deviceCountry, "server_not_found")
  {
    hide Available, Eligible;
    AnswerIsAvailable(catalog, t, tier, excluded, deviceCountry);
  }

  lemma Rejected(catalog: seq<Server>, t: Target, tier: nat, excluded: seq<ExcludedLocation>, deviceCountry: string, i: int)
    requires IsAnswer(catalog, t, tier, excluded, deviceCountry, i)
    ensures PlainRefusal(catalog, t, tier, excluded, deviceCountry, "server_validation_failed")
  {
    hide IsAnswer;
  }

  lemma ExcludedOutcome(catalog: seq<Server>, t: Target, tier: nat, excluded: seq<ExcludedLocation>,
                        deviceCountry: string, available: seq<int>)
    requires ExclusionsApply(t, tier, excluded)
    requires forall i :: i in available ==> 0 <= i < |catalog| && Available(catalog[i], tier)
    requires forall i :: i in available ==> !Eligible(catalog, t, tier, excluded, deviceCountry, catalog[i])
    requires exists i :: i in available && Matches(catalog, t, deviceCountry, catalog[i])
    ensures PlainRefusal(catalog, t, tier, excluded, deviceCountry, "all_candidates_excluded")
  {
    hide ExclusionsApply, Available, Matches, Excluded;
  }

  /**
   Without a server name, selection succeeds exactly when some eligible server
   has an active verified endpoint; what it returns is eligible, verified and,
   unless the server itself is chosen at random, no worse than any other
   eligible server with such an endpoint (of the same country, when the country
   is chosen at random). Every rejection shrinks the available servers.
   */
  method SelectValidated(catalog: seq<Server>, t: Target, tier: nat, excluded: seq<ExcludedLocation>,
                         deviceCountry: string, valid: Endpoint -> bool)
    returns (r: Selection)
    ensures Invalid(t, deviceCountry).Some? ==> r == Refused(Invalid(t, deviceCountry).value)
    ensures t.serverName == "" && Invalid(t, deviceCountry).None? ==>
              (r.Selected? <==>
               exists i :: IsAnswer(catalog, t, tier, excluded, deviceCountry, i) && Usable(catalog[i], valid))
    ensures r.Selected? ==>
              && 0 <= r.server < |catalog| && Available(catalog[r.server], tier) && HasFeatures(t, catalog[r.server])
              && r.endpoint in catalog[r.server].servers && r.endpoint.active && valid(r.endpoint)
              && r.state == CanonicalState(catalog, catalog[r.server])
    ensures r.Selected? && t.serverName == "" ==>
              && IsAnswer(catalog, t, tier, excluded, deviceCountry, r.server)
              && forall i :: IsAnswer(catalog, t, tier, excluded, deviceCountry, i) && Usable(catalog[i], valid) ==>
                   Compared(t, catalog[r.server], catalog[i]) ==> catalog[r.server].score <= catalog[i].score
    ensures r.Selected? && t.serverName == "" ==>
              && Obeys(catalog, t, deviceCountry, catalog[r.server])
              && (ExclusionsApply(t, tier, excluded) ==>
                    forall l :: l in excluded ==> !ExcludedBy(l, catalog[r.server], r.state))
    ensures Invalid(t, deviceCountry).None? && t.serverName == "" && r.Refused? ==>
              PlainRefusal(catalog, t, tier, excluded, deviceCountry, r.code)
    ensures Invalid(t, deviceCountry).None? && t.serverName != "" ==> NamedAnswer(catalog, t, tier, valid, r)
  {
    hide Matches, Excluded, ExclusionsApply, Server.Enabled, Compared, Usable, Obeys, ExcludedBy, CanonicalState,
         NamedAnswer, PlainRefusal, FirstNamed, Available, HasFeatures, Eligible, Ascending;
    if Invalid(t, deviceCountry).Some? {
      return Refused(Invalid(t, deviceCountry).value);
    }
    var available := Filter(Positions(|catalog|), i => 0 <= i < |catalog| && Available(catalog[i], tier));
    var rejected := false;
    AnswerIsAvailable(catalog, t, tier, excluded, deviceCountry);
    PositionsAscend(|catalog|);
    FilterAscends(Positions(|catalog|), i => 0 <= i < |catalog| && Available(catalog[i], tier));
    while true
      invariant forall i :: i in available ==> 0 <= i < |catalog| && Available(catalog[i], tier)
      invariant !rejected ==>
                  Ascending(available) && forall i :: 0 <= i < |catalog| && Available(catalog[i], tier) ==> i in available
      invariant rejected ==>
                  t.serverName == "" && PlainRefusal(catalog, t, tier, excluded, deviceCountry, "server_validation_failed")
      invariant t.serverName == "" ==>
                  forall i :: IsAnswer(catalog, t, tier, excluded, deviceCountry, i) && Usable(catalog[i], valid) ==>
                    i in available
      decreases |available|
    {
      var choice, allExcluded;
      if t.serverName != "" {
        choice := FindNamed(catalog, tier, t.serverName, available);
        allExcluded := false;
        NamedOutcome(catalog, t, tier, valid, choice);
      } else {
        choice, allExcluded := Choose(catalog, t, tier, excluded, deviceCountry, available);
      }
      if allExcluded {
        ExcludedOutcome(catalog, t, tier, excluded, deviceCountry, available);
        return Refused("all_candidates_excluded");
      }
      if choice.None? {
        if t.serverName == "" && !rejected {
          NotFound(catalog, t, tier, excluded, deviceCountry, available);
        }
        return Refused(if rejected then "server_validation_failed" else "server_not_found");
      }
      var logical := choice.value;
      assert t.serverName == "" ==> IsAnswer(catalog, t, tier, excluded, deviceCountry, logical);
      if !HasFeatures(t, catalog[logical]) {
        assert t.serverName != "" by {
          EligibleHasFeatures(catalog, t, tier, excluded, deviceCountry, catalog[logical]);
        }
        return Refused("server_feature_mismatch");
      }
      var endpoint := ChooseEndpoint(catalog[logical], valid);
      if endpoint.Some? {
        if t.serverName == "" {
          EligibleObeys(catalog, t, tier, excluded, deviceCountry, catalog[logical]);
          if ExclusionsApply(t, tier, excluded) {
            EligibleOutside(catalog, t, tier, excluded, deviceCountry, catalog[logical]);
          }
        }
        return Selected(logical, CanonicalState(catalog, catalog[logical]), endpoint.value);
      }
      rejected := true;
      if t.serverName == "" {
        Rejected(catalog, t, tier, excluded, deviceCountry, logical);
      }
      available := Filter(available, i => i != logical);
      if t.serverName != "" || available == [] {
        return Refused("server_validation_failed");
      }
    }
  }

  lemma EligibleOutside(catalog: seq<Server>, t: Target, tier: nat, excluded: seq<ExcludedLocation>,
                        deviceCountry: string, s: Server)
    requires Eligible(catalog, t, tier, excluded, deviceCountry, s) && ExclusionsApply(t, tier, excluded)
    ensures forall l :: l in excluded ==> !ExcludedBy(l, s, CanonicalState(catalog, s))
  {
    hide ExcludedBy, Matches, CanonicalState;
    assert forall k :: 0 <= k < |excluded| ==> excluded[k] in excluded;
  }

  lemma EligibleHasFeatures(catalog: seq<Server>, t: Target, tier: nat, excluded: seq<ExcludedLocation>,
                            deviceCountry: string, s: Server)
    ensures Eligible(catalog, t, tier, excluded, deviceCountry, s) ==> HasFeatures(t, s)
  {
  }
}

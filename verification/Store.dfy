/**
The state file: what is written, and the checks a file must pass to be loaded.
Serialisation is taken as the identity on the stored record.
*/
module Store {
  import opened Wrappers
  import opened SplitModel
  import opened Routing

  const SCHEMA_VERSION := 2

  type BypassMap = map<u16, seq<PhysicalRoute>>

  datatype State = State(configs: ConfigMap, policies: PolicyMap, bypass: BypassMap)

  datatype StoredState = StoredState(schema: nat, state: State)

  function LoadConfigs(configs: ConfigMap): Result<ConfigMap> {
    if exists uid :: uid in configs && configs[uid].Validate().Err? then Err("invalid configuration")
    else Ok(map uid | uid in configs :: configs[uid].Validate().value)
  }

  function LoadPolicies(policies: PolicyMap): Result<PolicyMap> {
    if exists uid :: uid in policies && ValidateIpRanges(policies[uid]).Err? then Err("invalid policy")
    else Ok(map uid | uid in policies :: ValidateIpRanges(policies[uid]).value)
  }

  predicate BypassValid(routes: seq<PhysicalRoute>) {
    && 0 < |routes| <= 2 && (forall i :: 0 <= i < |routes| ==> ValidRoute(routes[i]))
    && forall i, j :: 0 <= i < j < |routes| ==> routes[i].family != routes[j].family
  }

  predicate BypassesAllowed(configs: ConfigMap, bypass: BypassMap) {
    forall uid :: uid in bypass ==> BypassValid(bypass[uid]) && uid in configs && configs[uid].HasRules()
  }

  /** No file is an empty state. */
  function Load(disk: Option<StoredState>): Result<State> {
    match disk
    case None => Ok(State(map[], map[], map[]))
    case Some(StoredState(schema, s)) =>
      if schema != 1 && schema != SCHEMA_VERSION then Err("unsupported schema version")
      else if |s.configs| > MAX_CONFIGS || |s.policies| > MAX_CONFIGS then Err("too many configured users")
      else
        match (LoadConfigs(s.configs), LoadPolicies(s.policies))
        case (Err(e), _) => Err(e)
        case (_, Err(e)) => Err(e)
        case (Ok(configs), Ok(policies)) =>
          if BypassesAllowed(configs, s.bypass) then Ok(State(configs, policies, s.bypass))
          else Err("invalid bypass routes")
  }

  function Saved(s: State): Option<StoredState> { Some(StoredState(SCHEMA_VERSION, s)) }

  ghost predicate Storable(s: State) {
    && |s.configs| <= MAX_CONFIGS && |s.policies| <= MAX_CONFIGS
    && (forall uid :: uid in s.configs ==> Validated(s.configs[uid]))
    && (forall uid :: uid in s.policies ==> ValidatedRanges(s.policies[uid]))
    && BypassesAllowed(s.configs, s.bypass)
  }

  lemma ConfigsReload(configs: ConfigMap)
    ensures LoadConfigs(configs) == Ok(configs) <==> forall uid :: uid in configs ==> Validated(configs[uid])
  {
    hide SplitConfig.Validate, Validated;
    forall uid | uid in configs
      ensures Validated(configs[uid]) <==> configs[uid].Validate() == Ok(configs[uid])
    {
      ConfigValidation(configs[uid]);
    }
    if forall uid :: uid in configs ==> configs[uid].Validate() == Ok(configs[uid]) {
      assert LoadConfigs(configs).value == configs;
    }
    if LoadConfigs(configs) == Ok(configs) {
      forall uid | uid in configs
        ensures configs[uid].Validate() == Ok(configs[uid])
      {
        assert LoadConfigs(configs).value[uid] == configs[uid].Validate().value;
      }
    }
  }

  lemma PoliciesReload(policies: PolicyMap)
    ensures LoadPolicies(policies) == Ok(policies)
       <==> forall uid :: uid in policies ==> ValidatedRanges(policies[uid])
  {
    hide ValidateIpRanges, ValidatedRanges;
    forall uid | uid in policies
      ensures ValidatedRanges(policies[uid]) <==> ValidateIpRanges(policies[uid]) == Ok(policies[uid])
    {
      RangesValidation(policies[uid]);
    }
    if forall uid :: uid in policies ==> ValidateIpRanges(policies[uid]) == Ok(policies[uid]) {
      assert LoadPolicies(policies).value == policies;
    }
    if LoadPolicies(policies) == Ok(policies) {
      forall uid | uid in policies
        ensures ValidateIpRanges(policies[uid]) == Ok(policies[uid])
      {
        assert LoadPolicies(policies).value[uid] == ValidateIpRanges(policies[uid]).value;
      }
    }
  }

  /** Exactly the storable states come back equal from the file they are saved to. */
  lemma SaveThenLoad(s: State)
    ensures Load(Saved(s)) == Ok(s) <==> Storable(s)
  {
    hide Validated, ValidatedRanges, BypassesAllowed, LoadConfigs, LoadPolicies;
    ConfigsReload(s.configs);
    PoliciesReload(s.policies);
  }

  /** Whatever a file holds, what is loaded from it is storable. */
  lemma LoadedIsStorable(disk: Option<StoredState>)
    requires Load(disk).Ok?
    ensures Storable(Load(disk).value)
  {
    hide SplitConfig.Validate, Validated, ValidateIpRanges, ValidatedRanges;
    if disk.Some? {
      var s := disk.value.state;
      forall uid | uid in s.configs
        ensures s.configs[uid].Validate().Ok? ==> Validated(s.configs[uid].Validate().value)
      {
        ConfigValidation(s.configs[uid]);
      }
      forall uid | uid in s.policies
        ensures ValidateIpRanges(s.policies[uid]).Ok? ==> ValidatedRanges(ValidateIpRanges(s.policies[uid]).value)
      {
        RangesValidation(s.policies[uid]);
      }
      assert LoadConfigs(s.configs).value.Keys == s.configs.Keys;
      assert LoadPolicies(s.policies).value.Keys == s.policies.Keys;
    }
  }

  /** A bypass has one or two routes, of different families, for a user with rules. */
  ghost predicate BypassFits(routes: seq<PhysicalRoute>) {
    match |routes|
    case 1 => ValidRoute(routes[0])
    case 2 => ValidRoute(routes[0]) && ValidRoute(routes[1]) && routes[0].family != routes[1].family
    case _ => false
  }

  /** Which files are accepted; from them everything is loaded, and nothing changes but by validation. */
  lemma LoadMeans(schema: nat, s: State)
    ensures var r := Load(Some(StoredState(schema, s)));
            && (r.Ok? <==>
                && (schema == 1 || schema == 2) && |s.configs| <= 64 && |s.policies| <= 64
                && (forall uid :: uid in s.configs ==> s.configs[uid].Validate().Ok?)
                && (forall uid :: uid in s.policies ==> ValidateIpRanges(s.policies[uid]).Ok?)
                && forall uid :: uid in s.bypass ==>
                     BypassFits(s.bypass[uid]) && uid in s.configs && s.configs[uid].Validate().value.HasRules())
            && (r.Ok? ==>
                && r.value.configs.Keys == s.configs.Keys && r.value.policies.Keys == s.policies.Keys
                && r.value.bypass == s.bypass
                && (forall uid :: uid in s.configs ==> Ok(r.value.configs[uid]) == s.configs[uid].Validate())
                && forall uid :: uid in s.policies ==> Ok(r.value.policies[uid]) == ValidateIpRanges(s.policies[uid]))
    ensures Load(None) == Ok(State(map[], map[], map[]))
  {
    hide SplitConfig.Validate, SplitConfig.HasRules, ValidateIpRanges, ValidRoute;
    forall uid | uid in s.bypass
      ensures BypassValid(s.bypass[uid]) <==> BypassFits(s.bypass[uid])
    {
      BypassShape(s.bypass[uid]);
    }
    if LoadConfigs(s.configs).Ok? && LoadPolicies(s.policies).Ok? {
      assert LoadConfigs(s.configs).value.Keys == s.configs.Keys;
      assert LoadPolicies(s.policies).value.Keys == s.policies.Keys;
    }
  }

  lemma BypassShape(routes: seq<PhysicalRoute>)
    ensures BypassValid(routes) <==> BypassFits(routes)
  {
    hide ValidRoute;
  }
}

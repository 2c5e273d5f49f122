/**
The split-tunneling engine: policies, the tracked processes, the kernel's pid
map, the kill-switch bypass and the state file, under operations any step of
which may fail.
*/
module Engine {
  import opened Bytes
  import opened Wrappers
  import opened Sets
  import opened SplitModel
  import opened LpmIndex
  import opened Marker
  import opened Tracking
  import opened ProcessEvents
  import opened Routing
  import opened Store
  import opened BypassLedger

  // ----- tracked processes and the pid map -----

  function Excluded(tracked: map<u32, TrackedProcess>): set<u32> {
    set pid | pid in tracked && tracked[pid].excluded
  }

  /** The pid-map keys of the excluded processes. */
  ghost function PidKeys(tracked: map<u32, TrackedProcess>): set<seq<byte>> {
    KeysOf(Excluded(tracked))
  }

  predicate NeedsTracking(config: SplitConfig) {
    config.HasAppRules() || (config.mode == Include && config.HasRules())
  }

  predicate AnyPolicy(configs: ConfigMap, policies: PolicyMap) {
    (exists uid :: uid in configs && configs[uid].HasRules()) || exists uid :: uid in policies && policies[uid] != []
  }

  predicate AnyTracking(configs: ConfigMap) {
    exists uid :: uid in configs && NeedsTracking(configs[uid])
  }

  lemma PidKeysStep(tracked: map<u32, TrackedProcess>, pid: u32, process: TrackedProcess)
    ensures PidKeys(tracked - {pid}) == PidKeys(tracked) - {ToLe(pid, 4)}
    ensures PidKeys(tracked[pid := process])
         == if process.excluded then PidKeys(tracked) + {ToLe(pid, 4)} else PidKeys(tracked) - {ToLe(pid, 4)}
    ensures pid !in Excluded(tracked) ==> ToLe(pid, 4) !in PidKeys(tracked)
  {
    hide ToLe;
    assert pid !in Excluded(tracked) ==> Excluded(tracked) - {pid} == Excluded(tracked);
    assert KeysOf({pid}) == {ToLe(pid, 4)};
    KeysOfDifference(Excluded(tracked), {pid});
    assert Excluded(tracked - {pid}) == Excluded(tracked) - {pid};
    assert Excluded(tracked[pid := process])
        == if process.excluded then Excluded(tracked) + {pid} else Excluded(tracked) - {pid};
  }

  /** The tracking a reconciliation leaves. */
  ghost function NextTracking(configs: ConfigMap, scan: Option<seq<ProcessInfo>>): map<u32, TrackedProcess>
    requires scan.Some? ==> DistinctPids(Scan(scan.value))
  {
    if AnyTracking(configs) && scan.Some? then Tracked(configs, Scan(scan.value)) else map[]
  }

  lemma NoPolicyNoTracking(configs: ConfigMap, policies: PolicyMap, scan: Option<seq<ProcessInfo>>)
    requires !AnyPolicy(configs, policies) && (scan.Some? ==> DistinctPids(Scan(scan.value)))
    ensures !AnyTracking(configs) && NextTracking(configs, scan) == map[] && Consistent(configs, map[])
  {
  }

  lemma TrackedIsConsistent(configs: ConfigMap, scan: set<ProcessInfo>)
    requires DistinctPids(scan)
    ensures Consistent(configs, Tracked(configs, scan))
  {
    hide Inherits;
    forall pid | pid in Tracked(configs, scan)
      ensures Tracked(configs, scan)[pid].uid in configs
    {
      var p :| p in scan && p.uid in configs && p.pid == pid;
    }
  }

  /**
   The scan is skipped only without rules for applications and without rules
   under Include. That is exact when no user has an Include policy without any
   rules; with such a user, a full scan would exclude its processes.
   */
  lemma FastPathExact(configs: ConfigMap)
    requires !AnyTracking(configs)
    ensures (forall scan: set<ProcessInfo> :: DistinctPids(scan) ==> PidKeys(Tracked(configs, scan)) == {})
       <==> forall uid :: uid in configs ==> configs[uid].mode == Exclude
    ensures forall uid :: uid in configs ==>
              if configs[uid].mode == Include then !configs[uid].HasRules() else !configs[uid].HasAppRules()
  {
    hide ToLe;
    if uid :| uid in configs && configs[uid].mode == Include {
      var scan := {ProcessInfo(uid, 1, 0, [])};
      assert DistinctPids(scan) && 1 in Tracked(configs, scan);
      assert ToLe(1, 4) in PidKeys(Tracked(configs, scan));
    }
  }

  /**
   The marker is kept exactly when it has something to do: some user's processes
   have to be tracked, or for some destination the lists decide against what the
   task alone would get.
   */
  lemma MarkerNeeded(configs: ConfigMap, policies: PolicyMap)
    requires forall uid :: uid in configs ==> ValidatedRanges(configs[uid].ipRanges)
    requires forall uid :: uid in policies ==> ValidatedRanges(policies[uid])
    ensures AnyPolicy(configs, policies)
       <==> || AnyTracking(configs)
            || exists uid, address, task :: !(ListMarks(configs, policies, uid, address, task) <==> task)
  {
    hide Covers, Distinct;
    if uid :| uid in policies && policies[uid] != [] {
      var address := CoveredAddress(policies[uid]);
      assert ListMarks(configs, policies, uid, address, false);
    } else if uid :| uid in configs && configs[uid].ipRanges != [] {
      var address := CoveredAddress(configs[uid].ipRanges);
      NothingCovered(address);
      var task := configs[uid].mode == Include;
      assert !(ListMarks(configs, policies, uid, address, task) <==> task);
    }
    if uid, address, task :| !(ListMarks(configs, policies, uid, address, task) <==> task) {
      NothingCovered(address);
      assert uid in policies || uid in configs;
    }
  }

  lemma CoveredAddress(ranges: seq<RangeText>) returns (address: seq<bool>)
    requires ValidatedRanges(ranges) && ranges != []
    ensures Covers(ranges, address)
  {
    assert ranges[0] in ranges;
    address := ranges[0].net.bits;
    assert ranges[0].net.Contains(address);
  }

  lemma NothingCovered(address: seq<bool>)
    ensures !Covers([], address)
  {
  }

  /**
   A policy that is taken back after its tracking was computed: the exclusions
   left behind are what the remaining policies say exactly when the attempt
   kept the mode of the user, or the user runs no process.
   */
  lemma TakenBackPolicy(configs: ConfigMap, uid: u16, config: SplitConfig, scan: set<ProcessInfo>)
    requires DistinctPids(scan)
    ensures Consistent(configs, Tracked(configs[uid := config], scan))
       <==> || (uid in configs && configs[uid].mode == config.mode)
            || forall p :: p in scan ==> p.uid != uid
  {
    hide Inherits;
    var after := configs[uid := config];
    var tracked := Tracked(after, scan);
    forall pid | pid in tracked
      ensures exists p :: p in scan && p.pid == pid && p.uid == tracked[pid].uid && p.uid in after
    {
      var p :| p in scan && p.uid in after && p.pid == pid;
    }
    if p :| p in scan && p.uid == uid {
      assert p.pid in tracked && tracked[p.pid].uid == uid;
    }
  }

  // ----- limits -----

  ghost predicate StateValid(s: State) {
    Storable(s) && |s.configs.Keys + s.policies.Keys| <= MAX_CONFIGS
  }

  /** What the engine writes it can read back. */
  ghost predicate DiskValid(disk: Option<StoredState>) {
    disk.Some? ==> disk.value.schema == SCHEMA_VERSION && StateValid(disk.value.state)
  }

  /** Every state of the engine is within the limits of the kernel maps. */
  lemma StateLimits(s: State)
    requires StateValid(s)
    ensures Limits(s.configs, s.policies) && PolicySpelled(s.configs, s.policies)
  {
    forall uid | uid in s.configs ensures AllSpelled(s.configs[uid].ipRanges) {
      RangesSpelled(s.configs[uid].ipRanges);
    }
    forall uid | uid in s.policies ensures AllSpelled(s.policies[uid]) {
      RangesSpelled(s.policies[uid]);
    }
  }

  lemma RangesSpelled(ranges: seq<RangeText>)
    requires ValidatedRanges(ranges)
    ensures AllSpelled(ranges)
  {
    assert forall i :: 0 <= i < |ranges| ==> ranges[i] in ranges;
  }

  lemma DiskReloads(disk: Option<StoredState>)
    requires DiskValid(disk)
    ensures Load(disk) == Ok(if disk.Some? then disk.value.state else State(map[], map[], map[]))
    ensures StateValid(Load(disk).value)
  {
    if disk.Some? {
      SaveThenLoad(disk.value.state);
    }
  }

  /** No room for a user who has no policy yet. */
  predicate Full(configs: ConfigMap, policies: PolicyMap, uid: u16) {
    uid !in configs && uid !in policies && |configs.Keys + policies.Keys| >= MAX_CONFIGS
  }

  /** The bypass of the user is on record again, one route per family, if it was before. */
  ghost predicate PutBack(before: BypassMap, uid: u16, after: BypassMap) {
    && after - {uid} == before - {uid} && (uid in after <==> uid in before)
    && (uid in before ==> after[uid] == before[uid] || after[uid] == PreferredRoutes(before[uid]))
  }

  lemma PutBackMeans(before: BypassMap, uid: u16, routes: seq<PhysicalRoute>)
    ensures PutBack(before, uid, before)
    ensures uid in before && routes == PreferredRoutes(before[uid]) ==> PutBack(before, uid, (before - {uid})[uid := routes])
  {
  }

  /** What the kernel holds for the recorded bypass of a user. */
  ghost function RoutesOf(bypass: BypassMap, uid: u16): set<Route> {
    if uid in bypass then OwnedRoutes(uid, bypass[uid]) else {}
  }

  ghost function RulesOf(bypass: BypassMap, uid: u16): set<Rule> {
    if uid in bypass then OwnedRules(uid, bypass[uid]) else {}
  }

  /** There is a route to use, and the tables of the families in use are free. */
  ghost predicate TablesFree(routes: set<Route>, rules: set<Rule>, uid: u16, wanted: seq<PhysicalRoute>) {
    && PreferredRoutes(wanted) != []
    && forall f :: f in Families(PreferredRoutes(wanted)) ==> Free(routes, rules, uid, f)
  }

  lemma OneMoreUid(users: set<u16>, more: set<u16>, uid: u16)
    requires |users| <= MAX_CONFIGS && (uid in users || |users| < MAX_CONFIGS)
    requires more <= users + {uid}
    ensures |more| <= MAX_CONFIGS
  {
    assert uid in users ==> users + {uid} == users;
    SubsetBounded(more, users + {uid});
  }

  lemma RoomForConfig(configs: ConfigMap, policies: PolicyMap, uid: u16, config: SplitConfig)
    requires |configs.Keys + policies.Keys| <= MAX_CONFIGS && !Full(configs, policies, uid)
    ensures |configs[uid := config]| <= MAX_CONFIGS
    ensures |configs[uid := config].Keys + policies.Keys| <= MAX_CONFIGS
  {
    var users, more := configs.Keys + policies.Keys, configs[uid := config];
    OneMoreUid(users, more.Keys, uid);
    OneMoreUid(users, more.Keys + policies.Keys, uid);
  }

  lemma RoomForPolicy(configs: ConfigMap, policies: PolicyMap, uid: u16, ranges: seq<RangeText>)
    requires |configs.Keys + policies.Keys| <= MAX_CONFIGS && !Full(configs, policies, uid)
    ensures |policies[uid := ranges]| <= MAX_CONFIGS
    ensures |configs.Keys + policies[uid := ranges].Keys| <= MAX_CONFIGS
  {
    var users, more := configs.Keys + policies.Keys, policies[uid := ranges];
    OneMoreUid(users, more.Keys, uid);
    OneMoreUid(users, configs.Keys + more.Keys, uid);
  }

  lemma BypassStaysAllowed(s: State, uid: u16, config: SplitConfig)
    requires BypassesAllowed(s.configs, s.bypass) && (uid in s.bypass ==> config.HasRules())
    ensures BypassesAllowed(s.configs[uid := config], s.bypass)
  {
    hide BypassValid, SplitConfig.HasRules;
  }

  lemma OneMoreConfig(s: State, uid: u16, config: SplitConfig)
    requires StateValid(s) && Validated(config) && !Full(s.configs, s.policies, uid)
    requires uid in s.bypass ==> config.HasRules()
    ensures StateValid(s.(configs := s.configs[uid := config]))
  {
    hide Validated, ValidatedRanges, BypassesAllowed, Full;
    RoomForConfig(s.configs, s.policies, uid, config);
    BypassStaysAllowed(s, uid, config);
  }

  lemma FewerConfigsStorable(s: State, uid: u16)
    requires Storable(s) && uid !in s.bypass
    ensures Storable(s.(configs := s.configs - {uid}))
  {
    hide Validated, ValidatedRanges, BypassValid;
    SubsetBounded((s.configs - {uid}).Keys, s.configs.Keys);
  }

  lemma FewerConfigs(s: State, uid: u16)
    requires StateValid(s) && uid !in s.bypass
    ensures StateValid(s.(configs := s.configs - {uid}))
  {
    hide Storable;
    FewerConfigsStorable(s, uid);
    SubsetBounded((s.configs - {uid}).Keys + s.policies.Keys, s.configs.Keys + s.policies.Keys);
  }

  lemma MorePolicies(s: State, uid: u16, ranges: seq<RangeText>)
    requires StateValid(s) && ValidatedRanges(ranges) && !Full(s.configs, s.policies, uid)
    ensures StateValid(s.(policies := s.policies[uid := ranges]))
  {
    hide Validated, ValidatedRanges, BypassesAllowed, Full;
    RoomForPolicy(s.configs, s.policies, uid, ranges);
  }

  lemma FewerPoliciesStorable(s: State, uid: u16)
    requires Storable(s)
    ensures Storable(s.(policies := s.policies - {uid}))
  {
    hide Validated, ValidatedRanges, BypassesAllowed;
    SubsetBounded((s.policies - {uid}).Keys, s.policies.Keys);
  }

  lemma FewerPolicies(s: State, uid: u16)
    requires StateValid(s)
    ensures StateValid(s.(policies := s.policies - {uid}))
  {
    hide Storable;
    FewerPoliciesStorable(s, uid);
    SubsetBounded(s.configs.Keys + (s.policies - {uid}).Keys, s.configs.Keys + s.policies.Keys);
  }

  lemma OtherBypass(s: State, uid: u16, routes: Option<seq<PhysicalRoute>>)
    requires StateValid(s)
    requires routes.Some? ==> BypassValid(routes.value) && uid in s.configs && s.configs[uid].HasRules()
    ensures StateValid(s.(bypass := if routes.Some? then s.bypass[uid := routes.value] else s.bypass - {uid}))
  {
    hide Validated, ValidatedRanges, BypassValid;
  }

  lemma WithoutBypass(s: State)
    requires StateValid(s)
    ensures StateValid(s.(bypass := map[]))
    ensures s.bypass == map[] ==> s == s.(bypass := map[])
  {
    hide Validated, ValidatedRanges;
  }

  /** The bypass of no other user changes. */
  ghost predicate BypassKept(before: BypassMap, uid: u16, after: BypassMap) {
    before - {uid} == after - {uid}
  }

  /** The bypasses left when a policy that allows none is about to be set for a user. */
  function AfterPolicy(bypass: BypassMap, uid: u16, forbids: bool): BypassMap {
    if forbids then bypass - {uid} else bypass
  }

  lemma BypassHolder(s: State, uid: u16)
    requires StateValid(s)
    ensures uid in s.bypass ==> BypassValid(s.bypass[uid]) && uid in s.configs && s.configs[uid].HasRules()
  {
  }

  lemma PreferredIsValid(routes: seq<PhysicalRoute>)
    requires forall r :: r in routes ==> ValidRoute(r)
    ensures PreferredRoutes(routes) != [] ==> BypassValid(PreferredRoutes(routes))
  {
    PreferredIsLeast(routes, Ipv4);
    forall i | 0 <= i < |PreferredRoutes(routes)|
      ensures ValidRoute(PreferredRoutes(routes)[i])
    {
      assert PreferredRoutes(routes)[i] in routes;
    }
  }

  /**
   In every state, unless the maps are damaged, the kernel holds at most
   64 * 256 entries in each trie, and at most 64 modes unless one is stuck.
   */
  lemma KernelFits(engine: Engine)
    requires engine.KernelValid() && engine.marker != null && !engine.mapFault
    ensures TriesFit(engine.marker.kernel.tries)
    ensures !engine.modeFault ==> ModesFit(engine.marker.kernel.modes)
  {
    hide Keys, KeysOf, Moded, TriesFit, ModesFit, Limits, ModesAgree, PidKeys, Sized;
    InstalledFits(engine.marker.kernel, engine.marker.configs, engine.marker.policies);
  }

  /**
   In every state, unless an undo has failed, whatever the kernel holds for the
   bypass of a user is on record, and the user has a policy with rules.
   Unless a removal has stopped halfway, all that is on record is in the kernel.
   */
  lemma KernelBypassHasRules(engine: Engine, c: Command, uid: u16)
    requires engine.Valid() && BelongsTo(c, uid)
    ensures !engine.undoFault && c in engine.routing.Held() ==>
              c in OwnedBy(engine.bypass, uid) && uid in engine.configs && engine.configs[uid].HasRules()
    ensures !engine.dropFault && c in OwnedBy(engine.bypass, uid) ==> c in engine.routing.Held()
  {
    hide Owned, BelongsTo, Validated, ValidatedRanges, Engine.KernelValid, Consistent, SplitConfig.HasRules, InFile;
    OwnedIsRecorded(engine.bypass, uid);
    if !engine.undoFault && c in engine.routing.Held() {
      assert IsOurs(c);
      assert c in Recorded(engine.bypass);
      RecordedMember(engine.bypass, c);
      var other :| other in engine.bypass && c in OwnedBy(engine.bypass, other);
      OwnedBelongs(other, engine.bypass[other]);
      if other != uid {
        BelongsToOne(c, uid, other);
      }
    }
  }

  /** While no undo has failed and the file is current, the file records all bypasses in the kernel. */
  lemma KernelIsInFile(engine: Engine)
    ensures engine.RoutesValid() && !engine.undoFault && !engine.saveFault ==>
              Ours(engine.routing.Held()) <= InFile(engine.disk)
  {
    hide Ours, Recorded, InFile;
  }

  class Engine {
    var configs: ConfigMap
    var policies: PolicyMap
    var bypass: BypassMap
    var tracked: map<u32, TrackedProcess>
    var marker: SocketMarker?
    var disk: Option<StoredState>
    const routing: KernelRouting
    const system: bool           // the system engine persists its state and owns kernel routes
    ghost var pidFault: bool     // a failed pid-map operation is not repaired yet
    ghost var mapFault: bool     // nor a failed rollback of the policy maps
    ghost var modeFault: bool    // nor a failed deletion of a mode
    ghost var drift: bool        // the tracking was computed for a policy that was taken back
    ghost var dropFault: bool    // a removal of kernel routes stopped halfway, and is not repaired yet
    ghost var undoFault: bool    // routes that are not on record could not be taken out
    ghost var saveFault: bool    // the last save failed after the renaming
    ghost var unsettled: bool    // the last reconciliation failed
    ghost var unrestored: bool   // a bypass that was to be put back could not be
    ghost var faults: nat        // history: the failed operations on the kernel, its programs and the file

    ghost function Repr(): set<object>
      reads this
    {
      {this, routing} + if marker == null then {} else {marker}
    }

    function Memory(): State
      reads this`configs, this`policies, this`bypass
    {
      State(configs, policies, bypass)
    }

    /** The maps hold what the engine believes they hold, unless an operation has failed. */
    ghost predicate KernelValid()
      reads this`marker, this`tracked, this`pidFault, this`mapFault, this`modeFault, marker
    {
      && (marker == null ==> tracked == map[] && !pidFault && !mapFault && !modeFault)
      && (marker != null ==>
            && marker.MapsValid(mapFault, modeFault) && PolicySpelled(marker.configs, marker.policies)
            && (!pidFault ==> marker.kernel.pids == PidKeys(tracked)))
    }

    /**
     The bypasses in the kernel, on record and in the file: nothing is in the
     kernel without being on record, nothing on record is missing from the
     kernel or from the file, unless an operation has failed.
     */
    ghost predicate RoutesValid()
      reads this`bypass, this`disk, this`dropFault, this`undoFault, this`saveFault, routing
    {
      && (!undoFault ==> Ours(routing.Held()) <= Recorded(bypass))
      && (!dropFault ==> Recorded(bypass) <= routing.Held())
      && (!saveFault ==> Recorded(bypass) <= InFile(disk))
    }

    ghost predicate StoreValid()
      reads this`configs, this`policies, this`bypass, this`disk
    {
      StateValid(Memory()) && DiskValid(disk) && (!system ==> bypass == map[] && disk == None)
    }

    ghost predicate Valid()
      reads this, marker, routing
    {
      KernelValid() && StoreValid() && RoutesValid() && (!drift ==> Consistent(configs, tracked))
    }

    /** An engine on an empty store. */
    constructor (routing: KernelRouting, system: bool)
      ensures Valid() && fresh(Repr() - {routing}) && this.routing == routing && this.system == system
      ensures Memory() == State(map[], map[], map[]) && marker == null && !drift && !dropFault && !saveFault
      ensures undoFault <==> Ours(routing.Held()) != {}
    {
      configs, policies, bypass, tracked, marker, disk := map[], map[], map[], map[], null, None;
      this.routing, this.system := routing, system;
      pidFault, mapFault, modeFault, drift := false, false, false, false;
      dropFault, undoFault, saveFault := false, Ours(routing.Held()) != {}, false;
      unsettled, unrestored, faults := false, false, 0;
    }

    method MarkAll(pids: set<u32>, excluded: bool) returns (ok: bool)
      requires marker != null
      modifies this`faults, marker`kernel, marker`faults
      ensures marker.kernel.tries == old(marker.kernel.tries) && marker.kernel.modes == old(marker.kernel.modes)
      ensures faults >= old(faults) && (ok <==> faults == old(faults))
      ensures ok ==> marker.kernel.pids == if excluded then old(marker.kernel.pids) + KeysOf(pids)
                                           else old(marker.kernel.pids) - KeysOf(pids)
    {
      hide ToLe;
      var todo := pids;
      while todo != {}
        invariant todo <= pids && faults == old(faults)
        invariant marker.kernel.tries == old(marker.kernel.tries) && marker.kernel.modes == old(marker.kernel.modes)
        invariant marker.kernel.pids == if excluded then old(marker.kernel.pids) + KeysOf(pids - todo)
                                        else old(marker.kernel.pids) - KeysOf(pids - todo)
      {
        var pid :| pid in todo;
        ok := marker.SetExcluded(pid, excluded);
        if !ok {
          faults := faults + 1;
          return;
        }
        KeysOfDifference(pids - todo, {pid});
        assert KeysOf({pid}) == {ToLe(pid, 4)};
        assert pids - (todo - {pid}) == pids - todo + {pid};
        todo := todo - {pid};
      }
      assert pids - todo == pids;
      ok := true;
    }

    /** Brings the pid map from the tracked processes to the next ones. */
    method Retrack(next: map<u32, TrackedProcess>) returns (ok: bool)
      requires marker != null
      modifies this`tracked, this`faults, marker`kernel, marker`faults
      ensures marker.kernel.tries == old(marker.kernel.tries) && marker.kernel.modes == old(marker.kernel.modes)
      ensures faults >= old(faults) && (ok <==> faults == old(faults))
      ensures tracked == if ok then next else old(tracked)
      ensures ok ==> marker.kernel.pids == old(marker.kernel.pids) - PidKeys(old(tracked)) + PidKeys(next)
    {
      ok := MarkAll(Excluded(tracked) - Excluded(next), false);
      if ok {
        ok := MarkAll(Excluded(next), true);
      }
      KeysOfDifference(Excluded(tracked), Excluded(next));
      if ok {
        tracked := next;
      }
    }

    /** Recomputes the tracking under installed policies. */
    method Rescan(scan: Option<seq<ProcessInfo>>) returns (ok: bool)
      requires marker != null && KernelValid() && (scan.Some? ==> DistinctPids(Scan(scan.value)))
      modifies this`tracked, this`pidFault, this`drift, this`faults, marker`kernel, marker`faults
      ensures KernelValid()
      ensures faults >= old(faults)
      ensures ok <==> faults == old(faults) && (AnyTracking(configs) ==> scan.Some?)
      ensures !ok ==> tracked == old(tracked) && drift == old(drift)
      ensures ok ==> !drift && Consistent(configs, tracked)
      ensures ok ==> tracked == NextTracking(configs, scan)
      ensures ok && AnyTracking(configs) ==> scan.Some?
      ensures ok ==> marker.kernel.pids == old(marker.kernel.pids) - PidKeys(old(tracked)) + PidKeys(tracked)
      ensures ok ==> (pidFault <==> old(pidFault) && marker.kernel.pids != PidKeys(tracked))
      ensures marker.kernel.tries == old(marker.kernel.tries) && marker.kernel.modes == old(marker.kernel.modes)
    {
      hide Validated, PolicySpelled, PidKeys, Tracked, Keys, ModesAgree, Limits, KeysOf, Moded, Sized;
      if !AnyTracking(configs) {
        ok := Retrack(map[]);
      } else {
        if scan.None? {
          return false;
        }
        var next := BuildTracking(configs, scan.value);
        TrackedIsConsistent(configs, Scan(scan.value));
        ok := Retrack(next);
      }
      pidFault := !ok || (pidFault && marker.kernel.pids != PidKeys(tracked));
      drift := drift && !ok;
    }

    /**
     Installs the policies and recomputes the tracking. `scan` is what reading
     the process table yields, or nothing when it fails. After a success the
     pid map is exact if every key in it was tracked before or is excluded now.
     While the maps are undamaged, whatever fails, no trie outgrows its
     capacity, and neither does the mode map when no mode is stuck.
     */
    method Reconcile(scan: Option<seq<ProcessInfo>>) returns (ok: bool)
      requires KernelValid() && Limits(configs, policies) && PolicySpelled(configs, policies)
      requires (scan.Some? ==> DistinctPids(Scan(scan.value)))
      modifies this`tracked, this`marker, this`pidFault, this`mapFault, this`modeFault, this`drift, this`unsettled,
               this`faults, marker
      ensures KernelValid() && (marker == old(marker) || marker == null || fresh(marker))
      ensures faults >= old(faults) && unsettled == !ok
      ensures faults == old(faults) && (AnyTracking(configs) ==> scan.Some?) ==> ok
      ensures !ok ==> tracked == old(tracked) && drift == old(drift)
      ensures ok ==> !drift && Consistent(configs, tracked)
      ensures ok ==> tracked == NextTracking(configs, scan)
      ensures ok && AnyTracking(configs) ==> scan.Some?
      ensures ok ==> (marker != null <==> AnyPolicy(configs, policies))
      ensures ok && marker != null ==> marker.configs == configs && marker.policies == policies
      ensures ok && marker != null && old(marker) != null ==>
                && marker.kernel.pids == old(marker.kernel.pids) - PidKeys(old(tracked)) + PidKeys(tracked)
                && (marker.kernel.pids == PidKeys(tracked) <==>
                    old(marker.kernel.pids) <= PidKeys(old(tracked)) + PidKeys(tracked))
      ensures ok && marker != null ==> (pidFault <==> old(pidFault) && marker.kernel.pids != PidKeys(tracked))
      ensures ok && mapFault ==> old(mapFault) && !marker.Synced()
      ensures marker != null && !old(mapFault) ==> TriesFit(marker.kernel.tries)
      ensures marker != null && !old(mapFault) && !old(modeFault) && !modeFault ==> ModesFit(marker.kernel.modes)
    {
      hide AnyPolicy, AnyTracking, NextTracking, Consistent;
      hide Validated, PolicySpelled, PidKeys, Tracked, Keys, ModesAgree, Limits, Sized, TriesFit, ModesFit, KeysOf,
           Moded;
      if !AnyPolicy(configs, policies) {
        NoPolicyNoTracking(configs, policies, scan);
        ForgetTracking();
        unsettled := false;
        return true;
      }
      unsettled := true;
      ok := EnsureMarker();
      if !ok {
        return;
      }
      ok := Install();
      if ok {
        ok := Rescan(scan);
      }
      unsettled := !ok;
    }

    /** Installs the policies in the kernel. */
    method Install() returns (ok: bool)
      requires marker != null && KernelValid() && Limits(configs, policies) && PolicySpelled(configs, policies)
      modifies this`mapFault, this`modeFault, this`faults, marker
      ensures KernelValid() && marker.kernel.pids == old(marker.kernel.pids)
      ensures faults >= old(faults) && (faults == old(faults) ==> ok)
      ensures ok ==> marker.configs == configs && marker.policies == policies
      ensures ok && mapFault ==> old(mapFault) && !marker.Synced()
      ensures !old(mapFault) ==> TriesFit(marker.kernel.tries)
      ensures !old(mapFault) && !old(modeFault) && !modeFault ==> ModesFit(marker.kernel.modes)
    {
      hide PolicySpelled, PidKeys, Limits, TriesFit, ModesFit, SocketMarker.MapsValid, SocketMarker.Synced;
      ghost var damaged, stale;
      ghost var failed := marker.faults;
      ok, damaged, stale := marker.Install(configs, policies, mapFault, modeFault);
      faults := faults + (marker.faults - failed);
      mapFault, modeFault := damaged, stale;
    }

    method EnsureMarker() returns (ok: bool)
      requires KernelValid()
      modifies this`marker, this`faults
      ensures KernelValid() && (ok <==> marker != null)
      ensures faults >= old(faults) && (ok <==> faults == old(faults))
      ensures marker == old(marker) || (old(marker) == null && fresh(marker))
    {
      ok := true;
      if marker == null {
        ok := *;
        if ok {
          marker := new SocketMarker();
        } else {
          faults := faults + 1;
        }
      }
    }

    /** Applies one process event. An exit is dropped from the tracking before the map operation. */
    method HandleEvent(event: ProcessEvent) returns (ok: bool)
      requires KernelValid()
      modifies this`tracked, this`pidFault, this`faults, marker
      ensures KernelValid()
      ensures faults >= old(faults) && (ok <==> faults == old(faults))
      ensures marker == null ==> ok && tracked == old(tracked)
      ensures marker != null && ok ==> tracked == AfterEvent(configs, old(tracked), event)
      ensures !ok ==> tracked == old(tracked) || tracked == AfterEvent(configs, old(tracked), event)
      ensures pidFault == (old(pidFault) || !ok)
      ensures old(Consistent(configs, tracked)) ==> Consistent(configs, tracked)
    {
      hide PidKeys, ToLe, OwnMatch, SocketMarker.MapsValid;
      ok := true;
      if marker == null {
        return;
      }
      EventKeeps(configs, tracked, event);
      match event
      case Exit(pid) => ok := Forget(pid);
      case Fork(parent, child, info) =>
        if parent in tracked {
          if tracked[parent].uid in configs {
            ok := Track(child, Judge(configs, tracked[parent].uid, tracked[parent].matched));
          }
        } else if info.Some? && info.value.uid in configs {
          ok := Track(child, Judge(configs, info.value.uid, OwnMatch(configs, info.value)));
        }
      case Exec(pid, info) =>
        if info.Some? {
          var i := info.value;
          if i.uid in configs {
            var matched := (pid in tracked && tracked[pid].matched) || OwnMatch(configs, i);
            ok := Track(pid, Judge(configs, i.uid, matched));
          } else {
            ok := Forget(pid);
          }
        }
    }

    method Forget(pid: u32) returns (ok: bool)
      requires KernelValid() && marker != null
      modifies this`tracked, this`pidFault, this`faults, marker`kernel, marker`faults
      ensures faults >= old(faults) && (ok <==> faults == old(faults))
      ensures KernelValid() && tracked == old(tracked) - {pid} && pidFault == (old(pidFault) || !ok)
    {
      hide PolicySpelled, ToLe, Keys, ModesAgree, Limits, KeysOf, Moded;
      PidKeysStep(tracked, pid, TrackedProcess(0, false, false));
      var excluded := pid in tracked && tracked[pid].excluded;
      tracked := tracked - {pid};
      ok := true;
      if excluded {
        ok := marker.SetExcluded(pid, false);
        faults := faults + if ok then 0 else 1;
      }
      pidFault := pidFault || !ok;
    }

    method Track(pid: u32, process: TrackedProcess) returns (ok: bool)
      requires KernelValid() && marker != null
      modifies this`tracked, this`pidFault, this`faults, marker`kernel, marker`faults
      ensures faults >= old(faults) && (ok <==> faults == old(faults))
      ensures KernelValid() && pidFault == (old(pidFault) || !ok)
      ensures tracked == if ok then old(tracked)[pid := process] else old(tracked)
    {
      hide PolicySpelled, ToLe, Keys, ModesAgree, Limits, KeysOf, Moded;
      PidKeysStep(tracked, pid, process);
      ok := marker.SetExcluded(pid, process.excluded);
      if ok {
        tracked := tracked[pid := process];
      } else {
        faults := faults + 1;
      }
      pidFault := pidFault || !ok;
    }

    /** Replaces the state file; an error after the renaming leaves the new file in place. */
    method Save() returns (ok: bool)
      requires StoreValid()
      modifies this`disk, this`saveFault, this`faults
      ensures StoreValid()
      ensures faults >= old(faults) && (ok <==> faults == old(faults))
      ensures disk == old(disk) || (system && disk == Saved(Memory()))
      ensures disk == Saved(Memory()) ==> Recorded(bypass) <= InFile(disk)
      ensures ok && system ==> disk == Saved(Memory()) && !saveFault
      ensures old(RoutesValid()) ==> RoutesValid()
      ensures !system ==> ok && disk == old(disk) && saveFault == old(saveFault)
      ensures !ok && !saveFault ==> disk == old(disk) && !old(saveFault)
      ensures saveFault && !old(saveFault) ==> !ok && disk == Saved(Memory())
    {
      hide StateValid, Recorded, Ours;
      ok := true;
      if system {
        ok := *;
        faults := faults + if ok then 0 else 1;
        var renamed: bool := *;
        if ok || renamed {
          disk, saveFault := Saved(Memory()), !ok;
        }
      }
    }

    // ----- the bypass in the kernel -----

    /** Takes the bypass of a user out of the kernel and out of the state. */
    method DropBypass(uid: u16) returns (ok: bool)
      requires StoreValid() && RoutesValid()
      modifies this`bypass, this`dropFault, this`faults, routing
      ensures StoreValid() && RoutesValid() && OthersKept(old(routing.Held()), uid, routing.Held())
      ensures faults >= old(faults) && (ok <==> faults == old(faults))
      ensures ok ==> && routing.routes == old(routing.routes) - RoutesOf(old(bypass), uid)
                     && routing.rules == old(routing.rules) - RulesOf(old(bypass), uid)
      ensures bypass == if ok then old(bypass) - {uid} else old(bypass)
      ensures old(routing.Held()) - OwnedBy(old(bypass), uid) <= routing.Held() <= old(routing.Held())
      ensures ok ==> routing.Held() == old(routing.Held()) - OwnedBy(old(bypass), uid)
      ensures dropFault ==> old(dropFault) || !ok
    {
      hide OwnedRoutes, OwnedRules, StateValid, DiskValid, Owned, Recorded, Ours, InFile, OthersKept;
      ok := true;
      var held := routing.Held();
      OnlyOf(held, uid, [], held);
      if uid in bypass {
        ghost var done;
        ok, done := routing.Disable(uid, bypass[uid]);
        faults := faults + if ok then 0 else 1;
        OnlyOf(held, uid, bypass[uid], routing.Held());
        OursAlgebra(held, Owned(uid, bypass[uid]));
        OursAlgebra(routing.Held(), held);
        OwnedIsOurs(uid, bypass[uid]);
        dropFault := dropFault || !ok;
        if ok {
          OtherBypass(Memory(), uid, None);
          WithoutUser(bypass, uid);
          bypass := bypass - {uid};
          dropFault := dropFault && !(Recorded(bypass) <= routing.Held());
        }
      }
      assert uid !in bypass ==> bypass - {uid} == bypass;
    }

    /** Drops the bypass of a user whose policy is about to stop allowing one, and remembers it. */
    method TakeBypass(uid: u16, needed: bool) returns (ok: bool, taken: Option<seq<PhysicalRoute>>)
      requires StoreValid() && RoutesValid()
      modifies this`bypass, this`dropFault, this`faults, routing
      ensures StoreValid() && RoutesValid() && BypassKept(old(bypass), uid, bypass)
      ensures OthersKept(old(routing.Held()), uid, routing.Held())
      ensures faults >= old(faults) && (ok <==> faults == old(faults))
      ensures ok ==> && routing.routes == old(routing.routes) - (if needed then RoutesOf(old(bypass), uid) else {})
                     && routing.rules == old(routing.rules) - (if needed then RulesOf(old(bypass), uid) else {})
      ensures bypass == if ok && taken.Some? then old(bypass) - {uid} else old(bypass)
      ensures ok ==> (taken.Some? <==> needed && uid in old(bypass))
      ensures taken.Some? ==> uid in old(bypass) && taken.value == old(bypass)[uid]
      ensures ok ==> bypass == if needed then old(bypass) - {uid} else old(bypass)
      ensures !needed ==> ok && bypass == old(bypass) && taken.None?
      ensures ok ==> routing.Held() == old(routing.Held()) - if needed then OwnedBy(old(bypass), uid) else {}
      ensures taken.Some? ==> system && BypassValid(taken.value) && uid in configs && configs[uid].HasRules()
      ensures taken.Some? && !saveFault ==> Owned(uid, taken.value) <= InFile(disk)
      ensures uid in bypass ==> uid in configs && configs[uid].HasRules()
    {
      hide PutBack, OwnedRoutes, OwnedRules, StateValid, DiskValid, Owned, Recorded, Ours, InFile, OthersKept;
      ok, taken := true, None;
      BypassHolder(Memory(), uid);
      OwnedIsRecorded(bypass, uid);
      OnlyOf(routing.Held(), uid, [], routing.Held());
      if needed {
        taken := if uid in bypass then Some(bypass[uid]) else None;
        ok := DropBypass(uid);
      }
    }

    /** Puts routes that were taken out back into the kernel and on record; what is in the file covers them. */
    method Reinstall(uid: u16, routes: seq<PhysicalRoute>) returns (ok: bool)
      requires StoreValid() && RoutesValid() && system && BypassValid(routes) && uid !in bypass
      requires uid in configs && configs[uid].HasRules()
      requires !saveFault ==> Owned(uid, routes) <= InFile(disk)
      modifies this`bypass, this`undoFault, this`faults, routing
      ensures StoreValid() && RoutesValid() && OthersKept(old(routing.Held()), uid, routing.Held())
      ensures faults >= old(faults)
      ensures ok <==> faults == old(faults) && TablesFree(old(routing.routes), old(routing.rules), uid, routes)
      ensures bypass == if ok then old(bypass)[uid := PreferredRoutes(routes)] else old(bypass)
      ensures undoFault && !old(undoFault) ==> !ok
      ensures !old(undoFault) ==> (undoFault <==> !(Ours(routing.Held()) <= Recorded(bypass)))
    {
      hide StateValid, DiskValid, Owned, OwnedRoutes, OwnedRules, Recorded, Ours, InFile, OthersKept, First,
           RemovalOrder, Families, Free, PreferredRoutes;
      PreferredIsValid(routes);
      PreferredIsLeast(routes, Ipv4);
      OwnedMonotone(uid, PreferredRoutes(routes), routes);
      ghost var held, failed := routing.Held(), routing.faults;
      var installed, restored;
      ghost var added, reached;
      installed, restored, added, reached := routing.Install(uid, routes);
      faults := faults + (routing.faults - failed);
      ok := installed.Some?;
      OnlyOf(held, uid, PreferredRoutes(routes), routing.Held());
      OursAlgebra(held, Owned(uid, PreferredRoutes(routes)));
      OwnedIsOurs(uid, PreferredRoutes(routes));
      if ok {
        OtherBypass(Memory(), uid, installed);
        WithUser(bypass, uid, installed.value);
        bypass := bypass[uid := installed.value];
      } else {
        undoFault := undoFault || routing.Held() != held;
        LeftUnrecorded(held, bypass, uid, PreferredRoutes(routes), routing.Held());
      }
    }

    /** Tries to put routes back after a failure. */
    method Restore(uid: u16, routes: Option<seq<PhysicalRoute>>, ghost before: BypassMap)
      requires StoreValid() && RoutesValid()
      requires bypass == if routes.Some? then before - {uid} else before
      requires routes.Some? ==> uid in before && before[uid] == routes.value
      requires routes.Some? ==> system && BypassValid(routes.value) && uid in configs && configs[uid].HasRules()
      requires routes.Some? && !saveFault ==> Owned(uid, routes.value) <= InFile(disk)
      modifies this`bypass, this`undoFault, this`unrestored, this`faults, routing
      ensures StoreValid() && RoutesValid() && BypassKept(old(bypass), uid, bypass)
      ensures OthersKept(old(routing.Held()), uid, routing.Held())
      ensures faults >= old(faults)
      ensures routes.Some? && faults == old(faults) && TablesFree(old(routing.routes), old(routing.rules), uid, routes.value) ==>
                uid in bypass && bypass[uid] == PreferredRoutes(routes.value)
      ensures unrestored || PutBack(before, uid, bypass)
      ensures unrestored ==> routes.Some? || old(unrestored)
      ensures routes.None? ==> bypass == old(bypass) && routing.Held() == old(routing.Held())
      ensures undoFault && !old(undoFault) ==> uid !in bypass
      ensures !old(undoFault) ==> (undoFault <==> !(Ours(routing.Held()) <= Recorded(bypass)))
    {
      hide StateValid, DiskValid, Owned, Recorded, Ours, InFile, OthersKept, PreferredRoutes, TablesFree, PutBack,
           BypassValid;
      PutBackMeans(before, uid, if routes.Some? then PreferredRoutes(routes.value) else []);
      OnlyOf(routing.Held(), uid, [], routing.Held());
      if routes.Some? {
        var ok := Reinstall(uid, routes.value);
        unrestored := unrestored || !ok;
      }
    }

    /**
     Installs and records a bypass, and takes it back when it cannot be saved:
     `undone` commands of it, if it comes to that. The kernel then holds a
     bypass that is not on record exactly when this removal stops early.
     Anything left of an earlier bypass in a table makes the installation fail.
     */
    method InstallBypass(uid: u16, routes: seq<PhysicalRoute>) returns (ok: bool, ghost undone: Option<nat>)
      requires StoreValid() && RoutesValid() && system && uid !in bypass && forall r :: r in routes ==> ValidRoute(r)
      requires uid in configs && configs[uid].HasRules()
      modifies this`bypass, this`disk, this`saveFault, this`undoFault, this`unrestored, this`faults, routing
      ensures StoreValid() && RoutesValid() && OthersKept(old(routing.Held()), uid, routing.Held())
      ensures faults >= old(faults) && unrestored == old(unrestored)
      ensures ok <==> faults == old(faults) && TablesFree(old(routing.routes), old(routing.rules), uid, routes)
      ensures bypass == if ok then old(bypass)[uid := PreferredRoutes(routes)] else old(bypass)
      ensures ok ==> disk == Saved(Memory()) && routing.Held() == old(routing.Held()) + Owned(uid, bypass[uid])
      ensures ok ==> forall f :: f in Families(bypass[uid]) ==> Free(old(routing.routes), old(routing.rules), uid, f)
      ensures !ok && !saveFault ==> disk == old(disk) && !old(saveFault)
      ensures undone.Some? ==>
                var order := RemovalOrder(uid, PreferredRoutes(routes));
                && !ok && undone.value <= |order|
                && routing.Held()
                   == old(routing.Held()) + Owned(uid, PreferredRoutes(routes)) - First(order, undone.value)
                && (undoFault <==> old(undoFault) || undone.value < |order|)
      ensures !old(undoFault) ==> (undoFault <==> !(Ours(routing.Held()) <= Recorded(bypass)))
    {
      hide OwnedRoutes, OwnedRules, StateValid, DiskValid, BypassValid, Owned, Recorded, Ours, InFile, OthersKept,
           First, Free, Families, RemovalOrder, PreferredRoutes, ValidRoute, SplitConfig.HasRules;
      PreferredIsValid(routes);
      ghost var ours, held, before := PreferredRoutes(routes), routing.Held(), bypass;
      undone := None;
      OursAlgebra(held, Owned(uid, ours));
      OwnedIsOurs(uid, ours);
      WithUser(bypass, uid, ours);
      var installed, restored;
      ghost var added, reached;
      ghost var failed := routing.faults;
      installed, restored, added, reached := routing.Install(uid, routes);
      faults := faults + (routing.faults - failed);
      OnlyOf(held, uid, ours, routing.Held());
      ok := installed.Some?;
      if !ok {
        undoFault := undoFault || routing.Held() != held;
        LeftUnrecorded(held, bypass, uid, ours, routing.Held());
        return;
      }
      OtherBypass(Memory(), uid, installed);
      bypass := bypass[uid := installed.value];
      ok := Save();
      if !ok {
        assert bypass - {uid} == before;
        ghost var done := UndoBypass(uid, held);
        undone := Some(done);
      }
    }

    /** Takes a bypass that could not be saved off the record and out of the kernel. */
    method UndoBypass(uid: u16, ghost held: set<Command>) returns (ghost undone: nat)
      requires StoreValid() && uid in bypass && DistinctFamilies(bypass[uid])
      requires routing.Held() == held + Owned(uid, bypass[uid])
      requires !undoFault ==> Ours(held) <= Recorded(bypass - {uid})
      requires !dropFault ==> Recorded(bypass - {uid}) <= held
      requires !saveFault ==> Recorded(bypass - {uid}) <= InFile(disk)
      modifies this`bypass, this`undoFault, this`unrestored, this`faults, routing
      ensures StoreValid() && RoutesValid() && OthersKept(held, uid, routing.Held())
      ensures bypass == old(bypass) - {uid} && faults >= old(faults) && unrestored == old(unrestored)
      ensures undone <= |RemovalOrder(uid, old(bypass)[uid])|
      ensures routing.Held()
           == held + Owned(uid, old(bypass)[uid]) - First(RemovalOrder(uid, old(bypass)[uid]), undone)
      ensures undoFault <==> old(undoFault) || undone < |RemovalOrder(uid, old(bypass)[uid])|
      ensures !old(undoFault) ==> (undoFault <==> !(Ours(routing.Held()) <= Recorded(bypass)))
    {
      hide StateValid, DiskValid, Owned, Recorded, Ours, InFile, OthersKept, First, RemovalOrder, DistinctFamilies;
      ghost var ours := bypass[uid];
      var installed := bypass[uid];
      OtherBypass(Memory(), uid, None);
      bypass := bypass - {uid};
      var removed;
      removed, undone := routing.Disable(uid, installed);
      faults := faults + if removed then 0 else 1;
      undoFault := undoFault || !removed;
      Undone(held, bypass, uid, ours, undone);
      OnlyOf(held, uid, ours, routing.Held());
    }

    /** Puts a bypass in the place of the old one, which is put back when that fails. */
    method ReplaceBypass(uid: u16, routes: seq<PhysicalRoute>) returns (ok: bool)
      requires StoreValid() && RoutesValid() && system && forall r :: r in routes ==> ValidRoute(r)
      requires uid in configs && configs[uid].HasRules()
      modifies this`bypass, this`disk, this`saveFault, this`dropFault, this`undoFault, this`unrestored, this`faults,
               routing
      ensures StoreValid() && RoutesValid() && BypassKept(old(bypass), uid, bypass)
      ensures OthersKept(old(routing.Held()), uid, routing.Held())
      ensures faults >= old(faults)
      ensures ok <==> && faults == old(faults)
                      && TablesFree(old(routing.routes) - RoutesOf(old(bypass), uid),
                                    old(routing.rules) - RulesOf(old(bypass), uid), uid, routes)
      ensures !ok ==> unrestored || PutBack(old(bypass), uid, bypass)
      ensures ok ==> disk == Saved(Memory()) && uid in bypass && bypass[uid] == PreferredRoutes(routes)
      ensures ok ==>
                routing.Held() == old(routing.Held()) - OwnedBy(old(bypass), uid) + Owned(uid, PreferredRoutes(routes))
      ensures ok ==> NothingLeft(old(routing.Held()), uid, PreferredRoutes(routes), OwnedBy(old(bypass), uid))
    {
      hide PutBack, StateValid, DiskValid, BypassValid, Owned, Recorded, Ours, InFile, First, Free, Families,
           RemovalOrder, BelongsTo, OwnedBy;
      PutBackMeans(bypass, uid, []);
      var taken;
      ok, taken := TakeBypass(uid, true);
      if ok {
        ghost var free, rules, held := routing.routes, routing.rules, routing.Held();
        ghost var undone;
        ok, undone := InstallBypass(uid, routes);
        if ok {
          forall c | c in held && BelongsTo(c, uid) && CommandFamily(c) in Families(PreferredRoutes(routes))
            ensures false
          {
            LeftoverBlocks(free, rules, uid, c);
          }
        } else {
          Restore(uid, taken, old(bypass));
        }
      }
    }

    /** Takes a bypass out, and puts it back when the change cannot be saved. */
    method RemoveBypass(uid: u16) returns (ok: bool)
      requires StoreValid() && RoutesValid() && system
      modifies this`bypass, this`disk, this`saveFault, this`dropFault, this`undoFault, this`unrestored, this`faults,
               routing
      ensures StoreValid() && RoutesValid() && BypassKept(old(bypass), uid, bypass)
      ensures OthersKept(old(routing.Held()), uid, routing.Held())
      ensures faults >= old(faults) && (ok <==> faults == old(faults))
      ensures !ok ==> unrestored || PutBack(old(bypass), uid, bypass)
      ensures ok ==> uid !in bypass && (disk == old(disk) || disk == Saved(Memory()))
      ensures ok ==> routing.Held() == old(routing.Held()) - OwnedBy(old(bypass), uid)
    {
      hide PutBack, StateValid, DiskValid, BypassValid, Owned, Recorded, Ours, InFile, OthersKept;
      PutBackMeans(bypass, uid, []);
      ok := true;
      OnlyOf(routing.Held(), uid, [], routing.Held());
      if uid in bypass {
        var taken;
        ok, taken := TakeBypass(uid, true);
        if ok {
          ghost var held := routing.Held();
          ok := Save();
          if !ok {
            Restore(uid, taken, old(bypass));
            KeptTogether(old(routing.Held()), held, routing.Held(), uid);
          }
        }
      }
    }

    /** Turns the bypass of a user on, with one route per family, or off. */
    method SetKillSwitchBypass(uid: u16, enabled: bool, routes: seq<PhysicalRoute>) returns (ok: bool)
      requires Valid() && forall r :: r in routes ==> ValidRoute(r)
      modifies this`bypass, this`disk, this`saveFault, this`dropFault, this`undoFault, this`unrestored, this`faults,
               routing
      ensures Valid() && BypassKept(old(bypass), uid, bypass)
      ensures OthersKept(old(routing.Held()), uid, routing.Held())
      ensures faults >= old(faults)
      ensures ok <==>
                && faults == old(faults) && system
                && (enabled ==>
                      && uid in configs && configs[uid].HasRules()
                      && (|| (uid in old(bypass) && old(bypass)[uid] == routes)
                          || TablesFree(old(routing.routes) - RoutesOf(old(bypass), uid),
                                        old(routing.rules) - RulesOf(old(bypass), uid), uid, routes)))
      ensures !ok ==> unrestored || PutBack(old(bypass), uid, bypass)
      ensures ok ==> disk == old(disk) || disk == Saved(Memory())
      ensures ok && enabled ==> uid in bypass && (bypass[uid] == routes || bypass[uid] == PreferredRoutes(routes))
      ensures ok && !enabled ==> uid !in bypass
      ensures ok && !(enabled && bypass == old(bypass)) ==>
                routing.Held() == old(routing.Held()) - OwnedBy(old(bypass), uid) + OwnedBy(bypass, uid)
      ensures ok && enabled && bypass != old(bypass) ==>
                NothingLeft(old(routing.Held()), uid, PreferredRoutes(routes), OwnedBy(old(bypass), uid))
      ensures enabled && !(uid in configs && configs[uid].HasRules()) ==>
                !ok && bypass == old(bypass) && routing.Held() == old(routing.Held())
    {
      hide PutBack, Engine.KernelValid, StateValid, DiskValid, Consistent, BypassValid, Owned, Recorded, Ours, InFile,
           OthersKept, Families, BelongsTo;
      PutBackMeans(bypass, uid, []);
      OnlyOf(routing.Held(), uid, [], routing.Held());
      if !system || (enabled && !(uid in configs && configs[uid].HasRules())) {
        return false;
      }
      BypassHolder(Memory(), uid);
      if enabled {
        if uid in bypass && bypass[uid] == routes {
          return true;
        }
        ok := ReplaceBypass(uid, routes);
      } else {
        ok := RemoveBypass(uid);
      }
    }

    /** The tracking and the kernel follow the current policies. */
    ghost predicate Settled(scan: Option<seq<ProcessInfo>>)
      requires scan.Some? ==> DistinctPids(Scan(scan.value))
      reads this`configs, this`policies, this`tracked, this`marker, this`drift, marker
    {
      && tracked == NextTracking(configs, scan) && !drift
      && (marker != null <==> AnyPolicy(configs, policies))
      && (marker != null ==> marker.configs == configs && marker.policies == policies)
    }

    /** And so does the file. */
    ghost predicate Following(scan: Option<seq<ProcessInfo>>)
      requires scan.Some? ==> DistinctPids(Scan(scan.value))
      reads this, marker
    {
      Settled(scan) && (system ==> disk == Saved(Memory()))
    }

    /** Reconciles and saves; an error tells which of the two failed. */
    method Commit(scan: Option<seq<ProcessInfo>>) returns (ok: bool)
      requires KernelValid() && StoreValid() && (scan.Some? ==> DistinctPids(Scan(scan.value)))
      modifies this`tracked, this`marker, this`pidFault, this`mapFault, this`modeFault, this`drift, this`disk,
               this`saveFault, this`unsettled, this`faults, marker
      ensures KernelValid() && StoreValid() && (marker == old(marker) || marker == null || fresh(marker))
      ensures faults >= old(faults) && (!unsettled ==> Settled(scan))
      ensures faults == old(faults) && (AnyTracking(configs) ==> scan.Some?) ==> ok
      ensures old(RoutesValid()) ==> RoutesValid()
      ensures disk == old(disk) || disk == Saved(Memory())
      ensures !ok && !saveFault ==> disk == old(disk) && !old(saveFault)
      ensures ok ==> Following(scan) && Consistent(configs, tracked)
      ensures !ok && !drift ==> (tracked == old(tracked) && !old(drift)) || Consistent(configs, tracked)
    {
      hide OwnedRoutes, OwnedRules, AnyTracking, Engine.KernelValid, Engine.RoutesValid, StateValid, DiskValid,
           Consistent, NextTracking, Limits, KeysOf, TriesFit, ModesFit, PolicySpelled;
      StateLimits(Memory());
      ok := Reconcile(scan);
      if ok {
        ok := Save();
      }
    }

    /** After taking a policy back: notes whether the tracking still fits, then reconciles again. */
    method Recover(rescan: Option<seq<ProcessInfo>>)
      requires KernelValid() && StoreValid() && RoutesValid()
      requires rescan.Some? ==> DistinctPids(Scan(rescan.value))
      modifies this`tracked, this`marker, this`pidFault, this`mapFault, this`modeFault, this`drift, this`unsettled,
               this`faults, marker
      ensures Valid() && (marker == old(marker) || marker == null || fresh(marker))
      ensures faults >= old(faults) && (!unsettled ==> Settled(rescan))
      ensures drift ==> old(drift) || !old(Consistent(configs, tracked))
    {
      hide Engine.KernelValid, Engine.RoutesValid, StateValid, DiskValid, Consistent, NextTracking, Limits, KeysOf,
           TriesFit, ModesFit, PolicySpelled;
      StateLimits(Memory());
      drift := drift || !Consistent(configs, tracked);
      var _ := Reconcile(rescan);
    }

    /** Puts a policy in place, or takes it back when it cannot be committed. */
    method SwapConfig(uid: u16, config: SplitConfig, scan: Option<seq<ProcessInfo>>, rescan: Option<seq<ProcessInfo>>)
      returns (ok: bool)
      requires Valid() && Validated(config) && !Full(configs, policies, uid)
      requires uid in bypass ==> config.HasRules()
      requires scan.Some? ==> DistinctPids(Scan(scan.value))
      requires rescan.Some? ==> DistinctPids(Scan(rescan.value))
      modifies this`configs, this`tracked, this`marker, this`pidFault, this`mapFault, this`modeFault, this`drift,
               this`disk, this`saveFault, this`unsettled, this`faults, marker
      ensures Valid() && (marker == old(marker) || marker == null || fresh(marker))
      ensures faults >= old(faults) && (!ok && !unsettled ==> Settled(rescan))
      ensures faults == old(faults) && (AnyTracking(old(configs)[uid := config]) ==> scan.Some?) ==> ok
      ensures !ok ==> disk in {old(disk), Saved(State(old(configs)[uid := config], policies, bypass))}
      ensures !ok && !saveFault ==> disk == old(disk) && !old(saveFault)
      ensures configs == if ok then old(configs)[uid := config] else old(configs)
      ensures ok ==> Following(scan)
    {
      hide Engine.RoutesValid, OwnedRoutes, OwnedRules, AnyTracking, Engine.KernelValid, Engine.Following,
           Engine.Settled, StateValid, DiskValid, NextTracking, Full, Validated, Recorded, Ours, InFile;
      var had, previous := uid in configs, if uid in configs then configs[uid] else config;
      OneMoreConfig(Memory(), uid, config);
      configs := configs[uid := config];
      ok := Commit(scan);
      if !ok {
        configs := if had then configs[uid := previous] else configs - {uid};
        assert configs == old(configs);
        Recover(rescan);
      }
    }

    /** Sets the policy of a user, or leaves every policy as it was. */
    method SetConfig(uid: u16, config: SplitConfig, scan: Option<seq<ProcessInfo>>, rescan: Option<seq<ProcessInfo>>)
      returns (ok: bool)
      requires Valid() && Validated(config)
      requires scan.Some? ==> DistinctPids(Scan(scan.value))
      requires rescan.Some? ==> DistinctPids(Scan(rescan.value))
      modifies Repr()
      ensures Valid() && (marker == old(marker) || marker == null || fresh(marker))
      ensures policies == old(policies) && faults >= old(faults)
      ensures faults == old(faults) && (AnyTracking(old(configs)[uid := config]) ==> scan.Some?) ==>
                (ok <==> !Full(old(configs), policies, uid))
      ensures Full(old(configs), policies, uid) ==> !ok
      ensures configs == if ok then old(configs)[uid := config] else old(configs)
      ensures ok ==> Following(scan)
      ensures !ok ==> || unsettled || Settled(rescan)
                      || (marker == old(marker) && tracked == old(tracked)
                          && (marker != null ==> marker.kernel == old(marker.kernel)))
      ensures BypassKept(old(bypass), uid, bypass) && OthersKept(old(routing.Held()), uid, routing.Held())
      ensures !ok ==> unrestored || PutBack(old(bypass), uid, bypass)
      ensures ok ==> bypass == AfterPolicy(old(bypass), uid, system && !config.HasRules())
      ensures ok ==>
                routing.Held()
                == old(routing.Held()) - if system && !config.HasRules() then OwnedBy(old(bypass), uid) else {}
      ensures !ok ==> || disk == old(disk)
                      || disk == Saved(State(old(configs)[uid := config], policies,
                                             AfterPolicy(old(bypass), uid, system && !config.HasRules())))
    {
      hide PutBack, OwnedRoutes, OwnedRules, AnyTracking, Engine.KernelValid, Engine.Following, Engine.Settled,
           StateValid, DiskValid, NextTracking, Full, Validated, BypassValid, Consistent, Scan, DistinctPids, Owned,
           Recorded, Ours, InFile, OthersKept, OwnedBy;
      PutBackMeans(bypass, uid, []);
      ghost var held := routing.Held();
      OnlyOf(held, uid, [], held);
      if Full(configs, policies, uid) {
        return false;
      }
      var taken;
      ok, taken := TakeBypass(uid, system && !config.HasRules());
      if ok {
        held := routing.Held();
        ok := SwapConfig(uid, config, scan, rescan);
        if !ok {
          Restore(uid, taken, old(bypass));
          KeptTogether(old(routing.Held()), held, routing.Held(), uid);
        }
      }
    }

    /** Takes a policy away, or puts it back when that cannot be committed. */
    method WithdrawConfig(uid: u16, scan: Option<seq<ProcessInfo>>, rescan: Option<seq<ProcessInfo>>) returns (ok: bool)
      requires Valid() && uid !in bypass
      requires scan.Some? ==> DistinctPids(Scan(scan.value))
      requires rescan.Some? ==> DistinctPids(Scan(rescan.value))
      modifies this`configs, this`tracked, this`marker, this`pidFault, this`mapFault, this`modeFault, this`drift,
               this`disk, this`saveFault, this`unsettled, this`faults, marker
      ensures Valid() && (marker == old(marker) || marker == null || fresh(marker))
      ensures configs == if ok then old(configs) - {uid} else old(configs)
      ensures faults >= old(faults)
      ensures !ok && !unsettled ==> Settled(if uid in old(configs) then rescan else scan)
      ensures faults == old(faults) && (AnyTracking(old(configs) - {uid}) ==> scan.Some?) ==> ok
      ensures !ok ==> disk in {old(disk), Saved(State(old(configs) - {uid}, policies, bypass))}
      ensures !ok && !saveFault ==> disk == old(disk) && !old(saveFault)
      ensures ok ==> Following(scan)
    {
      hide OwnedRoutes, OwnedRules, AnyTracking, Engine.KernelValid, Engine.RoutesValid, Engine.Following,
           Engine.Settled, StateValid, DiskValid, NextTracking;
      FewerConfigs(Memory(), uid);
      if uid in configs {
        var previous := configs[uid];
        configs := configs - {uid};
        ok := Commit(scan);
        if !ok {
          configs := configs[uid := previous];
          assert configs == old(configs);
          Recover(rescan);
        }
      } else {
        assert configs - {uid} == configs;
        ok := Commit(scan);
      }
    }

    /** Clears the policy of a user, or leaves every policy as it was. */
    method ClearConfig(uid: u16, scan: Option<seq<ProcessInfo>>, rescan: Option<seq<ProcessInfo>>) returns (ok: bool)
      requires Valid()
      requires scan.Some? ==> DistinctPids(Scan(scan.value))
      requires rescan.Some? ==> DistinctPids(Scan(rescan.value))
      modifies Repr()
      ensures Valid() && (marker == old(marker) || marker == null || fresh(marker))
      ensures policies == old(policies) && faults >= old(faults)
      ensures faults == old(faults) && (AnyTracking(old(configs) - {uid}) ==> scan.Some?) ==> ok
      ensures configs == if ok then old(configs) - {uid} else old(configs)
      ensures ok ==> Following(scan)
      ensures !ok ==> || unsettled || Settled(if uid in old(configs) then rescan else scan)
                      || (marker == old(marker) && tracked == old(tracked)
                          && (marker != null ==> marker.kernel == old(marker.kernel)))
      ensures BypassKept(old(bypass), uid, bypass) && OthersKept(old(routing.Held()), uid, routing.Held())
      ensures !ok ==> unrestored || PutBack(old(bypass), uid, bypass)
      ensures ok ==> bypass == old(bypass) - {uid}
      ensures ok ==> routing.Held() == old(routing.Held()) - OwnedBy(old(bypass), uid)
      ensures !ok ==> || disk == old(disk)
                      || disk == Saved(State(old(configs) - {uid}, policies, old(bypass) - {uid}))
    {
      hide PutBack, OwnedRoutes, OwnedRules, AnyTracking, Engine.KernelValid, Engine.RoutesValid, Engine.Following,
           Engine.Settled, StateValid, DiskValid, NextTracking, BypassValid, Consistent, Scan, DistinctPids, Owned,
           InFile, OthersKept, SplitConfig.HasRules;
      PutBackMeans(bypass, uid, []);
      var taken;
      ok, taken := TakeBypass(uid, system);
      if !ok {
        return;
      }
      assert bypass == old(bypass) - {uid};
      ghost var held := routing.Held();
      ok := WithdrawConfig(uid, scan, rescan);
      if !ok {
        Restore(uid, taken, old(bypass));
        KeptTogether(old(routing.Held()), held, routing.Held(), uid);
      }
    }

    /** Puts the bypass ranges of all users in place, or takes them back when they cannot be committed. */
    method SwapPolicies(next: PolicyMap, scan: Option<seq<ProcessInfo>>, rescan: Option<seq<ProcessInfo>>)
      returns (ok: bool)
      requires Valid() && StateValid(State(configs, next, bypass))
      requires scan.Some? ==> DistinctPids(Scan(scan.value))
      requires rescan.Some? ==> DistinctPids(Scan(rescan.value))
      modifies this`policies, this`tracked, this`marker, this`pidFault, this`mapFault, this`modeFault, this`drift,
               this`disk, this`saveFault, this`unsettled, this`faults, marker
      ensures Valid() && (marker == old(marker) || marker == null || fresh(marker))
      ensures faults >= old(faults) && (!ok && !unsettled ==> Settled(rescan))
      ensures faults == old(faults) && (AnyTracking(configs) ==> scan.Some?) ==> ok
      ensures policies == if ok then next else old(policies)
      ensures ok ==> Following(scan)
    {
      hide Engine.KernelValid, Engine.RoutesValid, Engine.Following, Engine.Settled, StateValid, DiskValid,
           NextTracking, AnyTracking, Recorded, Ours, InFile;
      var previous := policies;
      policies := next;
      ok := Commit(scan);
      if !ok {
        policies := previous;
        Recover(rescan);
      }
    }

    /** Sets the bypass ranges of a user, or leaves every policy as it was. */
    method SetDestinationPolicy(uid: u16, ranges: seq<RangeText>, scan: Option<seq<ProcessInfo>>,
                                rescan: Option<seq<ProcessInfo>>)
      returns (ok: bool)
      requires Valid() && ValidatedRanges(ranges)
      requires scan.Some? ==> DistinctPids(Scan(scan.value))
      requires rescan.Some? ==> DistinctPids(Scan(rescan.value))
      modifies Repr()
      ensures Valid() && (marker == old(marker) || marker == null || fresh(marker))
      ensures configs == old(configs) && bypass == old(bypass) && routing.Held() == old(routing.Held())
      ensures faults >= old(faults)
      ensures faults == old(faults) && (AnyTracking(configs) ==> scan.Some?) ==>
                (ok <==> !Full(configs, old(policies), uid))
      ensures Full(configs, old(policies), uid) ==> !ok
      ensures !ok ==> policies == old(policies)
      ensures ok ==> policies == if ranges == [] then old(policies) - {uid} else old(policies)[uid := ranges]
      ensures ok ==> Following(scan)
      ensures !ok ==> || unsettled || Settled(rescan)
                      || (marker == old(marker) && tracked == old(tracked)
                          && (marker != null ==> marker.kernel == old(marker.kernel)))
    {
      hide Engine.KernelValid, Engine.RoutesValid, Engine.Following, Engine.Settled, StateValid, DiskValid,
           NextTracking, AnyTracking, Consistent, Full, ValidatedRanges;
      if Full(configs, policies, uid) {
        return false;
      }
      MorePolicies(Memory(), uid, ranges);
      FewerPolicies(Memory(), uid);
      ok := SwapPolicies(if ranges == [] then policies - {uid} else policies[uid := ranges], scan, rescan);
    }

    // ----- stopping and starting -----

    /** Takes recorded bypasses out of the kernel, up to the first failure. */
    method DisableAll(recorded: BypassMap) returns (ok: bool)
      modifies this`faults, routing
      ensures old(routing.Held()) - Recorded(recorded) <= routing.Held() <= old(routing.Held())
      ensures faults >= old(faults) && (ok <==> faults == old(faults))
      ensures ok ==> routing.Held() == old(routing.Held()) - Recorded(recorded)
    {
      hide Owned, Recorded;
      var todo := recorded.Keys;
      ok := true;
      RecordedNone();
      assert recorded - todo == map[];
      while todo != {}
        invariant todo <= recorded.Keys && ok && faults == old(faults)
        invariant routing.Held() == old(routing.Held()) - Recorded(recorded - todo)
      {
        var uid :| uid in todo;
        WithUser(recorded - todo, uid, recorded[uid]);
        assert (recorded - todo)[uid := recorded[uid]] == recorded - (todo - {uid});
        RecordedPart(recorded, todo - {uid});
        ghost var done;
        ok, done := routing.Disable(uid, recorded[uid]);
        if !ok {
          faults := faults + 1;
          return;
        }
        todo := todo - {uid};
      }
      assert recorded - todo == recorded;
    }

    /** The engine is dropped: the kernel is cleared as far as that succeeds, and the file is kept. */
    method Close() returns (ghost clean: bool)
      requires Valid()
      modifies this`faults, routing
      ensures old(routing.Held()) - Recorded(bypass) <= routing.Held() <= old(routing.Held())
      ensures faults >= old(faults) && (clean <==> faults == old(faults))
      ensures clean ==> routing.Held() == old(routing.Held()) - Recorded(bypass)
      ensures clean && !undoFault ==> Ours(routing.Held()) == {}
    {
      hide Owned, Recorded, Engine.KernelValid, StateValid, DiskValid, Consistent, Ours, InFile;
      var todo := bypass.Keys;
      clean := true;
      RecordedNone();
      assert bypass - todo == map[];
      while todo != {}
        invariant todo <= bypass.Keys && faults >= old(faults) && (clean <==> faults == old(faults))
        invariant old(routing.Held()) - Recorded(bypass - todo) <= routing.Held() <= old(routing.Held())
        invariant clean ==> routing.Held() == old(routing.Held()) - Recorded(bypass - todo)
      {
        var uid :| uid in todo;
        WithUser(bypass - todo, uid, bypass[uid]);
        assert (bypass - todo)[uid := bypass[uid]] == bypass - (todo - {uid});
        var ok;
        ghost var done;
        ok, done := routing.Disable(uid, bypass[uid]);
        faults := faults + if ok then 0 else 1;
        clean := clean && ok;
        todo := todo - {uid};
      }
      assert bypass - todo == bypass;
      OursAlgebra(old(routing.Held()), Recorded(bypass));
      RecordedIsOurs(bypass);
    }

    /** Reads the state file, and takes the recorded bypasses out of the kernel and of the file. */
    method LoadState() returns (ok: bool)
      requires DiskValid(disk) && (!system ==> disk == None)
      modifies this`configs, this`policies, this`bypass, this`disk, this`saveFault, this`dropFault, this`undoFault,
               this`unrestored, this`faults, routing
      ensures StoreValid() && RoutesValid() && (undoFault <==> Ours(routing.Held()) != {})
      ensures Load(old(disk)).Ok? && Memory() == Load(old(disk)).value.(bypass := map[])
      ensures faults >= old(faults) && (ok <==> faults == old(faults))
      ensures ok ==> Load(disk) == Ok(Memory())
      ensures old(routing.Held()) - InFile(old(disk)) <= routing.Held() <= old(routing.Held())
      ensures ok ==> routing.Held() == old(routing.Held()) - InFile(old(disk))
      ensures routing.Held() * InFile(old(disk)) <= InFile(disk)
    {
      hide OwnedRoutes, OwnedRules, StateValid, Load, Recorded, Ours;
      DiskReloads(disk);
      RecordedNone();
      var loaded := if disk.Some? then disk.value.state else State(map[], map[], map[]);
      WithoutBypass(loaded);
      configs, policies, bypass := loaded.configs, loaded.policies, map[];
      dropFault, saveFault := false, false;
      ok := true;
      if system {
        ok := DisableAll(loaded.bypass);
        if ok && loaded.bypass != map[] {
          ok := Save();
        }
      }
      undoFault := Ours(routing.Held()) != {};
      DiskReloads(disk);
    }

    /** Nothing is tracked, and the maps went with the programs. */
    method ForgetTracking()
      modifies this`tracked, this`marker, this`pidFault, this`mapFault, this`modeFault, this`drift
      ensures KernelValid() && tracked == map[] && marker == null && !drift
    {
      tracked, marker := map[], null;
      pidFault, mapFault, modeFault, drift := false, false, false, false;
    }

    /**
     A restart, at any point of any run: the memory is lost, and the state file
     is loaded. The kernel keeps a bypass exactly when it held one that the
     file does not record; that needs a crash before the record is saved, a
     save that failed after the renaming, or an undo that stopped early. A
     restart that fails forgets nothing: what it leaves is still in the file.
     */
    method Restart(scan: Option<seq<ProcessInfo>>) returns (ok: bool)
      requires DiskValid(disk) && (!system ==> disk == None)
      requires scan.Some? ==> DistinctPids(Scan(scan.value))
      modifies this, routing
      ensures Valid() && (marker == null || fresh(marker))
      ensures faults >= old(faults) && Load(old(disk)).Ok?
      ensures faults == old(faults) && (AnyTracking(Load(old(disk)).value.configs) ==> scan.Some?) ==> ok
      ensures ok ==> Load(old(disk)).Ok? && Load(disk) == Ok(Memory())
      ensures ok ==> Memory() == Load(old(disk)).value.(bypass := map[]) && tracked == NextTracking(configs, scan)
      ensures ok ==> routing.Held() == old(routing.Held()) - InFile(old(disk))
      ensures ok ==> (Ours(routing.Held()) == {} <==> Ours(old(routing.Held())) <= InFile(old(disk)))
      ensures ok && old(Valid()) && !old(undoFault) && !old(saveFault) ==> Ours(routing.Held()) == {}
      ensures old(routing.Held()) - InFile(old(disk)) <= routing.Held() <= old(routing.Held())
      ensures routing.Held() * InFile(old(disk)) <= InFile(disk)
    {
      hide Engine.RoutesValid, Owned, BelongsTo, Tracked, SplitConfig.HasRules, OwnedRoutes, OwnedRules,
           Engine.KernelValid, StateValid, DiskValid, NextTracking, Load, Recorded, Ours, InFile, Limits, KeysOf,
           TriesFit, ModesFit, AnyTracking, AnyPolicy, PolicySpelled;
      KernelIsInFile(this);
      ForgetTracking();
      RestartLeaves(routing.Held(), disk);
      ok := LoadState();
      StateLimits(Memory());
      if ok {
        ok := Reconcile(scan);
      }
    }
  }
}

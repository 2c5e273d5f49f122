/**
The socket marker: the kernel maps it writes, the policy it last installed, and
the transaction that replaces one policy by another. Every kernel operation may
fail; a failed operation changes nothing.
*/
module Marker {
  import opened Bytes
  import opened Sets
  import opened SplitModel
  import opened LpmIndex

  /** What a run of deletions or installations of the entries `keys` may leave. */
  ghost predicate Changed(before: set<Entry>, keys: set<Entry>, install: bool, after: set<Entry>, ok: bool) {
    if install then before <= after <= before + keys && (ok ==> after == before + keys)
    else before - keys <= after <= before && (ok ==> after == before - keys)
  }

  /** Where a replacement may stop: `cleared` goes first, and only then `installed` comes. */
  ghost predicate Stopped<T>(before: set<T>, cleared: set<T>, installed: set<T>, after: set<T>, ok: bool) {
    && before - cleared <= after
    && (after <= before || after <= before - cleared + installed)
    && (ok ==> after == before - cleared + installed)
  }

  lemma OneMoreRange(bypass: bool, uid: nat, ranges: seq<RangeText>, i: nat)
    requires i < |ranges|
    ensures ListKeys(bypass, uid, ranges[..i + 1])
         == ListKeys(bypass, uid, ranges[..i])
          + if ranges[i].Spelled? then {EntryOf(bypass, uid, ranges[i].net)} else {}
  {
    hide EntryOf;
  }

  lemma FewerRanges(bypass: bool, uid: nat, ranges: seq<RangeText>, i: nat)
    requires i <= |ranges|
    ensures ListKeys(bypass, uid, ranges[..i]) <= ListKeys(bypass, uid, ranges)
  {
  }

  /** The entries of the lists of some of the users. */
  ghost function KeysOn(bypass: bool, lists: PolicyMap, uids: set<u16>): set<Entry> {
    set uid, e | uid in uids && uid in lists && e in ListKeys(bypass, uid, lists[uid]) :: e
  }

  lemma OneMoreUser(bypass: bool, lists: PolicyMap, uids: set<u16>, uid: u16)
    requires uid in lists
    ensures KeysOn(bypass, lists, uids + {uid})
         == KeysOn(bypass, lists, uids) + ListKeys(bypass, uid, lists[uid])
    ensures KeysOn(bypass, lists, uids) + ListKeys(bypass, uid, lists[uid]) <= ListsKeys(bypass, lists)
  {
    hide ListKeys;
  }

  lemma AllUsers(bypass: bool, lists: PolicyMap)
    ensures KeysOn(bypass, lists, lists.Keys) == ListsKeys(bypass, lists)
    ensures KeysOn(bypass, lists, {}) == {}
  {
    hide ListKeys;
  }

  // ----- where a replacement stops, exactly -----

  /**
   The operation that failed: in the deletion of split lists (0) or of bypass
   lists (1), or in their installation (2, 3), after the users `visited`, at
   range `n` of `uid`.
   */
  datatype Halt = Halt(phase: nat, visited: set<u16>, uid: u16, n: nat)

  /** An operation is left to fail: a range of the user, or the mode that is installed before them. */
  ghost predicate HaltsIn(lists: PolicyMap, h: Halt, mode: bool) {
    && h.visited <= lists.Keys && h.uid in lists && h.uid !in h.visited
    && h.n <= |lists[h.uid]| && (h.n < |lists[h.uid]| || (mode && h.n == 0))
  }

  /** What was deleted, or installed, before the failure. */
  ghost function Part(bypass: bool, lists: PolicyMap, h: Halt): set<Entry>
    requires h.uid in lists && h.n <= |lists[h.uid]|
  {
    KeysOn(bypass, lists, h.visited) + ListKeys(bypass, h.uid, lists[h.uid][..h.n])
  }

  ghost predicate Halts(oldConfigs: ConfigMap, oldPolicies: PolicyMap, newConfigs: ConfigMap, newPolicies: PolicyMap,
                        h: Halt)
  {
    if h.phase == 0 then HaltsIn(RangeLists(oldConfigs), h, false)
    else if h.phase == 1 then HaltsIn(oldPolicies, h, false)
    else if h.phase == 2 then HaltsIn(RangeLists(newConfigs), h, true) && newConfigs[h.uid].HasRules()
    else h.phase == 3 && HaltsIn(newPolicies, h, false)
  }

  /** The entries of a replacement that failed at `h`. */
  ghost function HaltedTries(before: set<Entry>, oldConfigs: ConfigMap, oldPolicies: PolicyMap, newConfigs: ConfigMap,
                             newPolicies: PolicyMap, h: Halt): set<Entry>
    requires Halts(oldConfigs, oldPolicies, newConfigs, newPolicies, h)
  {
    if h.phase == 0 then before - Part(false, RangeLists(oldConfigs), h)
    else if h.phase == 1 then before - ListsKeys(false, RangeLists(oldConfigs)) - Part(true, oldPolicies, h)
    else if h.phase == 2 then before - Keys(oldConfigs, oldPolicies) + Part(false, RangeLists(newConfigs), h)
    else before - Keys(oldConfigs, oldPolicies) + ListsKeys(false, RangeLists(newConfigs)) + Part(true, newPolicies, h)
  }

  /** The deletion of a policy failed at `h`. */
  ghost predicate DeletionHalted(before: set<Entry>, configs: ConfigMap, policies: PolicyMap, h: Halt, after: set<Entry>) {
    if h.phase == 0 then
      HaltsIn(RangeLists(configs), h, false) && after == before - Part(false, RangeLists(configs), h)
    else
      && h.phase == 1 && HaltsIn(policies, h, false)
      && after == before - ListsKeys(false, RangeLists(configs)) - Part(true, policies, h)
  }

  /** The installation of a policy failed at `h`. */
  ghost predicate InstallationHalted(before: set<Entry>, configs: ConfigMap, policies: PolicyMap, h: Halt,
                                     after: set<Entry>)
  {
    if h.phase == 2 then
      && HaltsIn(RangeLists(configs), h, true) && configs[h.uid].HasRules()
      && after == before + Part(false, RangeLists(configs), h)
    else
      && h.phase == 3 && HaltsIn(policies, h, false)
      && after == before + ListsKeys(false, RangeLists(configs)) + Part(true, policies, h)
  }

  lemma HaltedAt(before: set<Entry>, oldConfigs: ConfigMap, oldPolicies: PolicyMap, newConfigs: ConfigMap,
                 newPolicies: PolicyMap, h: Halt, after: set<Entry>)
    requires || DeletionHalted(before, oldConfigs, oldPolicies, h, after)
             || InstallationHalted(before - Keys(oldConfigs, oldPolicies), newConfigs, newPolicies, h, after)
    ensures Halts(oldConfigs, oldPolicies, newConfigs, newPolicies, h)
    ensures after == HaltedTries(before, oldConfigs, oldPolicies, newConfigs, newPolicies, h)
  {
    hide ListsKeys, Part, Keys;
  }

  /** The entries after an installation that failed at `h` and a rollback that failed at `u`. */
  ghost function TwiceHalted(before: set<Entry>, oldConfigs: ConfigMap, oldPolicies: PolicyMap, newConfigs: ConfigMap,
                             newPolicies: PolicyMap, h: Halt, u: Halt): set<Entry>
    requires Halts(oldConfigs, oldPolicies, newConfigs, newPolicies, h)
    requires Halts(newConfigs, newPolicies, oldConfigs, oldPolicies, u)
  {
    HaltedTries(HaltedTries(before, oldConfigs, oldPolicies, newConfigs, newPolicies, h),
                newConfigs, newPolicies, oldConfigs, oldPolicies, u)
  }

  // ----- the keys of the hash maps -----

  /** The keys of ids in the pid map, and of users in the mode map. */
  ghost function KeysOf(ids: set<u32>): set<seq<byte>> {
    set id | id in ids :: ToLe(id, 4)
  }

  /** Different ids have different keys. */
  lemma KeysOfDifference(a: set<u32>, b: set<u32>)
    ensures KeysOf(a - b) == KeysOf(a) - KeysOf(b)
    ensures KeysOf(a + b) == KeysOf(a) + KeysOf(b)
  {
    hide ToLe;
    forall p: u32, q: u32 | ToLe(p, 4) == ToLe(q, 4)
      ensures p == q
    {
      LeInjective(p, q);
    }
  }

  lemma KeysOfPart(a: set<u32>, b: set<u32>)
    requires a <= b
    ensures KeysOf(a) <= KeysOf(b)
  {
    hide ToLe;
  }

  lemma {:induction false} KeysOfSize(ids: set<u32>)
    ensures |KeysOf(ids)| == |ids|
  {
    hide ToLe;
    if ids != {} {
      var id :| id in ids;
      KeysOfSize(ids - {id});
      KeysOfDifference(ids, {id});
      assert KeysOf({id}) == {ToLe(id, 4)};
      assert ToLe(id, 4) in KeysOf(ids);
    }
  }

  /** The users that get a mode. */
  ghost function Moded(configs: ConfigMap): set<u32> {
    set uid | uid in configs && configs[uid].HasRules()
  }

  /** Every user of a set, rule-less ones included. */
  ghost function Users(configs: ConfigMap): set<u32> {
    set uid | uid in configs
  }

  ghost predicate Sized(modes: map<seq<byte>, seq<byte>>) {
    forall key :: key in modes ==> |modes[key]| == 4
  }

  ghost predicate ModesOn(modes: map<seq<byte>, seq<byte>>, configs: ConfigMap, uids: set<u16>) {
    && Sized(modes)
    && forall uid :: uid in uids && uid in configs && configs[uid].HasRules() ==>
         ModeIs(modes, uid, configs[uid].mode)
  }

  /** The modes of different users do not disturb each other. */
  lemma OneMoreMode(modes: map<seq<byte>, seq<byte>>, configs: ConfigMap, uids: set<u16>, uid: u16)
    requires ModesOn(modes, configs, uids) && uid in configs
    ensures var more := modes[ToLe(uid, 4) := ToLe(ModeValue(configs[uid].mode), 4)];
            ModesOn(more, configs, uids + {uid})
    ensures !configs[uid].HasRules() ==> ModesOn(modes, configs, uids + {uid})
    ensures !configs[uid].HasRules() ==> ListKeys(false, uid, configs[uid].ipRanges) == {}
  {
    hide ToLe;
    forall u: u16 | u != uid
      ensures ToLe(u, 4) != ToLe(uid, 4)
    {
      if ToLe(u, 4) == ToLe(uid, 4) {
        LeInjective(u, uid);
      }
    }
  }

  lemma KeysStep(ids: set<u32>, id: u32)
    ensures KeysOf(ids + {id}) == KeysOf(ids) + {ToLe(id, 4)}
  {
    hide ToLe;
    KeysOfDifference(ids, {id});
    assert KeysOf({id}) == {ToLe(id, 4)};
  }

  lemma OneMoreModeKey(configs: ConfigMap, todo: set<u16>, uid: u16)
    requires uid in todo && uid in configs
    ensures KeysOf(Moded(configs) - (todo - {uid}))
         == KeysOf(Moded(configs) - todo) + if configs[uid].HasRules() then {ToLe(uid, 4)} else {}
  {
    hide ToLe, KeysOf;
    KeysStep(Moded(configs) - todo, uid);
    assert Moded(configs) - (todo - {uid})
        == if configs[uid].HasRules() then Moded(configs) - todo + {uid} else Moded(configs) - todo;
  }

  lemma ModeKeysStop(configs: ConfigMap, todo: set<u16>)
    ensures KeysOf(Moded(configs) - todo) <= KeysOf(Moded(configs))
  {
    hide ToLe;
  }

  lemma ModesOnNone(modes: map<seq<byte>, seq<byte>>, configs: ConfigMap)
    requires Sized(modes)
    ensures ModesOn(modes, configs, configs.Keys - configs.Keys)
    ensures KeysOf(Moded(configs) - configs.Keys) == {}
  {
    hide ToLe, ModeIs;
  }

  lemma ModesOnAll(modes: map<seq<byte>, seq<byte>>, configs: ConfigMap)
    requires ModesOn(modes, configs, configs.Keys)
    ensures ModesAgree(modes, configs) && Sized(modes)
  {
    hide ToLe, ModeIs;
  }

  lemma SizedStops(modes: map<seq<byte>, seq<byte>>, configs: ConfigMap, uids: set<u16>)
    ensures ModesOn(modes, configs, uids) ==> Sized(modes)
  {
  }

  /** Clearing a policy deletes the modes it installed. */
  lemma UsersCover(configs: ConfigMap)
    ensures KeysOf(Moded(configs)) <= KeysOf(Users(configs))
  {
    hide ToLe;
  }

  // ----- capacity of the maps -----

  lemma {:induction false} ListFits(bypass: bool, uid: nat, ranges: seq<RangeText>)
    ensures |ListKeys(bypass, uid, ranges)| <= |ranges|
  {
    if ranges == [] {
      assert ListKeys(bypass, uid, ranges) == {};
    } else {
      var i := |ranges| - 1;
      ListFits(bypass, uid, ranges[..i]);
      OneMoreRange(bypass, uid, ranges, i);
      assert ranges[..i + 1] == ranges;
    }
  }

  /** No trie is asked to hold more entries than it was created for. */
  lemma {:induction false} ListsFit(bypass: bool, lists: PolicyMap, uids: set<u16>)
    requires uids <= lists.Keys
    requires forall uid :: uid in lists ==> |lists[uid]| <= MAX_IP_RANGES
    ensures |KeysOn(bypass, lists, uids)| <= |uids| * MAX_IP_RANGES
  {
    if uids == {} {
      AllUsers(bypass, lists);
    } else {
      var uid :| uid in uids;
      ListsFit(bypass, lists, uids - {uid});
      OneMoreUser(bypass, lists, uids - {uid}, uid);
      assert uids - {uid} + {uid} == uids;
      ListFits(bypass, uid, lists[uid]);
    }
  }

  const MAX_DESTINATIONS := 64 * 256
  const MAX_USER_POLICIES := 64

  /** The policies the engine may ask for. */
  ghost predicate Limits(configs: ConfigMap, policies: PolicyMap) {
    && |configs| <= MAX_CONFIGS && |policies| <= MAX_CONFIGS
    && (forall uid :: uid in configs ==> |configs[uid].ipRanges| <= MAX_IP_RANGES)
    && forall uid :: uid in policies ==> |policies[uid]| <= MAX_IP_RANGES
  }

  /** The entries of one of the four tries. */
  ghost function Trie(tries: set<Entry>, bypass: bool, ipv6: bool): set<Entry> {
    set e | e in tries && e.bypass == bypass && e.ipv6 == ipv6
  }

  /** No trie holds more entries than it was created for. */
  ghost predicate TriesFit(tries: set<Entry>) {
    forall bypass, ipv6 :: |Trie(tries, bypass, ipv6)| <= MAX_DESTINATIONS
  }

  ghost predicate ModesFit(modes: map<seq<byte>, seq<byte>>) { |modes| <= MAX_USER_POLICIES }

  /** What stays within the entries of a policy within the limits fits the tries. */
  lemma PolicyFits(k: Kernel, configs: ConfigMap, policies: PolicyMap)
    requires Limits(configs, policies) && k.tries <= Keys(configs, policies)
    ensures TriesFit(k.tries)
  {
    hide ListsKeys, ListKeys, KeysOn;
    var lists := RangeLists(configs);
    assert lists.Keys == configs.Keys;
    ListsFit(false, lists, lists.Keys);
    AllUsers(false, lists);
    ListsFit(true, policies, policies.Keys);
    AllUsers(true, policies);
    forall bypass, ipv6
      ensures |Trie(k.tries, bypass, ipv6)| <= MAX_DESTINATIONS
    {
      var asked := if bypass then policies else lists;
      forall e | e in Trie(k.tries, bypass, ipv6)
        ensures e in ListsKeys(bypass, asked)
      {
        OneKind(policies, true, e);
        OneKind(lists, false, e);
      }
      SubsetBounded(Trie(k.tries, bypass, ipv6), ListsKeys(bypass, asked));
    }
  }

  /** What stays within the modes of a policy within the limits fits the mode map. */
  lemma PolicyModesFit(k: Kernel, configs: ConfigMap)
    requires |configs| <= MAX_CONFIGS && k.modes.Keys <= KeysOf(Moded(configs))
    ensures ModesFit(k.modes)
  {
    hide KeysOf;
    SubsetBounded(k.modes.Keys, KeysOf(Moded(configs)));
    KeysOfSize(Moded(configs));
    var moded: set<int>, users: set<int> := Moded(configs), configs.Keys;
    SubsetBounded(moded, users);
    assert |k.modes| == |k.modes.Keys|;
  }

  lemma InstalledFits(k: Kernel, configs: ConfigMap, policies: PolicyMap)
    requires Limits(configs, policies)
    ensures k.tries <= Keys(configs, policies) ==> TriesFit(k.tries)
    ensures k.modes.Keys <= KeysOf(Moded(configs)) ==> ModesFit(k.modes)
  {
    hide Keys, KeysOf, Moded, TriesFit, ModesFit;
    if k.tries <= Keys(configs, policies) {
      PolicyFits(k, configs, policies);
    }
    if k.modes.Keys <= KeysOf(Moded(configs)) {
      PolicyModesFit(k, configs);
    }
  }

  /** Every range of the lists can be parsed; the daemon checks this before it installs them. */
  ghost predicate ListsSpelled(lists: PolicyMap) {
    forall uid :: uid in lists ==> AllSpelled(lists[uid])
  }

  ghost predicate AllSpelled(ranges: seq<RangeText>) {
    forall i :: 0 <= i < |ranges| ==> ranges[i].Spelled?
  }

  ghost predicate PolicySpelled(configs: ConfigMap, policies: PolicyMap) {
    ListsSpelled(RangeLists(configs)) && ListsSpelled(policies)
  }

  class SocketMarker {
    var kernel: Kernel
    var configs: ConfigMap
    var policies: PolicyMap
    ghost var faults: nat                      // history: the kernel operations that failed

    /** The cached policy is the one the kernel holds. */
    ghost predicate Synced()
      reads this
    {
      Agrees(kernel, configs, policies)
    }

    /** The mode map holds the modes of the cached policy and no others. */
    ghost predicate Tidy()
      reads this
    {
      kernel.modes.Keys == KeysOf(Moded(configs))
    }

    /** What holds of the maps unless they are damaged, or a mode is stuck. */
    ghost predicate MapsValid(damaged: bool, stale: bool)
      reads this
    {
      && Sized(kernel.modes) && Limits(configs, policies)
      && (!damaged ==> Synced())
      && (!damaged && !stale ==> Tidy())
    }

    constructor ()
      ensures configs == map[] && policies == map[] && kernel == Kernel({}, map[], {})
      ensures Synced() && Tidy()
    {
      kernel, configs, policies := Kernel({}, map[], {}), map[], map[];
    }

    method SetExcluded(pid: nat, excluded: bool) returns (ok: bool)
      modifies this`kernel, this`faults
      ensures faults >= old(faults) && (ok <==> faults == old(faults))
      ensures kernel.tries == old(kernel.tries) && kernel.modes == old(kernel.modes)
      ensures !ok ==> kernel == old(kernel)
      ensures ok ==> kernel.pids == if excluded then old(kernel.pids) + {ToLe(pid, 4)}
                                    else old(kernel.pids) - {ToLe(pid, 4)}
    {
      ok := *;
      if ok {
        var key := ToLe(pid, 4);
        kernel := kernel.(pids := if excluded then kernel.pids + {key} else kernel.pids - {key});
      } else {
        faults := faults + 1;
      }
    }

    method DeleteMode(uid: nat) returns (ok: bool)
      modifies this`kernel, this`faults
      ensures faults >= old(faults) && (ok <==> faults == old(faults))
      ensures kernel.tries == old(kernel.tries) && kernel.pids == old(kernel.pids)
      ensures kernel.modes == if ok then old(kernel.modes) - {ToLe(uid, 4)} else old(kernel.modes)
    {
      ok := *;
      if ok {
        kernel := kernel.(modes := kernel.modes - {ToLe(uid, 4)});
      } else {
        faults := faults + 1;
      }
    }

    method UpdateMode(uid: nat, mode: SplitMode) returns (ok: bool)
      modifies this`kernel, this`faults
      ensures faults >= old(faults) && (ok <==> faults == old(faults))
      ensures kernel.tries == old(kernel.tries) && kernel.pids == old(kernel.pids)
      ensures kernel.modes
           == if ok then old(kernel.modes)[ToLe(uid, 4) := ToLe(ModeValue(mode), 4)] else old(kernel.modes)
    {
      ok := *;
      if ok {
        kernel := kernel.(modes := kernel.modes[ToLe(uid, 4) := ToLe(ModeValue(mode), 4)]);
      } else {
        faults := faults + 1;
      }
    }

    /** Deletes, or installs, one range; a range that cannot be parsed is an error. */
    method ChangeRange(bypass: bool, uid: nat, range: RangeText, install: bool) returns (ok: bool)
      modifies this`kernel, this`faults
      ensures kernel.modes == old(kernel.modes) && kernel.pids == old(kernel.pids)
      ensures !ok ==> kernel == old(kernel)
      ensures faults >= old(faults) && (ok <==> faults == old(faults) && range.Spelled?)
      ensures ok ==> kernel.tries == if install then old(kernel.tries) + {EntryOf(bypass, uid, range.net)}
                                     else old(kernel.tries) - {EntryOf(bypass, uid, range.net)}
    {
      match range
      case Spelled(net, _) =>
        ok := *;
        if ok {
          var e := EntryOf(bypass, uid, net);
          kernel := kernel.(tries := if install then kernel.tries + {e} else kernel.tries - {e});
        } else {
          faults := faults + 1;
        }
      case _ => ok := false;
    }

    /** Deletes, or installs, the first `done` ranges, up to the first failure. */
    method ChangeRanges(bypass: bool, uid: nat, ranges: seq<RangeText>, install: bool)
      returns (ok: bool, ghost done: nat)
      modifies this`kernel, this`faults
      ensures kernel.modes == old(kernel.modes) && kernel.pids == old(kernel.pids)
      ensures faults >= old(faults) && (ok <==> faults == old(faults) && AllSpelled(ranges))
      ensures done <= |ranges| && (ok <==> done == |ranges|)
      ensures Changed(old(kernel.tries), ListKeys(bypass, uid, ranges[..done]), install, kernel.tries, true)
      ensures Changed(old(kernel.tries), ListKeys(bypass, uid, ranges), install, kernel.tries, ok)
    {
      done := 0;
      for i := 0 to |ranges|
        invariant kernel.modes == old(kernel.modes) && kernel.pids == old(kernel.pids) && done == i
        invariant faults == old(faults) && AllSpelled(ranges[..i])
        invariant Changed(old(kernel.tries), ListKeys(bypass, uid, ranges[..i]), install, kernel.tries, true)
      {
        OneMoreRange(bypass, uid, ranges, i);
        ok := ChangeRange(bypass, uid, ranges[i], install);
        if !ok {
          FewerRanges(bypass, uid, ranges, i);
          return;
        }
        done := done + 1;
      }
      assert ranges[..|ranges|] == ranges;
      ok := true;
    }

    /** Deletes the mode and the split ranges of one user; only the mode may be left behind unnoticed. */
    method ClearConfig(uid: u16, ranges: seq<RangeText>) returns (ok: bool, deleted: bool, ghost done: nat)
      modifies this`kernel, this`faults
      ensures kernel.pids == old(kernel.pids)
      ensures kernel.modes == if deleted then old(kernel.modes) - {ToLe(uid, 4)} else old(kernel.modes)
      ensures faults >= old(faults) && (deleted && AllSpelled(ranges) && !ok ==> faults > old(faults))
      ensures faults == old(faults) ==> deleted && (ok <==> AllSpelled(ranges))
      ensures done <= |ranges| && (ok <==> done == |ranges|)
      ensures kernel.tries == old(kernel.tries) - ListKeys(false, uid, ranges[..done])
      ensures Changed(old(kernel.tries), ListKeys(false, uid, ranges), false, kernel.tries, ok)
    {
      hide ListKeys;
      deleted := DeleteMode(uid);    // the source ignores the result
      ok, done := ChangeRanges(false, uid, ranges, false);
    }

    /**
     The deletion phase for the split lists, with the modes of their users.
     `stuck` are the users met whose mode could not be deleted.
     */
    method ClearConfigs(previous: ConfigMap) returns (ok: bool, ghost stuck: set<u32>, ghost halt: Halt)
      modifies this`kernel, this`faults
      ensures kernel.pids == old(kernel.pids) && (Sized(old(kernel.modes)) ==> Sized(kernel.modes))
      ensures Changed(old(kernel.tries), ListsKeys(false, RangeLists(previous)), false, kernel.tries, ok)
      ensures !ok ==>
                && halt.phase == 0 && HaltsIn(RangeLists(previous), halt, false)
                && kernel.tries == old(kernel.tries) - Part(false, RangeLists(previous), halt)
      ensures faults >= old(faults)
      ensures faults == old(faults) ==> stuck == {} && (ListsSpelled(RangeLists(previous)) ==> ok)
      ensures stuck <= Users(previous)
      ensures Stopped(old(kernel.modes.Keys), KeysOf(Users(previous) - stuck), {}, kernel.modes.Keys, ok)
    {
      hide ListKeys, ListsKeys, KeysOn, KeysOf, SplitConfig.HasRules, ToLe, EntryOf, ModeIs;
      var lists, todo := RangeLists(previous), previous.Keys;
      stuck, halt := {}, *;
      ghost var done: set<u32> := {};
      AllUsers(false, lists);
      KeysOfDifference({}, {});
      assert previous.Keys - todo == {};
      while todo != {}
        invariant faults >= old(faults) && (faults == old(faults) ==> stuck == {})
        invariant todo <= previous.Keys && done == Users(previous) - todo && stuck <= done
        invariant kernel.pids == old(kernel.pids) && (Sized(old(kernel.modes)) ==> Sized(kernel.modes))
        invariant kernel.modes.Keys == old(kernel.modes.Keys) - KeysOf(done - stuck)
        invariant Changed(old(kernel.tries), KeysOn(false, lists, previous.Keys - todo), false, kernel.tries, true)
      {
        var uid :| uid in todo;
        OneMoreUser(false, lists, previous.Keys - todo, uid);
        var deleted;
        ghost var n;
        ok, deleted, n := ClearConfig(uid, lists[uid]);
        ghost var before := done - stuck;
        KeysStep(before, uid);
        done, stuck := done + {uid}, if deleted then stuck else stuck + {uid};
        assert done - stuck == if deleted then before + {uid as u32} else before;
        if !ok {
          halt := Halt(0, previous.Keys - todo, uid, n);
          KeysOfPart(done - stuck, Users(previous) - stuck);
          return;
        }
        assert previous.Keys - (todo - {uid}) == previous.Keys - todo + {uid};
        todo := todo - {uid};
      }
      assert previous.Keys - todo == lists.Keys && done == Users(previous);
      ok := true;
    }

    /** Installs the mode and the split ranges of one user. */
    method InstallConfig(uid: u16, config: SplitConfig) returns (ok: bool, ghost done: nat)
      modifies this`kernel, this`faults
      ensures kernel.pids == old(kernel.pids)
      ensures faults >= old(faults) && (ok <==> faults == old(faults) && AllSpelled(config.ipRanges))
      ensures || kernel.modes == old(kernel.modes)[ToLe(uid, 4) := ToLe(ModeValue(config.mode), 4)]
              || (!ok && kernel.modes == old(kernel.modes))
      ensures done <= |config.ipRanges| && (!ok ==> done < |config.ipRanges| || done == 0)
      ensures kernel.tries == old(kernel.tries) + ListKeys(false, uid, config.ipRanges[..done])
      ensures Changed(old(kernel.tries), ListKeys(false, uid, config.ipRanges), true, kernel.tries, ok)
    {
      hide ToLe, EntryOf;
      done := 0;
      ok := UpdateMode(uid, config.mode);
      if ok {
        ok, done := ChangeRanges(false, uid, config.ipRanges, true);
      }
    }

    /** The installation phase for the split lists of the users that have rules. */
    method InstallConfigs(next: ConfigMap) returns (ok: bool, ghost halt: Halt)
      requires Sized(kernel.modes)
      modifies this`kernel, this`faults
      ensures kernel.pids == old(kernel.pids) && Sized(kernel.modes)
      ensures Changed(old(kernel.tries), ListsKeys(false, RangeLists(next)), true, kernel.tries, ok)
      ensures !ok ==>
                && halt.phase == 2 && HaltsIn(RangeLists(next), halt, true) && next[halt.uid].HasRules()
                && kernel.tries == old(kernel.tries) + Part(false, RangeLists(next), halt)
      ensures faults >= old(faults) && (ok ==> faults == old(faults))
      ensures faults == old(faults) && ListsSpelled(RangeLists(next)) ==> ok
      ensures Stopped(old(kernel.modes.Keys), {}, KeysOf(Moded(next)), kernel.modes.Keys, ok)
      ensures ok ==> ModesAgree(kernel.modes, next)
    {
      hide ListKeys, ListsKeys, KeysOn, KeysOf, ModeIs, ToLe, EntryOf;
      var lists, todo := RangeLists(next), next.Keys;
      halt := *;
      AllUsers(false, lists);
      ModesOnNone(kernel.modes, next);
      assert next.Keys - todo == {};
      while todo != {}
        invariant todo <= next.Keys && faults == old(faults)
        invariant kernel.pids == old(kernel.pids) && ModesOn(kernel.modes, next, next.Keys - todo)
        invariant kernel.modes.Keys == old(kernel.modes.Keys) + KeysOf(Moded(next) - todo)
        invariant Changed(old(kernel.tries), KeysOn(false, lists, next.Keys - todo), true, kernel.tries, true)
      {
        var uid :| uid in todo;
        assert next.Keys - (todo - {uid}) == next.Keys - todo + {uid};
        OneMoreUser(false, lists, next.Keys - todo, uid);
        OneMoreMode(kernel.modes, next, next.Keys - todo, uid);
        OneMoreModeKey(next, todo, uid);
        if next[uid].HasRules() {
          ghost var n;
          ok, n := InstallConfig(uid, next[uid]);
          if !ok {
            halt := Halt(2, next.Keys - todo, uid, n);
            ModeKeysStop(next, todo - {uid});
            SizedStops(kernel.modes, next, next.Keys - todo);
            SizedStops(kernel.modes, next, next.Keys - todo + {uid});
            return;
          }
        }
        todo := todo - {uid};
      }
      assert next.Keys - todo == lists.Keys && Moded(next) - todo == Moded(next);
      ModesOnAll(kernel.modes, next);
      ok := true;
    }

    /** Deletes, or installs, every bypass list. */
    method ChangePolicies(lists: PolicyMap, install: bool) returns (ok: bool, ghost halt: Halt)
      modifies this`kernel, this`faults
      ensures kernel.pids == old(kernel.pids) && kernel.modes == old(kernel.modes)
      ensures faults >= old(faults) && (ok <==> faults == old(faults) && ListsSpelled(lists))
      ensures Changed(old(kernel.tries), ListsKeys(true, lists), install, kernel.tries, ok)
      ensures !ok ==>
                && halt.phase == (if install then 3 else 1) && HaltsIn(lists, halt, false)
                && kernel.tries == if install then old(kernel.tries) + Part(true, lists, halt)
                                   else old(kernel.tries) - Part(true, lists, halt)
    {
      hide ListKeys, ListsKeys, KeysOn;
      halt := *;
      var todo := lists.Keys;
      AllUsers(true, lists);
      assert lists.Keys - todo == {};
      while todo != {}
        invariant todo <= lists.Keys && faults == old(faults)
        invariant forall uid :: uid in lists.Keys - todo ==> AllSpelled(lists[uid])
        invariant kernel.pids == old(kernel.pids) && kernel.modes == old(kernel.modes)
        invariant Changed(old(kernel.tries), KeysOn(true, lists, lists.Keys - todo), install, kernel.tries, true)
      {
        var uid :| uid in todo;
        OneMoreUser(true, lists, lists.Keys - todo, uid);
        ghost var n;
        ok, n := ChangeRanges(true, uid, lists[uid], install);
        if !ok {
          halt := Halt(if install then 3 else 1, lists.Keys - todo, uid, n);
          return;
        }
        assert lists.Keys - (todo - {uid}) == lists.Keys - todo + {uid};
        todo := todo - {uid};
      }
      assert lists.Keys - todo == lists.Keys;
      ok := true;
    }

    /** The deletion of a policy, stopping at the first failure. */
    method DeletePolicy(configs: ConfigMap, policies: PolicyMap)
      returns (ok: bool, ghost stuck: set<u32>, ghost halt: Halt)
      requires Sized(kernel.modes)
      modifies this`kernel, this`faults
      ensures kernel.pids == old(kernel.pids) && Sized(kernel.modes)
      ensures Changed(old(kernel.tries), Keys(configs, policies), false, kernel.tries, ok)
      ensures faults >= old(faults)
      ensures faults == old(faults) ==> stuck == {} && (PolicySpelled(configs, policies) ==> ok)
      ensures !ok ==> DeletionHalted(old(kernel.tries), configs, policies, halt, kernel.tries)
      ensures stuck <= Users(configs)
      ensures Stopped(old(kernel.modes.Keys), KeysOf(Users(configs) - stuck), {}, kernel.modes.Keys, ok)
    {
      hide ListsKeys, KeysOf, Moded, Users, RangeLists, Sized, HaltsIn, Part;
      ok, stuck, halt := ClearConfigs(configs);
      if ok {
        ok, halt := ChangePolicies(policies, false);
      }
    }

    /** The installation of a policy, stopping at the first failure. */
    method InstallPolicy(configs: ConfigMap, policies: PolicyMap) returns (ok: bool, ghost halt: Halt)
      requires Sized(kernel.modes)
      modifies this`kernel, this`faults
      ensures kernel.pids == old(kernel.pids) && Sized(kernel.modes)
      ensures Changed(old(kernel.tries), Keys(configs, policies), true, kernel.tries, ok)
      ensures faults >= old(faults) && (ok ==> faults == old(faults))
      ensures faults == old(faults) && PolicySpelled(configs, policies) ==> ok
      ensures !ok ==> InstallationHalted(old(kernel.tries), configs, policies, halt, kernel.tries)
      ensures Stopped(old(kernel.modes.Keys), {}, KeysOf(Moded(configs)), kernel.modes.Keys, ok)
      ensures ok ==> ModesAgree(kernel.modes, configs)
    {
      hide ListsKeys, KeysOf, ModesAgree, Moded, Users, RangeLists, Sized, HaltsIn, Part, SplitConfig.HasRules;
      ok, halt := InstallConfigs(configs);
      if ok {
        ok, halt := ChangePolicies(policies, true);
      }
    }

    /** Deletes one policy and installs another, stopping at the first failure. */
    method ReplaceMaps(oldConfigs: ConfigMap, oldPolicies: PolicyMap, newConfigs: ConfigMap, newPolicies: PolicyMap)
      returns (ok: bool, ghost stuck: set<u32>, ghost halt: Halt)
      requires Sized(kernel.modes)
      modifies this`kernel, this`faults
      ensures kernel.pids == old(kernel.pids) && Sized(kernel.modes)
      ensures Stopped(old(kernel.tries), Keys(oldConfigs, oldPolicies), Keys(newConfigs, newPolicies), kernel.tries, ok)
      ensures !ok ==>
                && Halts(oldConfigs, oldPolicies, newConfigs, newPolicies, halt)
                && kernel.tries
                   == HaltedTries(old(kernel.tries), oldConfigs, oldPolicies, newConfigs, newPolicies, halt)
      ensures faults >= old(faults) && (faults == old(faults) ==> stuck == {})
      ensures faults == old(faults) && PolicySpelled(oldConfigs, oldPolicies) && PolicySpelled(newConfigs, newPolicies)
              ==> ok
      ensures stuck <= Users(oldConfigs)
      ensures Stopped(old(kernel.modes.Keys), KeysOf(Users(oldConfigs) - stuck), KeysOf(Moded(newConfigs)),
                      kernel.modes.Keys, ok)
      ensures ok ==> ModesAgree(kernel.modes, newConfigs)
    {
      hide Keys, KeysOf, ModesAgree, Moded, Users, RangeLists, Sized, Halts, HaltedTries, DeletionHalted,
           InstallationHalted;
      ok, stuck, halt := DeletePolicy(oldConfigs, oldPolicies);
      if ok {
        ok, halt := InstallPolicy(newConfigs, newPolicies);
      }
      if !ok {
        HaltedAt(old(kernel.tries), oldConfigs, oldPolicies, newConfigs, newPolicies, halt, kernel.tries);
      }
    }

    /**
     Installs a policy. Success leaves maps that agree with it. A failure whose
     rollback succeeds leaves exactly the entries of the previous policy, and
     even a failed rollback never leaves entries of both policies. After a
     failed rollback the cache hides the damage: installing the cached policy
     again changes nothing, and installing another one leaves agreement exactly
     when the two policies between them account for every entry. `stuck` are
     the users whose mode could not be deleted; their modes stay. With lists
     that can be parsed, only a failing operation makes it fail. `halt` and
     `undoHalt` are the operations at which installation and rollback failed.
     */
    method SyncConfigs(newConfigs: ConfigMap, newPolicies: PolicyMap)
      returns (ok: bool, rolledBack: bool, ghost stuck: set<u32>, ghost halt: Halt, ghost undoHalt: Halt)
      requires Sized(kernel.modes)
      modifies this
      ensures kernel.pids == old(kernel.pids) && Sized(kernel.modes)
      ensures ok ==> configs == newConfigs && policies == newPolicies
      ensures !ok ==> configs == old(configs) && policies == old(policies)
      ensures old(Synced()) && (ok || rolledBack) ==> Synced()
      ensures old(Synced()) ==>
                kernel.tries <= Keys(old(configs), old(policies)) || kernel.tries <= Keys(newConfigs, newPolicies)
      ensures old(Tidy()) && stuck == {} ==>
                && (ok || rolledBack ==> Tidy())
                && (|| kernel.modes.Keys <= KeysOf(Moded(old(configs)))
                    || kernel.modes.Keys <= KeysOf(Moded(newConfigs)))
      ensures faults >= old(faults) && (faults == old(faults) ==> stuck == {})
      ensures PolicySpelled(old(configs), old(policies)) && PolicySpelled(newConfigs, newPolicies) ==>
                (faults == old(faults) ==> ok)
      ensures !ok ==> Halts(old(configs), old(policies), newConfigs, newPolicies, halt)
      ensures !ok && !rolledBack ==>
                && Halts(newConfigs, newPolicies, old(configs), old(policies), undoHalt)
                && kernel.tries
                   == TwiceHalted(old(kernel.tries), old(configs), old(policies), newConfigs, newPolicies, halt, undoHalt)
      ensures newConfigs == old(configs) && newPolicies == old(policies) ==> ok && kernel == old(kernel)
      ensures ok && !(newConfigs == old(configs) && newPolicies == old(policies)) ==>
                && (Synced() <==>
                    old(kernel.tries) <= Keys(old(configs), old(policies)) + Keys(newConfigs, newPolicies))
                && kernel.modes.Keys
                   == old(kernel.modes.Keys) - KeysOf(Users(old(configs)) - stuck) + KeysOf(Moded(newConfigs))
    {
      hide ListsKeys, KeysOf, ModesAgree, Moded, Users, Keys, Halts, HaltedTries;
      stuck, halt, undoHalt := {}, *, *;
      if newConfigs == configs && newPolicies == policies {
        ok, rolledBack := true, false;
        return;
      }
      UsersCover(configs);
      UsersCover(newConfigs);
      ok, stuck, halt := ReplaceMaps(configs, policies, newConfigs, newPolicies);
      assert Users(configs) - {} == Users(configs) && Users(newConfigs) - {} == Users(newConfigs);
      if !ok {
        ghost var again;
        rolledBack, again, undoHalt := ReplaceMaps(newConfigs, newPolicies, configs, policies);
        assert stuck + again == {} ==> stuck == {} && again == {};
        stuck := stuck + again;
        return;
      }
      configs, policies, rolledBack := newConfigs, newPolicies, false;
    }

    /**
     Installs a policy within the limits. While the maps are undamaged no trie
     outgrows its capacity, wherever this stops, and neither does the mode map
     when no mode is stuck. A success ends the damage when the maps agree again.
     */
    method Install(newConfigs: ConfigMap, newPolicies: PolicyMap, ghost wasDamaged: bool, ghost wasStale: bool)
      returns (ok: bool, ghost damaged: bool, ghost stale: bool)
      requires MapsValid(wasDamaged, wasStale) && Limits(newConfigs, newPolicies)
      modifies this
      ensures MapsValid(damaged, stale) && kernel.pids == old(kernel.pids)
      ensures ok ==> configs == newConfigs && policies == newPolicies
      ensures !ok ==> configs == old(configs) && policies == old(policies)
      ensures faults >= old(faults)
      ensures PolicySpelled(old(configs), old(policies)) && PolicySpelled(newConfigs, newPolicies) ==>
                (faults == old(faults) ==> ok && (!wasDamaged ==> !damaged) && (!wasDamaged && !wasStale ==> !stale))
      ensures ok && damaged ==> wasDamaged && !Synced()
      ensures !wasDamaged ==> TriesFit(kernel.tries)
      ensures !wasDamaged && !wasStale && !stale ==> ModesFit(kernel.modes)
    {
      hide Keys, Agrees, Limits, Sized, TriesFit, ModesFit, KeysOf, Moded, Users, Halts, TwiceHalted;
      ghost var before, lists := configs, policies;
      var rolledBack;
      ghost var stuck, halt, undoHalt;
      ok, rolledBack, stuck, halt, undoHalt := SyncConfigs(newConfigs, newPolicies);
      if ok {
        damaged := wasDamaged && !Synced();
        stale := (wasDamaged || wasStale || stuck != {}) && !Tidy();
      } else {
        damaged := wasDamaged || !rolledBack;
        stale := wasStale || stuck != {};
      }
      InstalledFits(kernel, before, lists);
      InstalledFits(kernel, newConfigs, newPolicies);
    }
  }

  // ----- what failures may leave behind -----

  /** The users whose mode outlives the policy `before`: its deletion failed and the next policy sets none. */
  ghost function Stale(users: set<u32>, before: ConfigMap, after: ConfigMap, stuck: set<u32>): set<u32> {
    users - (Users(before) - stuck) - Moded(after)
  }

  /**
   The mode map after a replacement: the modes of the new policy and the stale
   ones. It fits exactly when there is room for both.
   */
  lemma ModesAfterReplacement(k: Kernel, users: set<u32>, before: ConfigMap, after: ConfigMap, stuck: set<u32>)
    requires k.modes.Keys == KeysOf(users) - KeysOf(Users(before) - stuck) + KeysOf(Moded(after))
    ensures k.modes.Keys == KeysOf(Moded(after) + Stale(users, before, after, stuck))
    ensures ModesFit(k.modes) <==> |Moded(after)| + |Stale(users, before, after, stuck)| <= MAX_USER_POLICIES
  {
    hide KeysOf, Moded, Users;
    var stale := Stale(users, before, after, stuck);
    KeysOfDifference(users, Users(before) - stuck);
    KeysOfDifference(users - (Users(before) - stuck), Moded(after));
    assert users - (Users(before) - stuck) + Moded(after) == Moded(after) + stale;
    KeysOfSize(Moded(after) + stale);
    assert |k.modes| == |k.modes.Keys|;
  }

  const ONE_APP := SplitConfig(Exclude, ["/a"], [])

  /** The first `n` users, each with one application. */
  function FirstUsers(n: u16): ConfigMap {
    if n == 0 then map[] else FirstUsers(n - 1)[n - 1 := ONE_APP]
  }

  lemma OneAppRules()
    ensures ONE_APP.HasRules()
  {
    assert "/a" in ONE_APP.appPaths;
  }

  lemma {:induction false} FirstUsersAre(n: u16)
    ensures forall uid: u16 :: uid in FirstUsers(n) <==> uid < n
    ensures forall uid :: uid in FirstUsers(n) ==> FirstUsers(n)[uid] == ONE_APP
  {
    if n > 0 {
      FirstUsersAre(n - 1);
    }
  }

  ghost function Below(n: u32): (s: set<u32>)
    ensures |s| == n && forall k: u32 :: k in s <==> k < n
  {
    if n == 0 then {} else Below(n - 1) + {n - 1}
  }

  lemma FirstUsersCount(n: u16)
    ensures Users(FirstUsers(n)) == Moded(FirstUsers(n)) == Below(n)
  {
    hide SplitConfig.HasRules, FirstUsers, Below;
    OneAppRules();
    FirstUsersAre(n);
  }

  // ----- modes over a run -----

  /** A successful installation, and the users whose old mode could not be deleted. */
  datatype Sync = Sync(configs: ConfigMap, stuck: set<u32>)

  function LastConfigs(run: seq<Sync>): ConfigMap {
    if run == [] then map[] else run[|run| - 1].configs
  }

  /** The users with a mode in the map after a run. */
  ghost function ModeUsers(run: seq<Sync>): set<u32> {
    if run == [] then {}
    else
      var init, last := run[..|run| - 1], run[|run| - 1];
      Moded(last.configs) + Stale(ModeUsers(init), LastConfigs(init), last.configs, last.stuck)
  }

  /** One installation takes the mode map of a run to that of the longer run. */
  lemma OneMoreSync(k: Kernel, run: seq<Sync>, sync: Sync)
    requires k.modes.Keys == KeysOf(ModeUsers(run)) - KeysOf(Users(LastConfigs(run)) - sync.stuck)
                             + KeysOf(Moded(sync.configs))
    ensures k.modes.Keys == KeysOf(ModeUsers(run + [sync]))
    ensures ModesFit(k.modes) <==> |ModeUsers(run + [sync])| <= MAX_USER_POLICIES
  {
    hide KeysOf, Moded, Users, Stale;
    assert (run + [sync])[..|run|] == run;
    ModesAfterReplacement(k, ModeUsers(run), LastConfigs(run), sync.configs, sync.stuck);
    KeysOfSize(ModeUsers(run + [sync]));
    assert |k.modes| == |k.modes.Keys|;
  }

  /** What the engine asks for: the policy of one user changes, and there are never more users than it allows. */
  ghost predicate Asked(before: ConfigMap, sync: Sync) {
    && |sync.configs| <= MAX_CONFIGS && sync.stuck <= Users(before)
    && exists uid: u16 :: before - {uid} == sync.configs - {uid}
  }

  ghost predicate OneAtATime(run: seq<Sync>) {
    run == [] ||
    (OneAtATime(run[..|run| - 1]) && Asked(LastConfigs(run[..|run| - 1]), run[|run| - 1]))
  }

  function Growing(n: u16): seq<Sync> {
    if n == 0 then [] else Growing(n - 1) + [Sync(FirstUsers(n), {})]
  }

  lemma Extended(run: seq<Sync>, sync: Sync, uid: u16)
    requires OneAtATime(run) && |sync.configs| <= MAX_CONFIGS && sync.stuck <= Users(LastConfigs(run))
    requires LastConfigs(run) - {uid} == sync.configs - {uid}
    ensures OneAtATime(run + [sync]) && LastConfigs(run + [sync]) == sync.configs
    ensures ModeUsers(run + [sync])
         == Moded(sync.configs) + Stale(ModeUsers(run), LastConfigs(run), sync.configs, sync.stuck)
  {
    hide Moded, Users, Stale;
    assert (run + [sync])[..|run|] == run;
  }

  lemma FirstUsersSize(n: u16)
    ensures |FirstUsers(n)| == n
  {
    hide FirstUsers;
    FirstUsersAre(n);
    var users: set<int>, below: set<int> := FirstUsers(n).Keys, Below(n);
    assert users == below;
    assert |FirstUsers(n)| == |FirstUsers(n).Keys|;
  }

  lemma FirstUsersStep(n: u16)
    requires n > 0
    ensures FirstUsers(n - 1) - {n - 1} == FirstUsers(n) - {n - 1}
  {
    hide FirstUsers;
    FirstUsersAre(n);
    FirstUsersAre(n - 1);
  }

  lemma GrowingStep(n: u16)
    ensures n > 0 ==> Growing(n) == Growing(n - 1) + [Sync(FirstUsers(n), {})]
    ensures n == 0 ==> OneAtATime(Growing(n)) && LastConfigs(Growing(n)) == FirstUsers(n)
    ensures n == 0 ==> ModeUsers(Growing(n)) == Below(n)
  {
  }

  lemma {:induction false} GrowingIs(n: u16)
    requires n <= 64
    ensures OneAtATime(Growing(n)) && LastConfigs(Growing(n)) == FirstUsers(n)
    ensures ModeUsers(Growing(n)) == Below(n)
  {
    hide FirstUsers, Growing, Moded, Users, OneAtATime, ModeUsers, LastConfigs, Below;
    GrowingStep(n);
    if n > 0 {
      var sync := Sync(FirstUsers(n), {});
      GrowingIs(n - 1);
      FirstUsersSize(n);
      FirstUsersCount(n);
      FirstUsersCount(n - 1);
      FirstUsersStep(n);
      Extended(Growing(n - 1), sync, n - 1);
    }
  }

  /** Sixty-four users, and then the last one is cleared while its mode is stuck. */
  function Cleared(): seq<Sync> { Growing(64) + [Sync(FirstUsers(63), {63})] }

  /** Another user in its place. */
  function Overflow(): seq<Sync> { Cleared() + [Sync(FirstUsers(63)[64 := ONE_APP], {})] }

  lemma ClearedIs()
    ensures OneAtATime(Cleared()) && LastConfigs(Cleared()) == FirstUsers(63)
    ensures ModeUsers(Cleared()) == Below(63) + {63}
  {
    hide FirstUsers, Growing, Below, OneAtATime, ModeUsers, LastConfigs, Moded, Users;
    GrowingIs(64);
    FirstUsersSize(63);
    FirstUsersCount(64);
    FirstUsersCount(63);
    LastUser();
    Extended(Growing(64), Sync(FirstUsers(63), {63}), 63);
  }

  /**
   The failing input: one mode that could not be deleted, and the mode map has
   no room for the sixty-four users the engine allows.
   */
  lemma StuckModesOverflow()
    ensures OneAtATime(Overflow()) && |ModeUsers(Overflow())| == MAX_USER_POLICIES + 1
    ensures |LastConfigs(Overflow())| == MAX_CONFIGS
  {
    hide FirstUsers, Cleared, Below, OneAtATime, ModeUsers, LastConfigs, Moded, Users;
    ClearedIs();
    FirstUsersCount(63);
    LastUser();
    Extended(Cleared(), Sync(FirstUsers(63)[64 := ONE_APP], {}), 64);
    assert ModeUsers(Overflow()) == Below(63) + {63} + {64};
  }

  /** The users before and after the last two steps. */
  lemma LastUser()
    ensures FirstUsers(64) - {63} == FirstUsers(63) - {63}
    ensures FirstUsers(63)[64 := ONE_APP] - {64} == FirstUsers(63) - {64}
    ensures Moded(FirstUsers(63)[64 := ONE_APP]) == Below(63) + {64}
    ensures |FirstUsers(63)[64 := ONE_APP]| == 64
  {
    hide FirstUsers, Below, SplitConfig.HasRules;
    FirstUsersAre(64);
    FirstUsersAre(63);
    FirstUsersSize(63);
    OneAppRules();
    assert FirstUsers(63)[64 := ONE_APP].Keys == FirstUsers(63).Keys + {64};
  }

  // ----- damage that stays -----

  function OneUser(ranges: seq<net>): ConfigMap {
    map[1 := SplitConfig(Exclude, [], seq(|ranges|, (i: nat) requires i < |ranges| => Canonical(ranges[i])))]
  }

  /**
   A failing input: `cached` is to be replaced by two ranges. The second one
   cannot be installed, and the rollback cannot delete the first. The cache
   still says `cached`; installing `next` then succeeds without agreeing.
   */
  lemma DamageStays(cached: net, stray: net, second: net, next: net)
    requires !stray.Ipv6() && cached.Ipv6() && next.Ipv6()
    ensures var before, between, after := OneUser([cached]), OneUser([stray, second]), OneUser([next]);
            var failed, undone := Halt(2, {}, 1, 1), Halt(0, {}, 1, 0);
            && Halts(before, map[], between, map[], failed) && Halts(between, map[], before, map[], undone)
            && var damaged := TwiceHalted(Keys(before, map[]), before, map[], between, map[], failed, undone);
               !(damaged <= Keys(before, map[]) + Keys(after, map[]))
  {
    hide LpmKey;
    var before, between := OneUser([cached]), OneUser([stray, second]);
    var failed, undone := Halt(2, {}, 1, 1), Halt(0, {}, 1, 0);
    OneRangeKeys(cached);
    OneRangeKeys(next);
    var ranges := RangeLists(between)[1];
    assert |ranges| == 2 && ranges[0] == Canonical(stray) && between[1].HasRules();
    assert RangeLists(before)[1] == [Canonical(cached)];
    OneMoreRange(false, 1, ranges, 0);
    assert ListKeys(false, 1, ranges[..0]) == {};
    assert EntryOf(false, 1, stray.Trunc()) in Part(false, RangeLists(between), failed);
    assert Part(false, RangeLists(between), undone) == {};
    assert EntryOf(false, 1, stray.Trunc())
        in TwiceHalted(Keys(before, map[]), before, map[], between, map[], failed, undone);
  }

  lemma OneRangeKeys(n: net)
    ensures Keys(OneUser([n]), map[]) == {EntryOf(false, 1, n.Trunc())}
  {
    hide LpmKey;
    var ranges := [Canonical(n)];
    OneMoreRange(false, 1, ranges, 0);
    assert ranges[..1] == ranges && ListKeys(false, 1, ranges[..0]) == {};
    var lists := RangeLists(OneUser([n]));
    assert OneUser([n])[1].ipRanges == ranges;
    assert lists == map[1 := ranges] && lists[1] == ranges;
    assert ListsKeys(true, map[]) == {} && ListsKeys(false, lists) == ListKeys(false, 1, ranges);
    assert ranges[0] == Canonical(n);
  }
}

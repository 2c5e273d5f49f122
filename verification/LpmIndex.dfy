/**
The kernel maps as an index of the policy lists: uid-scoped prefix keys, and
the proof that what the programs read from the maps is what the lists say.
*/
module LpmIndex {
  import opened Bytes
  import opened BpfMachine
  import opened BpfPrograms
  import opened SplitModel

  /** Prefix length 32 + p, then the uid, then the network address. */
  function LpmKey(uid: nat, n: net): (key: seq<byte>)
    ensures |key| == KeySize(n.Ipv6())
  {
    ToLe(32 + n.prefix, 4) + ToLe(uid, 4) + Octets(n.Trunc().bits)
  }

  /** The trie an entry is in, and its key. */
  datatype Entry = Entry(bypass: bool, ipv6: bool, key: seq<byte>)

  function EntryOf(bypass: bool, uid: nat, n: net): Entry {
    Entry(bypass, n.Ipv6(), LpmKey(uid, n))
  }

  /** The contents of the six maps; a trie value is always 1. */
  datatype Kernel = Kernel(pids: set<seq<byte>>, modes: map<seq<byte>, seq<byte>>, tries: set<Entry>)

  // ----- what the lists ask for -----

  ghost function ListKeys(bypass: bool, uid: nat, ranges: seq<RangeText>): set<Entry> {
    set i | 0 <= i < |ranges| && ranges[i].Spelled? :: EntryOf(bypass, uid, ranges[i].net)
  }

  ghost function ListsKeys(bypass: bool, lists: PolicyMap): set<Entry> {
    set uid, e | uid in lists && e in ListKeys(bypass, uid, lists[uid]) :: e
  }

  function RangeLists(configs: ConfigMap): PolicyMap {
    map uid | uid in configs :: configs[uid].ipRanges
  }

  /** The trie entries of a policy: split ranges and bypass ranges. */
  ghost function Keys(configs: ConfigMap, policies: PolicyMap): set<Entry> {
    ListsKeys(false, RangeLists(configs)) + ListsKeys(true, policies)
  }

  function ModeValue(mode: SplitMode): nat { if mode == Include then 1 else 0 }

  /** Every rule-bearing user has its mode; stale modes of other users are allowed. */
  ghost predicate ModesAgree(modes: map<seq<byte>, seq<byte>>, configs: ConfigMap) {
    && (forall key :: key in modes ==> |modes[key]| == 4)
    && forall uid :: uid in configs && configs[uid].HasRules() ==> ModeIs(modes, uid, configs[uid].mode)
  }

  ghost predicate ModeIs(modes: map<seq<byte>, seq<byte>>, uid: nat, mode: SplitMode) {
    ToLe(uid, 4) in modes && modes[ToLe(uid, 4)] == ToLe(ModeValue(mode), 4)
  }

  ghost predicate Agrees(k: Kernel, configs: ConfigMap, policies: PolicyMap) {
    k.tries == Keys(configs, policies) && ModesAgree(k.modes, configs)
  }

  /** The decision read off the lists: bypass ranges first, then the split ranges, then the task. */
  ghost predicate ListMarks(configs: ConfigMap, policies: PolicyMap, uid: nat, address: seq<bool>, task: bool) {
    if uid in policies && Covers(policies[uid], address) then true
    else if uid in configs && Covers(configs[uid].ipRanges, address) then configs[uid].mode == Exclude
    else task
  }

  // ----- prefix matching -----

  /** The data of a key, as bits: the uid, then the address. */
  lemma KeyParts(key: seq<byte>, head: nat, uid: nat, address: seq<byte>)
    requires key == ToLe(head, 4) + ToLe(uid, 4) + address && head < 0x1_0000_0000
    ensures PrefixLen(key) == head
    ensures Bits(key[4..]) == Bits(ToLe(uid, 4)) + Bits(address)
  {
    LeWord(head);
    assert key[..4] == ToLe(head, 4);
    assert key[4..] == ToLe(uid, 4) + address;
    BitsConcat(ToLe(uid, 4), address);
  }

  /** Two bit strings with equal 32-bit heads agree on 32 + p bits iff their tails agree on p. */
  lemma PrefixSplit(h1: seq<bool>, t1: seq<bool>, h2: seq<bool>, t2: seq<bool>, p: nat)
    requires |h1| == 32 == |h2| && |t1| == |t2| && p <= |t1|
    ensures (h1 + t1)[..32 + p] == (h2 + t2)[..32 + p] <==> h1 == h2 && t1[..p] == t2[..p]
  {
    assert (h1 + t1)[..32 + p] == h1 + t1[..p];
    assert (h2 + t2)[..32 + p] == h2 + t2[..p];
    if h1 + t1[..p] == h2 + t2[..p] {
      assert h1 == (h1 + t1[..p])[..32] && h2 == (h2 + t2[..p])[..32];
      assert t1[..p] == (h1 + t1[..p])[32..] && t2[..p] == (h2 + t2[..p])[32..];
    }
  }

  /** The key a program looks up: the full address, scoped by the uid. */
  function Query(u: nat, a: seq<byte>): seq<byte>
    requires |a| < 0x1000
  {
    ToLe(32 + 8 * |a|, 4) + ToLe(u, 4) + a
  }

  /** A uid-scoped key matches exactly the addresses of its range, for that uid alone. */
  lemma LpmKeyMatches(uid: nat, n: net, u: nat, address: seq<byte>)
    requires uid < 0x1_0000_0000 && u < 0x1_0000_0000 && |address| == |n.bits| / 8
    ensures LpmMatches(LpmKey(uid, n), Query(u, address))
       <==> uid == u && n.Contains(Bits(address))
  {
    hide ToLe, PrefixLen, Bits, Octets;
    var entry, query := LpmKey(uid, n), Query(u, address);
    KeyParts(entry, 32 + n.prefix, uid, Octets(n.Trunc().bits));
    KeyParts(query, 32 + 8 * |address|, u, address);
    BitsOfOctets(n.Trunc().bits);
    PrefixSplit(Bits(ToLe(uid, 4)), n.Trunc().bits, Bits(ToLe(u, 4)), Bits(address), n.prefix);
    TruncContains(n, Bits(address));
    if Bits(ToLe(uid, 4)) == Bits(ToLe(u, 4)) {
      BitsInjective(ToLe(uid, 4), ToLe(u, 4));
      LeInjective(uid, u);
    }
  }

  // ----- decisions -----

  ghost function TrieKeys(k: Kernel, bypass: bool, ipv6: bool): set<seq<byte>> {
    set e | e in k.tries && e.bypass == bypass && e.ipv6 == ipv6 :: e.key
  }

  /** The maps the programs of a marker were loaded with. */
  ghost predicate Loaded(env: Env, fds: Fds, ipv6: bool, k: Kernel) {
    && fds.pids in env.maps && fds.modes in env.maps && fds.ranges in env.maps && fds.bypass in env.maps
    && (env.maps[fds.pids].HashMap? && env.maps[fds.pids].keySize == 4
        && env.maps[fds.pids].entries.Keys == k.pids)
    && env.maps[fds.modes] == HashMap(4, k.modes)
    && IsTrie(env.maps[fds.ranges], TrieKeys(k, false, ipv6), ipv6)
    && IsTrie(env.maps[fds.bypass], TrieKeys(k, true, ipv6), ipv6)
  }

  ghost predicate IsTrie(m: KernelMap, keys: set<seq<byte>>, ipv6: bool) {
    m.LpmTrie? && m.keySize == KeySize(ipv6) && m.entries.Keys == keys
  }

  /** The uid of the running task: the low word of the helper's result. */
  function Uid(env: Env): nat { env.uidGid % 0x1_0000_0000 }

  function Destination(ctx: seq<byte>, ipv6: bool): (address: seq<byte>)
    requires |ctx| >= 24
    ensures |address| == if ipv6 then 16 else 4
  {
    if ipv6 then ctx[8..24] else ctx[4..8]
  }

  lemma LowBytes(l: nat, c: nat, k: nat)
    requires ToLe(l / 256 + c, k) == ToLe(l / 256, k)
    ensures ToLe(l + 256 * c, k + 1) == ToLe(l, k + 1)
  {
    assert (l + 256 * c) % 256 == l % 256 && (l + 256 * c) / 256 == l / 256 + c;
  }

  lemma LowWord(n: nat)
    ensures ToLe(n, 4) == ToLe(n % 0x1_0000_0000, 4)
  {
    hide ToLe;
    var l, q := n % 0x1_0000_0000, n / 0x1_0000_0000;
    NoBytes(l / 0x1_0000_0000 + q, l / 0x1_0000_0000);
    assert l / 0x100_0000 / 256 == l / 0x1_0000_0000;
    LowBytes(l / 0x100_0000, q, 0);
    assert l / 0x1_0000 / 256 == l / 0x100_0000;
    LowBytes(l / 0x1_0000, 256 * q, 1);
    assert l / 256 / 256 == l / 0x1_0000;
    LowBytes(l / 256, 0x1_0000 * q, 2);
    LowBytes(l, 0x100_0000 * q, 3);
    assert n == l + 256 * (0x100_0000 * q);
  }

  lemma NoBytes(a: nat, b: nat)
    ensures ToLe(a, 0) == ToLe(b, 0)
  {
  }

  /** The entries of a trie are the keys of the lists. */
  ghost predicate Indexes(keys: set<seq<byte>>, bypass: bool, ipv6: bool, lists: PolicyMap) {
    forall key :: key in keys <==> Listed(key, bypass, ipv6, lists)
  }

  ghost predicate Listed(key: seq<byte>, bypass: bool, ipv6: bool, lists: PolicyMap) {
    exists uid :: uid in lists && Entry(bypass, ipv6, key) in ListKeys(bypass, uid, lists[uid])
  }

  lemma QueryIs(env: Env, ctx: seq<byte>, ipv6: bool)
    requires |ctx| >= 24
    ensures var a := Destination(ctx, ipv6);
            DestinationKey(env, ctx, ipv6) == Query(Uid(env), a)
  {
    LowWord(env.uidGid);
  }

  lemma HitIsCovered(keys: set<seq<byte>>, bypass: bool, ipv6: bool, lists: PolicyMap, u: nat, a: seq<byte>)
    requires u < 0x1_0000_0000 && |a| == (if ipv6 then 16 else 4) && Indexes(keys, bypass, ipv6, lists)
    requires LpmHit(keys, Query(u, a))
    ensures u in lists && Covers(lists[u], Bits(a))
  {
    hide ToLe, LpmMatches, LpmKey, Bits, ListKeys;
    var key :| key in keys && LpmMatches(key, Query(u, a));
    assert Listed(key, bypass, ipv6, lists);
    var uid :| uid in lists && Entry(bypass, ipv6, key) in ListKeys(bypass, uid, lists[uid]);
    var i := KeySource(bypass, ipv6, key, uid, lists[uid]);
    LpmKeyMatches(uid, lists[uid][i].net, u, a);
  }

  lemma KeySource(bypass: bool, ipv6: bool, key: seq<byte>, uid: nat, ranges: seq<RangeText>) returns (i: nat)
    requires Entry(bypass, ipv6, key) in ListKeys(bypass, uid, ranges)
    ensures i < |ranges| && ranges[i].Spelled? && Entry(bypass, ipv6, key) == EntryOf(bypass, uid, ranges[i].net)
  {
    i :| 0 <= i < |ranges| && ranges[i].Spelled?
         && Entry(bypass, ipv6, key) == EntryOf(bypass, uid, ranges[i].net);
  }

  lemma CoveredIsHit(keys: set<seq<byte>>, bypass: bool, ipv6: bool, lists: PolicyMap, u: u16, a: seq<byte>)
    requires |a| == (if ipv6 then 16 else 4) && Indexes(keys, bypass, ipv6, lists)
    requires u in lists && Covers(lists[u], Bits(a))
    ensures LpmHit(keys, Query(u, a))
  {
    hide ToLe, LpmMatches, LpmKey, Bits;
    var i :| 0 <= i < |lists[u]| && lists[u][i].Spelled? && lists[u][i].net.Contains(Bits(a));
    var n := lists[u][i].net;
    LpmKeyMatches(u, n, u, a);
    assert EntryOf(bypass, u, n) in ListKeys(bypass, u, lists[u]);
    assert Listed(LpmKey(u, n), bypass, ipv6, lists);
  }

  lemma TrieIndexes(k: Kernel, configs: ConfigMap, policies: PolicyMap, bypass: bool, ipv6: bool)
    requires k.tries == Keys(configs, policies)
    ensures Indexes(TrieKeys(k, bypass, ipv6), bypass, ipv6, if bypass then policies else RangeLists(configs))
  {
    hide EntryOf;
    forall key
      ensures key in TrieKeys(k, bypass, ipv6)
         <==> Listed(key, bypass, ipv6, if bypass then policies else RangeLists(configs))
    {
      TrieKeyIsEntry(k, bypass, ipv6, key);
      OneKind(policies, true, Entry(bypass, ipv6, key));
      OneKind(RangeLists(configs), false, Entry(bypass, ipv6, key));
    }
  }

  lemma TrieKeyIsEntry(k: Kernel, bypass: bool, ipv6: bool, key: seq<byte>)
    ensures key in TrieKeys(k, bypass, ipv6) <==> Entry(bypass, ipv6, key) in k.tries
  {
  }

  lemma OneKind(lists: PolicyMap, bypass: bool, e: Entry)
    ensures e in ListsKeys(bypass, lists) ==> e.bypass == bypass
  {
  }

  /** A trie lookup of a program answers whether the list of the caller covers the destination. */
  lemma TrieAnswers(env: Env, fd: int, keys: set<seq<byte>>, bypass: bool, ctx: seq<byte>, ipv6: bool,
                    lists: PolicyMap)
    requires |ctx| >= 24 && fd in env.maps && IsTrie(env.maps[fd], keys, ipv6)
    requires Indexes(keys, bypass, ipv6, lists)
    ensures Hit(env, fd, DestinationKey(env, ctx, ipv6))
       <==> Uid(env) in lists && Covers(lists[Uid(env)], Bits(Destination(ctx, ipv6)))
  {
    hide Indexes, LpmHit, Covers, ToLe, Bits;
    var u, a := Uid(env), Destination(ctx, ipv6);
    QueryIs(env, ctx, ipv6);
    if LpmHit(keys, Query(u, a)) {
      HitIsCovered(keys, bypass, ipv6, lists, u, a);
    }
    if u in lists && Covers(lists[u], Bits(a)) {
      CoveredIsHit(keys, bypass, ipv6, lists, u, a);
    }
  }

  /**
   The fast form refines the simple one: what a program decides from maps that
   agree with the lists is what the lists of the calling user say.
   */
  lemma MapsRefineLists(env: Env, fds: Fds, ctx: seq<byte>, ipv6: bool, k: Kernel,
                        configs: ConfigMap, policies: PolicyMap)
    requires |ctx| >= 24 && Loaded(env, fds, ipv6, k) && Agrees(k, configs, policies)
    ensures Maps(env, fds, ipv6)
    ensures Marks(env, fds, ctx, ipv6)
       <==> ListMarks(configs, policies, Uid(env), Bits(Destination(ctx, ipv6)), TaskKey(env) in k.pids)
  {
    hide DestinationKey, TaskKey, UidKey, Bits, Covers, Keys, TrieKeys, Indexes, LpmHit, Uid;
    var u, a := Uid(env), Destination(ctx, ipv6);
    TrieIndexes(k, configs, policies, false, ipv6);
    TrieIndexes(k, configs, policies, true, ipv6);
    TrieAnswers(env, fds.bypass, TrieKeys(k, true, ipv6), true, ctx, ipv6, policies);
    TrieAnswers(env, fds.ranges, TrieKeys(k, false, ipv6), false, ctx, ipv6, RangeLists(configs));
    if u in configs && Covers(configs[u].ipRanges, Bits(a)) {
      CoversSome(configs[u].ipRanges, Bits(a));
      ModeRead(env, fds, k, configs, u);
    }
  }

  lemma CoversSome(ranges: seq<RangeText>, address: seq<bool>)
    requires Covers(ranges, address)
    ensures ranges != []
  {
  }

  lemma ModeRead(env: Env, fds: Fds, k: Kernel, configs: ConfigMap, u: u16)
    requires fds.modes in env.maps && env.maps[fds.modes] == HashMap(4, k.modes)
    requires ModesAgree(k.modes, configs) && u in configs && configs[u].HasRules() && u == Uid(env)
    ensures Lookup(env.maps[fds.modes], UidKey(env)).Some?
    ensures FromLe(Lookup(env.maps[fds.modes], UidKey(env)).value) == 0 <==> configs[u].mode == Exclude
  {
    LowWord(env.uidGid);
    LeWord(ModeValue(configs[u].mode));
  }
}

/**
What the kernel holds for the kill-switch bypasses, against what the engine has
on record and in its state file.
*/
module BypassLedger {
  import opened Wrappers
  import opened SplitModel
  import opened Routing
  import opened Store

  /** The commands of the recorded bypasses. */
  ghost function Recorded(bypass: BypassMap): set<Command> {
    set uid, c | uid in bypass && c in Owned(uid, bypass[uid]) :: c
  }

  ghost function OwnedBy(bypass: BypassMap, uid: u16): set<Command> {
    if uid in bypass then Owned(uid, bypass[uid]) else {}
  }

  /** The commands of the bypasses a state file records. */
  ghost function InFile(disk: Option<StoredState>): set<Command> {
    if disk.Some? then Recorded(disk.value.state.bypass) else {}
  }

  ghost predicate IsOurs(c: Command) {
    exists uid: u16 :: BelongsTo(c, uid)
  }

  /** What the kernel holds for bypasses, on record or not. */
  ghost function Ours(held: set<Command>): set<Command> {
    set c | c in held && IsOurs(c)
  }

  /** No command changes but those only the bypass of one user may use. */
  ghost predicate OthersKept(before: set<Command>, uid: u16, after: set<Command>) {
    forall c :: !BelongsTo(c, uid) ==> (c in before <==> c in after)
  }

  lemma RecordedMember(bypass: BypassMap, c: Command)
    ensures c in Recorded(bypass) <==> exists uid :: uid in bypass && c in OwnedBy(bypass, uid)
  {
  }

  lemma RecordedIsOurs(bypass: BypassMap)
    ensures Ours(Recorded(bypass)) == Recorded(bypass)
  {
    hide Owned, BelongsTo;
    forall c | c in Recorded(bypass)
      ensures IsOurs(c)
    {
      var uid :| uid in bypass && c in Owned(uid, bypass[uid]);
      OwnedBelongs(uid, bypass[uid]);
    }
  }

  lemma WithoutUser(bypass: BypassMap, uid: u16)
    ensures Recorded(bypass - {uid}) == Recorded(bypass) - OwnedBy(bypass, uid)
  {
    hide Owned, BelongsTo;
    var less := bypass - {uid};
    forall other | other in bypass && other != uid
      ensures OwnedBy(bypass, other) !! OwnedBy(bypass, uid)
    {
      OwnedBelongs(other, bypass[other]);
      if uid in bypass {
        OwnedBelongs(uid, bypass[uid]);
      }
      forall c | c in OwnedBy(bypass, other)
        ensures c !in OwnedBy(bypass, uid)
      {
        BelongsToOne(c, uid, other);
      }
    }
    forall c
      ensures c in Recorded(less) <==> c in Recorded(bypass) - OwnedBy(bypass, uid)
    {
      RecordedMember(less, c);
      RecordedMember(bypass, c);
      if other :| other in bypass && c in OwnedBy(bypass, other) && other != uid {
        assert other in less && c in OwnedBy(less, other);
      }
    }
  }

  lemma WithUser(bypass: BypassMap, uid: u16, routes: seq<PhysicalRoute>)
    requires uid !in bypass
    ensures Recorded(bypass[uid := routes]) == Recorded(bypass) + Owned(uid, routes)
  {
    hide Owned;
    var more := bypass[uid := routes];
    forall c
      ensures c in Recorded(more) <==> c in Recorded(bypass) + Owned(uid, routes)
    {
      RecordedMember(more, c);
      RecordedMember(bypass, c);
      if c in Owned(uid, routes) {
        assert uid in more && c in OwnedBy(more, uid);
      }
      if other :| other in bypass && c in OwnedBy(bypass, other) {
        assert other in more && c in OwnedBy(more, other);
      }
    }
  }

  /** Taking commands of one user out of the kernel, or putting some in, changes nothing of others. */
  lemma OnlyOf(before: set<Command>, uid: u16, routes: seq<PhysicalRoute>, after: set<Command>)
    requires before - Owned(uid, routes) <= after <= before + Owned(uid, routes)
    ensures OthersKept(before, uid, after)
  {
    hide Owned;
    OwnedBelongs(uid, routes);
  }

  lemma OursAlgebra(a: set<Command>, b: set<Command>)
    ensures Ours(a + b) == Ours(a) + Ours(b) && Ours(a - b) == Ours(a) - Ours(b)
    ensures a <= b ==> Ours(a) <= Ours(b)
  {
    hide IsOurs;
  }

  lemma OwnedIsOurs(uid: u16, routes: seq<PhysicalRoute>)
    ensures Ours(Owned(uid, routes)) == Owned(uid, routes)
  {
    hide Owned, BelongsTo;
    OwnedBelongs(uid, routes);
  }

  // ----- what a failure or a crash may leave behind -----

  /**
   A bypass that is in the kernel and not in the file, as between its
   installation and the saving of the record, is not among what a restart
   takes out.
   */
  lemma UnsavedBypassIsForgotten(held: set<Command>, disk: Option<StoredState>, uid: u16, routes: seq<PhysicalRoute>)
    requires routes != [] && Owned(uid, routes) <= held
    requires disk.Some? ==> uid !in disk.value.state.bypass
    ensures Owned(uid, routes) != {} && Owned(uid, routes) !! InFile(disk)
    ensures !(Ours(held) <= InFile(disk))
  {
    hide Owned, BelongsTo, Ours;
    MarkedTrafficBypasses(uid, routes, 0);
    CommandsMember(OwnedRoutes(uid, routes), OwnedRules(uid, routes));
    OwnedCommands(uid, routes);
    var c := OfRule(RuleSpec(uid, routes[0].family));
    assert Among(c, OwnedRoutes(uid, routes), OwnedRules(uid, routes));
    OwnedBelongs(uid, routes);
    OwnedIsOurs(uid, routes);
    OursAlgebra(Owned(uid, routes), held);
    forall c | c in InFile(disk)
      ensures c !in Owned(uid, routes)
    {
      var recorded := disk.value.state.bypass;
      var other :| other in recorded && c in Owned(other, recorded[other]);
      OwnedBelongs(other, recorded[other]);
      BelongsToOne(c, uid, other);
    }
  }

  lemma OwnedCommands(uid: u16, routes: seq<PhysicalRoute>)
    ensures Owned(uid, routes) == Commands(OwnedRoutes(uid, routes), OwnedRules(uid, routes))
  {
  }

  lemma BelongsToOne(c: Command, uid: u16, other: u16)
    requires uid != other
    ensures !(BelongsTo(c, uid) && BelongsTo(c, other))
  {
  }

  function CommandFamily(c: Command): AddressFamily {
    match c
    case OfRoute(r) => r.family
    case OfRule(r) => r.family
  }

  /** The kernel holds nothing else for a user, in the families of `routes`, than what is expected. */
  ghost predicate NothingLeft(held: set<Command>, uid: u16, routes: seq<PhysicalRoute>, expected: set<Command>) {
    forall c :: c in held && BelongsTo(c, uid) && CommandFamily(c) in Families(routes) ==> c in expected
  }

  /** Anything left of a bypass keeps the tables of its family from being used again. */
  lemma LeftoverBlocks(routes: set<Route>, rules: set<Rule>, uid: u16, c: Command)
    requires c in Commands(routes, rules) && BelongsTo(c, uid)
    ensures !Free(routes, rules, uid, CommandFamily(c))
  {
    match c
    case OfRoute(r) => assert r in TableRoutes(routes, uid, r.family);
    case OfRule(r) => assert r in PriorityRules(rules, uid, r.family);
  }

  /**
   A bypass that was installed, could not be saved, and is taken out again: all
   that the kernel holds is on record exactly when the removal runs to its end.
   */
  lemma StoppedUndo(base: set<Command>, bypass: BypassMap, uid: u16, routes: seq<PhysicalRoute>, n: nat)
    requires uid !in bypass && DistinctFamilies(routes) && n <= |RemovalOrder(uid, routes)|
    requires Ours(base) <= Recorded(bypass)
    ensures Ours(base + Owned(uid, routes) - First(RemovalOrder(uid, routes), n)) <= Recorded(bypass)
       <==> n == |RemovalOrder(uid, routes)|
  {
    hide Owned, Recorded, Ours, RemovalOrder, DistinctFamilies, First;
    var order := RemovalOrder(uid, routes);
    var all := base + Owned(uid, routes);
    StoppedRemovalLeaves(all, uid, routes, n);
    RemovalCovers(uid, routes);
    OwnedIsOurs(uid, routes);
    OursAlgebra(base, Owned(uid, routes));
    OursAlgebra(all, First(order, n));
    Apart(bypass, uid, routes);
    if n < |order| {
      var c :| c in all - First(order, n) && c in Owned(uid, routes);
      FirstIsOurs(uid, routes, n);
      assert c in Ours(all - First(order, n));
    }
  }

  const ONE_ROUTE := PhysicalRoute(Ipv4, None, "eth0")

  /**
   The failing inputs: the bypass of one user over one route. After an undo that
   fails at its first command, and after a crash before the record is saved,
   the kernel holds it without any record; and while it does, the table of the
   user is not free.
   */
  lemma BypassLeftBehind(uid: u16)
    ensures var routes := [ONE_ROUTE];
            && !(Ours({} + Owned(uid, routes) - First(RemovalOrder(uid, routes), 0)) <= Recorded(map[]))
            && !(Ours(Owned(uid, routes)) <= InFile(Saved(State(map[], map[], map[]))))
            && !Free(OwnedRoutes(uid, routes), OwnedRules(uid, routes), uid, Ipv4)
  {
    hide Owned, Recorded, RemovalOrder, First, InFile;
    var routes := [ONE_ROUTE];
    assert Ours({}) == {};
    MarkedTrafficBypasses(uid, routes, 0);
    RemovalCovers(uid, routes);
    UnsavedBypassIsForgotten(Owned(uid, routes), Saved(State(map[], map[], map[])), uid, routes);
    FirstNothing(RemovalOrder(uid, routes));
    StoppedUndo({}, map[], uid, routes, 0);
    assert RuleSpec(uid, Ipv4) in PriorityRules(OwnedRules(uid, routes), uid, Ipv4);
  }

  lemma Apart(bypass: BypassMap, uid: u16, routes: seq<PhysicalRoute>)
    requires uid !in bypass
    ensures Recorded(bypass) !! Owned(uid, routes)
  {
    hide Owned, BelongsTo;
    OwnedBelongs(uid, routes);
    forall c | c in Recorded(bypass)
      ensures c !in Owned(uid, routes)
    {
      var other :| other in bypass && c in Owned(other, bypass[other]);
      OwnedBelongs(other, bypass[other]);
      BelongsToOne(c, uid, other);
    }
  }

  lemma FirstIsOurs(uid: u16, routes: seq<PhysicalRoute>, n: nat)
    requires n <= |RemovalOrder(uid, routes)|
    ensures Ours(First(RemovalOrder(uid, routes), n)) == First(RemovalOrder(uid, routes), n)
    ensures First(RemovalOrder(uid, routes), n) <= Owned(uid, routes)
  {
    hide Owned, RemovalOrder, BelongsTo;
    FirstOwned(uid, routes, n);
    OwnedBelongs(uid, routes);
  }

  lemma OwnedIsRecorded(bypass: BypassMap, uid: u16)
    ensures OwnedBy(bypass, uid) <= Recorded(bypass)
  {
    hide Owned;
  }

  lemma RecordedNone()
    ensures Recorded(map[]) == {}
  {
  }

  lemma RecordedPart(bypass: BypassMap, without: set<u16>)
    ensures Recorded(bypass - without) <= Recorded(bypass)
  {
    hide Owned;
    var part := bypass - without;
    forall c | c in Recorded(part)
      ensures c in Recorded(bypass)
    {
      var uid :| uid in part && c in Owned(uid, part[uid]);
      assert uid in bypass && part[uid] == bypass[uid];
    }
  }

  lemma InFileIsOurs(disk: Option<StoredState>)
    ensures Ours(InFile(disk)) == InFile(disk)
  {
    hide Recorded, IsOurs;
    if disk.Some? {
      RecordedIsOurs(disk.value.state.bypass);
    }
  }

  /** What a restart leaves in the kernel. */
  lemma RestartLeaves(held: set<Command>, disk: Option<StoredState>)
    ensures Ours(held - InFile(disk)) == {} <==> Ours(held) <= InFile(disk)
  {
    hide Ours, InFile;
    OursAlgebra(held, InFile(disk));
    InFileIsOurs(disk);
    var ours, recorded := Ours(held), InFile(disk);
    assert Ours(held - recorded) == ours - recorded;
    if ours - recorded == {} {
      assert forall c :: c in ours ==> c !in ours - recorded;
    }
  }

  lemma KeptTogether(before: set<Command>, between: set<Command>, after: set<Command>, uid: u16)
    requires OthersKept(before, uid, between) && OthersKept(between, uid, after)
    ensures OthersKept(before, uid, after)
  {
    hide BelongsTo;
  }

  /** The sets after an undo. */
  lemma Undone(base: set<Command>, bypass: BypassMap, uid: u16, routes: seq<PhysicalRoute>, n: nat)
    requires uid !in bypass && DistinctFamilies(routes) && n <= |RemovalOrder(uid, routes)|
    ensures var after := base + Owned(uid, routes) - First(RemovalOrder(uid, routes), n);
            && (Recorded(bypass) <= base ==> Recorded(bypass) <= after)
            && base - Owned(uid, routes) <= after <= base + Owned(uid, routes)
            && (Ours(base) <= Recorded(bypass) ==>
                  (Ours(after) <= Recorded(bypass) <==> n == |RemovalOrder(uid, routes)|))
  {
    hide Owned, Recorded, Ours, RemovalOrder, First;
    Apart(bypass, uid, routes);
    FirstIsOurs(uid, routes, n);
    if Ours(base) <= Recorded(bypass) {
      StoppedUndo(base, bypass, uid, routes, n);
    }
  }

  /** Whatever more the kernel holds for a user without a recorded bypass is not on record. */
  lemma LeftUnrecorded(base: set<Command>, bypass: BypassMap, uid: u16, routes: seq<PhysicalRoute>, after: set<Command>)
    requires uid !in bypass && base <= after <= base + Owned(uid, routes)
    ensures Ours(base) <= Recorded(bypass) ==> (Ours(after) <= Recorded(bypass) <==> after == base)
  {
    hide Owned, Recorded, Ours;
    Apart(bypass, uid, routes);
    OwnedIsOurs(uid, routes);
    OursAlgebra(base, after - base);
    OursAlgebra(after - base, Owned(uid, routes));
    assert base + (after - base) == after;
    OursOfPart(after - base, Owned(uid, routes));
    if after != base {
      var c :| c in after - base;
    }
  }

  lemma OursOfPart(part: set<Command>, whole: set<Command>)
    requires part <= whole && Ours(whole) == whole
    ensures Ours(part) == part
  {
    hide IsOurs;
    assert forall c :: c in part ==> c in Ours(whole);
  }
}

/**
What each change of an account leaves alone: the other entries, their order,
the profiles and the default connection. An entry only ever gives way to six
unpinned entries that are no older.
*/
module RecentsFrames {
  import opened Wrappers
  import opened Recents

  /** Pinned entries from the first pinned, then the others from the newest. */
  ghost predicate InOrder(recents: seq<Recent>) {
    forall i, j :: 0 <= i < j < |recents| ==>
      && (recents[j].pinned ==> recents[i].pinned && recents[i].pinTime <= recents[j].pinTime)
      && (!recents[i].pinned ==> !recents[j].pinned && recents[j].lastTime <= recents[i].lastTime)
  }

  /** Six unpinned entries, none of them older, leave no room for this one. */
  ghost predicate Crowded(x: Recent, recents: seq<Recent>) {
    && !x.pinned && |recents| >= 6
    && forall i :: |recents| - 6 <= i < |recents| ==> !recents[i].pinned && x.lastTime <= recents[i].lastTime
  }

  ghost predicate AtMostSix(recents: seq<Recent>) {
    forall i :: 0 <= i < |recents| - 6 ==> recents[i].pinned
  }

  lemma OrderedMeans(recents: seq<Recent>)
    ensures Ordered(recents) <==> InOrder(recents)
  {
    if InOrder(recents) {
      forall i, j | 0 <= i < j < |recents| ensures Before(recents[i], recents[j]) {
      }
    }
    if Ordered(recents) {
      forall i, j | 0 <= i < j < |recents|
        ensures recents[j].pinned ==> recents[i].pinned && recents[i].pinTime <= recents[j].pinTime
        ensures !recents[i].pinned ==> !recents[j].pinned && recents[j].lastTime <= recents[i].lastTime
      {
        assert Before(recents[i], recents[j]);
      }
    }
  }

  /** Trimming drops an entry only when six others take its room. */
  lemma TrimmingDrops(recents: seq<Recent>)
    requires Apart(recents)
    ensures InOrder(Trimmed(recents)) && AtMostSix(Trimmed(recents))
    ensures forall x :: x in Trimmed(recents) ==> x in recents
    ensures forall x :: x in recents && x !in Trimmed(recents) ==> Crowded(x, Trimmed(recents))
  {
    hide Sorted, Keep, Key, Before, Crowded;
    var p, u := Sorted(Keep(recents, IsPinned())), Sorted(Keep(recents, IsUnpinned()));
    var v := Truncated(u);
    Halves(recents);
    TrimmedMeans(recents);
    OrderedMeans(Trimmed(recents));
    assert Trimmed(recents) == p + v;
    SixRemain(p, v);
    forall x | x in recents && x !in p + v
      ensures Crowded(x, p + v)
    {
      assert multiset(recents)[x] == 1;
      DroppedIsCrowded(p, u, v, x);
    }
  }

  lemma SixRemain(p: seq<Recent>, v: seq<Recent>)
    requires AllPinned(p, true) && |v| <= 6
    ensures AtMostSix(p + v)
  {
  }

  lemma DroppedIsCrowded(p: seq<Recent>, u: seq<Recent>, v: seq<Recent>, x: Recent)
    requires v == Truncated(u) && Ordered(u) && AllPinned(u, false)
    requires x !in p + v && multiset(p)[x] + multiset(u)[x] == 1
    ensures Crowded(x, p + v)
  {
    assert x !in p && x !in v;
    assert x in multiset(u);
    var k :| 0 <= k < |u| && u[k] == x;
    assert v == u[..6] && k >= 6;
    var t := p + v;
    forall i | |t| - 6 <= i < |t| ensures !t[i].pinned && x.lastTime <= t[i].lastTime {
      var j := i - |p|;
      assert t[i] == u[j] && u[j] in u && Before(u[j], u[k]);
    }
  }

  /** The fields that tell the targets of a kind apart. */
  ghost predicate SamePlace(a: Target, b: Target) {
    && a.kind == b.kind
    && (a.kind == "profile" ==> a.profileId == b.profileId)
    && (a.kind in ["gateway", "gatewayServer"] ==> a.gatewayName == b.gatewayName && a.serverName == b.serverName)
    && (a.kind !in ["profile", "gateway", "gatewayServer"] ==>
          && a.feature == b.feature && a.entryCountryCode == b.entryCountryCode && a.countryCode == b.countryCode
          && a.state == b.state && a.city == b.city && a.serverName == b.serverName)
  }

  /** Without colons in their fields, targets have the same key exactly when they are the same place. */
  lemma KeyIsPlace(a: Target, b: Target)
    requires forall f :: f in KeyFields(a) + KeyFields(b) ==> NoColon(f)
    ensures Key(a) == Key(b) <==> SamePlace(a, b)
  {
    hide Key;
    KeyIdentifies(a, b);
    var x, y := KeyFields(a), KeyFields(b);
    assert x[0] == a.kind && y[0] == b.kind;
  }

  /** The default connection stays unless what it names is gone. */
  ghost predicate DefaultChecked(before: Default, b: Account) {
    b.default == if DefaultValid(b.(default := before)) then before else Fastest
  }

  /** The entry of a recording, by what it takes over from the entry it replaces. */
  ghost predicate TakesOver(r: Recent, recents: seq<Recent>, t: Target, freshId: string) {
    && (forall x :: x in recents && Key(x.target) == Key(t) ==>
          r.id == x.id && r.pinned == x.pinned && r.pinTime == x.pinTime)
    && ((forall x :: x in recents ==> Key(x.target) != Key(t)) ==> r.id == freshId && !r.pinned && r.pinTime == 0)
  }

  /**
   A recording is refused exactly for a target that makes no sense or a profile
   that does not exist. It puts one entry in front of the entries of other
   targets; of those none is lost but to six unpinned ones that are no older.
   */
  lemma RecordFrame(a: Account, t: Target, now: nat, freshId: string)
    requires Kept(a) && (forall x :: x in a.recents ==> x.id != freshId)
    ensures Recorded(a, t, now, freshId).None?
       <==> !ValidTarget(t) || (t.kind == "profile" && t.profileId !in a.profiles)
    ensures Recorded(a, t, now, freshId).Some? ==>
              var b := Recorded(a, t, now, freshId).value;
              && b.profiles == a.profiles && DefaultChecked(a.default, b)
              && InOrder(b.recents) && AtMostSix(b.recents)
              && exists r :: && r in b.recents && r.target == t && r.lastTime >= now && TakesOver(r, a.recents, t, freshId)
                   && (forall x :: x in b.recents && x != r ==> x in a.recents && Key(x.target) != Key(t))
                   && forall x :: x in a.recents && Key(x.target) != Key(t) ==> x in b.recents || Crowded(x, b.recents)
  {
    hide Key, Trimmed, Keep, Before, Apart, Ordered, IndexOf, NewestTime, InOrder, AtMostSix, Crowded, ValidTarget;
    if Recorded(a, t, now, freshId).Some? {
      var r, kept := NewEntry(a, t, now, freshId), Keep(a.recents, OtherKey(Key(t)));
      NewEntryApart(a, t, now, freshId);
      TrimmingDrops([r] + kept);
      RecordKeeps(a, t, now, freshId);
      NewEntryTakesOver(a, t, now, freshId);
      assert forall x :: x in [r] + kept <==> x == r || x in kept;
    }
  }

  lemma NewEntryTakesOver(a: Account, t: Target, now: nat, freshId: string)
    requires Apart(a.recents)
    ensures TakesOver(NewEntry(a, t, now, freshId), a.recents, t, freshId)
  {
    hide Key, Keep, NewestTime;
    var i := IndexOf(a.recents, SameKey(Key(t)));
    if i < |a.recents| {
      assert a.recents[i] in a.recents;
    }
  }

  /** Setting or taking a pin changes that entry alone, and nothing but its pin. */
  lemma PinFrame(a: Account, id: string, pinned: bool, now: nat)
    requires Kept(a)
    ensures Pinned(a, id, pinned, now).None? <==> forall x :: x in a.recents ==> x.id != id
    ensures Pinned(a, id, pinned, now).Some? ==>
              var b := Pinned(a, id, pinned, now).value;
              && b.profiles == a.profiles && b.default == a.default
              && InOrder(b.recents) && AtMostSix(b.recents)
              && (forall x :: x in a.recents && x.id != id ==> x in b.recents || Crowded(x, b.recents))
              && (forall x :: x in b.recents && x.id != id ==> x in a.recents)
              && (forall x :: x in a.recents && x.id == id ==>
                    var y := Recent(id, x.target, pinned, if pinned then now else 0, x.lastTime);
                    y in b.recents || Crowded(y, b.recents))
  {
    hide Key, Trimmed, Keep, Before, InOrder, AtMostSix, Crowded, ValidTarget;
    var i := IndexOf(a.recents, SameId(id));
    if i < |a.recents| {
      assert a.recents[i] in a.recents;
      var r := a.recents[i].(pinned := pinned, pinTime := if pinned then now else 0);
      var updated := a.recents[i := r];
      DistinctIsApart(a.recents);
      UpdateApart(a.recents, i, r);
      DistinctIsApart(updated);
      TrimmingDrops(updated);
      forall x | x in a.recents && x.id != id ensures x in updated {
        var k :| 0 <= k < |a.recents| && a.recents[k] == x;
        assert updated[k] == x;
      }
      assert updated[i] in updated;
    }
  }

  /** Deleting an entry, and deleting a profile with its entries, touches nothing else. */
  lemma DeleteFrame(a: Account, id: string)
    requires Kept(a)
    ensures var b := WithoutRecent(a, id);
            && b.profiles == a.profiles && DefaultChecked(a.default, b) && InOrder(b.recents)
            && forall x :: x in b.recents <==> x in a.recents && x.id != id
    ensures var b := WithoutProfile(a, id);
            && (forall p :: p in b.profiles <==> p in a.profiles && p != id)
            && DefaultChecked(a.default, b) && InOrder(b.recents)
            && forall x :: x in b.recents <==>
                 x in a.recents && (x.target.kind == "profile" ==> x.target.profileId != id)
  {
    hide Key, Before, ValidTarget;
    DeleteKeeps(a, id);
    DeleteProfileKeeps(a, id);
    OrderedMeans(WithoutRecent(a, id).recents);
    OrderedMeans(WithoutProfile(a, id).recents);
  }

  // ----- what is connected to -----

  /** The connection asks for the place, the server and the feature of the target, each in its own field. */
  ghost predicate AsksFor(request: Request, t: Target) {
    && request.countryCode == t.countryCode && request.entryCountryCode == t.entryCountryCode
    && request.state == t.state && request.city == t.city
    && request.serverName == t.serverName && request.gatewayName == t.gatewayName
    && (t.kind in ["country", "state", "city"] ==>
          && (request.p2p <==> t.feature == "p2p") && (request.tor <==> t.feature == "tor")
          && (request.secureCore <==> t.feature == "secure_core"))
    && (t.kind !in ["country", "state", "city"] ==>
          !request.p2p && (request.tor <==> t.kind == "tor") && (request.secureCore <==> t.kind == "secureCore"))
  }

  ghost predicate LeadsTo(r: Resolution, t: Target) {
    if t.kind == "profile" then r == ToProfile(t.profileId) else r.ToTarget? && AsksFor(r.request, t)
  }

  /** Every entry of an account that is in order, chosen by its identifier, leads to its own target. */
  lemma RecentLeadsThere(a: Account, x: Recent)
    requires Kept(a) && x in a.recents
    ensures LeadsTo(Resolved(a, RecentRef(x.id)), x.target)
  {
    hide Key, Before, Ordered, ValidTarget;
    var i := IndexOf(a.recents, SameId(x.id));
    assert a.recents[i] in a.recents;
  }

  /**
   After a recording, and after any pins and deletions that do not remove its
   entry, the last connection leads to the recorded target.
   */
  lemma LastLeadsThere(a: Account, t: Target, now: nat, freshId: string, changes: seq<Change>)
    requires Kept(a) && (forall x :: x in a.recents ==> x.id != freshId)
    requires Recorded(a, t, now, freshId).Some?
    requires forall c :: c in changes ==> !Removes(c, NewEntry(a, t, now, freshId))
    ensures LeadsTo(Resolved(AfterChanges(Recorded(a, t, now, freshId).value, changes), Last), t)
  {
    hide Kept, Recorded, NewEntry, Resolved, AfterChanges, Removes;
    LastIsRecorded(a, t, now, freshId, changes);
  }

  /** A default that passed the check leads somewhere; without a connection, the last one is any. */
  lemma CheckedDefaultLeads(a: Account)
    requires Kept(a) && DefaultValid(a)
    ensures !Resolved(a, a.default).Unresolved?
    ensures a.recents == [] ==> Resolved(a, Last) == Everywhere(false)
    ensures Resolved(a, Fastest) == Everywhere(false) && Resolved(a, RandomDefault) == Everywhere(true)
  {
    hide Key, Before, Ordered, ValidTarget;
    match a.default
    case RecentRef(id) =>
      var i :| 0 <= i < |a.recents| && a.recents[i].id == id;
      RecentLeadsThere(a, a.recents[i]);
    case Last =>
      if a.recents != [] {
        var r := MostRecent(a.recents).value;
        assert r in a.recents;
      }
    case _ =>
  }
}

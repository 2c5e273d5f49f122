/**
The recent connections of an account: what is kept, in which order, and what
the default connection resolves to.
*/
module Recents {
  import opened Wrappers

  const MAX_UNPINNED_RECENTS := 6

  /** A recent target after normalisation; absent fields are empty. */
  datatype Target = Target(kind: string, feature: string, profileId: string, gatewayName: string, serverName: string,
                           entryCountryCode: string, countryCode: string, state: string, city: string)

  datatype Recent = Recent(id: string, target: Target, pinned: bool, pinTime: nat, lastTime: nat)

  datatype Default = Fastest | RandomDefault | Last | RecentRef(recentId: string) | ProfileRef(profileId: string)

  datatype Account = Account(profiles: seq<string>, recents: seq<Recent>, default: Default)

  predicate Located(kind: string) { kind == "country" || kind == "state" || kind == "city" }

  /** What recording accepts. */
  predicate ValidTarget(t: Target) {
    if t.kind == "profile" then t.profileId != ""
    else if t.kind == "gateway" then t.gatewayName != ""
    else if t.kind == "gatewayServer" then t.gatewayName != "" && t.serverName != ""
    else if t.kind == "secureCore" then t.serverName != "" || (t.countryCode != "" && t.entryCountryCode != "")
    else if t.kind == "server" || t.kind == "tor" then t.serverName != ""
    else if t.kind == "country" then t.countryCode != ""
    else if t.kind == "state" then t.countryCode != "" && t.state != ""
    else t.kind == "city" && t.countryCode != "" && t.city != ""
  }

  // ----- identity -----

  function Joined(fields: seq<string>): string {
    if fields == [] then "" else if |fields| == 1 then fields[0] else fields[0] + ":" + Joined(fields[1..])
  }

  function KeyFields(t: Target): (fields: seq<string>)
    ensures |fields| in {2, 3, 7} && fields[0] == t.kind
  {
    if t.kind == "profile" then [t.kind, t.profileId]
    else if t.kind == "gateway" || t.kind == "gatewayServer" then [t.kind, t.gatewayName, t.serverName]
    else [t.kind, t.feature, t.entryCountryCode, t.countryCode, t.state, t.city, t.serverName]
  }

  function Key(t: Target): string { Joined(KeyFields(t)) }

  predicate NoColon(s: string) { ':' !in s }

  /** Up to its first colon a joined text is its first field. */
  lemma {:induction false} JoinedInjective(a: seq<string>, b: seq<string>)
    requires a != [] && b != [] && Joined(a) == Joined(b)
    requires forall i :: 0 <= i < |a| ==> NoColon(a[i])
    requires forall i :: 0 <= i < |b| ==> NoColon(b[i])
    ensures a == b
  {
    if |a| == 1 || |b| == 1 {
      SingleField(a, b);
    } else {
      var x, y := a[0], b[0];
      var rest, other := Joined(a[1..]), Joined(b[1..]);
      assert x + ":" + rest == y + ":" + other;
      FirstColon(x, rest, y, other);
      JoinedInjective(a[1..], b[1..]);
      assert a == [x] + a[1..] && b == [y] + b[1..];
    }
  }

  lemma HasColon(fields: seq<string>)
    ensures |fields| > 1 ==> ':' in Joined(fields)
    ensures |fields| == 1 ==> Joined(fields) == fields[0]
  {
    if |fields| > 1 {
      assert Joined(fields)[|fields[0]|] == ':';
    }
  }

  lemma SingleField(a: seq<string>, b: seq<string>)
    requires a != [] && b != [] && Joined(a) == Joined(b) && (|a| == 1 || |b| == 1)
    requires forall i :: 0 <= i < |a| ==> NoColon(a[i])
    requires forall i :: 0 <= i < |b| ==> NoColon(b[i])
    ensures a == b
  {
    hide Joined;
    HasColon(a);
    HasColon(b);
  }

  lemma FirstColon(x: string, rest: string, y: string, other: string)
    requires NoColon(x) && NoColon(y) && x + ":" + rest == y + ":" + other
    ensures x == y && rest == other
  {
    var all := x + ":" + rest;
    assert all[|x|] == ':' && (y + ":" + other)[|y|] == ':';
    assert x == all[..|x|] && y == all[..|y|] && rest == all[|x| + 1..] && other == all[|y| + 1..];
  }

  /** Targets whose fields hold no colon have the same key exactly when the key's fields are the same. */
  lemma KeyIdentifies(a: Target, b: Target)
    requires forall f :: f in KeyFields(a) ==> NoColon(f)
    requires forall f :: f in KeyFields(b) ==> NoColon(f)
    ensures Key(a) == Key(b) <==> KeyFields(a) == KeyFields(b)
  {
    if Key(a) == Key(b) {
      assert forall i :: 0 <= i < |KeyFields(a)| ==> KeyFields(a)[i] in KeyFields(a);
      assert forall i :: 0 <= i < |KeyFields(b)| ==> KeyFields(b)[i] in KeyFields(b);
      JoinedInjective(KeyFields(a), KeyFields(b));
    }
  }

  /** With a colon in a name two different targets can share a key, and so replace each other. */
  lemma ColonCollides()
    ensures var a := Target("gateway", "all", "", "a:b", "c", "", "", "", "");
            var b := Target("gateway", "all", "", "a", "b:c", "", "", "", "");
            Key(a) == Key(b) && KeyFields(a) != KeyFields(b)
  {
    var a, b := ["gateway", "a:b", "c"], ["gateway", "a", "b:c"];
    assert a[1..] == ["a:b", "c"] && a[1..][1..] == ["c"] && b[1..] == ["a", "b:c"] && b[1..][1..] == ["b:c"];
    assert Joined(a) == "gateway" + ":" + ("a:b" + ":" + "c");
    assert Joined(b) == "gateway" + ":" + ("a" + ":" + "b:c");
  }

  // ----- trimming -----

  function Keep(recents: seq<Recent>, p: Recent -> bool): (r: seq<Recent>)
    ensures |r| <= |recents| && forall x :: x in r <==> x in recents && p(x)
  {
    if recents == [] then []
    else
      var init, last := Keep(recents[..|recents| - 1], p), recents[|recents| - 1];
      assert recents == recents[..|recents| - 1] + [last];
      if p(last) then init + [last] else init
  }

  function IsPinned(): Recent -> bool { (r: Recent) => r.pinned }
  function IsUnpinned(): Recent -> bool { (r: Recent) => !r.pinned }
  function OtherId(id: string): Recent -> bool { (r: Recent) => r.id != id }
  function OtherKey(key: string): Recent -> bool { (r: Recent) => Key(r.target) != key }
  function NotProfile(id: string): Recent -> bool {
    (r: Recent) => !(r.target.kind == "profile" && r.target.profileId == id)
  }

  /** Pinned entries by pin time, unpinned ones from the newest. */
  predicate Before(a: Recent, b: Recent) {
    if a.pinned then !b.pinned || a.pinTime <= b.pinTime else !b.pinned && a.lastTime >= b.lastTime
  }

  /** Inserts after every entry that may stay before it: a stable insertion. */
  function Inserted(sorted: seq<Recent>, r: Recent): seq<Recent> {
    if sorted == [] || Before(sorted[|sorted| - 1], r) then sorted + [r]
    else Inserted(sorted[..|sorted| - 1], r) + [sorted[|sorted| - 1]]
  }

  function Sorted(recents: seq<Recent>): seq<Recent> {
    if recents == [] then [] else Inserted(Sorted(recents[..|recents| - 1]), recents[|recents| - 1])
  }

  function Truncated(recents: seq<Recent>): seq<Recent> {
    if |recents| <= MAX_UNPINNED_RECENTS then recents else recents[..MAX_UNPINNED_RECENTS]
  }

  function Trimmed(recents: seq<Recent>): seq<Recent> {
    Sorted(Keep(recents, IsPinned())) + Truncated(Sorted(Keep(recents, IsUnpinned())))
  }

  ghost predicate Ordered(recents: seq<Recent>) {
    forall i, j :: 0 <= i < j < |recents| ==> Before(recents[i], recents[j])
  }

  ghost predicate AllPinned(recents: seq<Recent>, pinned: bool) {
    forall r :: r in recents ==> r.pinned == pinned
  }

  lemma {:induction false} InsertedCount(sorted: seq<Recent>, r: Recent)
    ensures multiset(Inserted(sorted, r)) == multiset(sorted) + multiset{r}
  {
    hide Before;
    if sorted != [] && !Before(sorted[|sorted| - 1], r) {
      InsertedCount(sorted[..|sorted| - 1], r);
      assert sorted == sorted[..|sorted| - 1] + [sorted[|sorted| - 1]];
    }
  }

  lemma InsertedMembers(sorted: seq<Recent>, r: Recent)
    ensures forall x :: x in Inserted(sorted, r) ==> x in sorted || x == r
  {
    InsertedCount(sorted, r);
    forall x | x in Inserted(sorted, r)
      ensures x in sorted || x == r
    {
      assert x in multiset(Inserted(sorted, r));
    }
  }

  lemma {:induction false} InsertedMeans(sorted: seq<Recent>, r: Recent)
    requires Ordered(sorted) && AllPinned(sorted, r.pinned)
    ensures Ordered(Inserted(sorted, r)) && AllPinned(Inserted(sorted, r), r.pinned)
  {
    InsertedMembers(sorted, r);
    if sorted == [] {
    } else if Before(sorted[|sorted| - 1], r) {
      assert sorted[|sorted| - 1] in sorted;
      assert forall i :: 0 <= i < |sorted| ==> sorted[i] in sorted;
    } else {
      var init, last := sorted[..|sorted| - 1], sorted[|sorted| - 1];
      assert last in sorted && forall x :: x in init ==> x in sorted;
      InsertedMeans(init, r);
      InsertedMembers(init, r);
      forall x | x in Inserted(init, r)
        ensures Before(x, last)
      {
        if x != r {
          var i :| 0 <= i < |init| && init[i] == x;
          assert Before(sorted[i], sorted[|sorted| - 1]);
        }
      }
    }
  }

  /** Sorting keeps the entries and orders them. */
  lemma {:induction false} SortedMeans(recents: seq<Recent>, pinned: bool)
    requires AllPinned(recents, pinned)
    ensures Ordered(Sorted(recents)) && multiset(Sorted(recents)) == multiset(recents)
    ensures AllPinned(Sorted(recents), pinned)
  {
    if recents != [] {
      var init, last := recents[..|recents| - 1], recents[|recents| - 1];
      assert recents == init + [last] && last in recents && forall x :: x in init ==> x in recents;
      SortedMeans(init, pinned);
      InsertedMeans(Sorted(init), last);
      InsertedCount(Sorted(init), last);
    }
  }

  lemma {:induction false} KeepCounts(recents: seq<Recent>, p: Recent -> bool)
    ensures forall x :: multiset(Keep(recents, p))[x] == if p(x) then multiset(recents)[x] else 0
  {
    if recents != [] {
      var init, last := recents[..|recents| - 1], recents[|recents| - 1];
      assert recents == init + [last];
      KeepCounts(init, p);
    }
  }

  // ----- what every account keeps -----

  ghost predicate Distinct(recents: seq<Recent>) {
    forall i, j :: 0 <= i < j < |recents| ==>
      && recents[i].id != recents[j].id
      && Key(recents[i].target) != Key(recents[j].target)
  }

  ghost predicate ProfilesExist(a: Account) {
    forall r :: r in a.recents && r.target.kind == "profile" ==> r.target.profileId in a.profiles
  }

  predicate DefaultValid(a: Account) {
    match a.default
    case RecentRef(id) => exists i :: 0 <= i < |a.recents| && a.recents[i].id == id
    case ProfileRef(id) => id in a.profiles
    case _ => true
  }

  ghost predicate Kept(a: Account) {
    && Apart(a.recents) && Ordered(a.recents) && ProfilesExist(a)
    && |Keep(a.recents, IsUnpinned())| <= MAX_UNPINNED_RECENTS
    && forall r :: r in a.recents ==> ValidTarget(r.target)
  }

  ghost predicate Newest(recents: seq<Recent>, r: Recent) {
    r in recents && forall x :: x in recents ==> x.lastTime <= r.lastTime
  }

  /** Newer than every other entry. */
  ghost predicate Latest(recents: seq<Recent>, r: Recent) {
    r in recents && forall x :: x in recents && x != r ==> x.lastTime < r.lastTime
  }

  /** No two entries have the same time; imported ones may. */
  ghost predicate Timed(recents: seq<Recent>) {
    forall x, y :: x in recents && y in recents && x != y ==> x.lastTime != y.lastTime
  }

  /** Distinctness can be told from the members when none is repeated. */
  ghost predicate Apart(recents: seq<Recent>) {
    && (forall x :: x in recents ==> multiset(recents)[x] == 1)
    && forall x, y :: x in recents && y in recents && x != y ==> x.id != y.id && Key(x.target) != Key(y.target)
  }

  lemma {:induction false} SingleCount(recents: seq<Recent>)
    requires forall i, j :: 0 <= i < j < |recents| ==> recents[i] != recents[j]
    ensures forall x :: x in recents ==> multiset(recents)[x] == 1
  {
    if recents != [] {
      var init, last := recents[..|recents| - 1], recents[|recents| - 1];
      SingleCount(init);
      assert recents == init + [last];
      assert last !in init;
    }
  }

  lemma {:induction false} CountedOnce(recents: seq<Recent>, i: nat, j: nat)
    requires i < j < |recents| && recents[i] == recents[j]
    ensures multiset(recents)[recents[i]] >= 2
  {
    var init, last := recents[..|recents| - 1], recents[|recents| - 1];
    assert recents == init + [last];
    if j == |recents| - 1 {
      assert recents[i] in init;
    } else {
      CountedOnce(init, i, j);
    }
  }

  lemma DistinctIsApart(recents: seq<Recent>)
    ensures Distinct(recents) <==> Apart(recents)
  {
    if Distinct(recents) {
      SingleCount(recents);
    }
    if Apart(recents) {
      forall i, j | 0 <= i < j < |recents|
        ensures recents[i] != recents[j]
      {
        if recents[i] == recents[j] {
          CountedOnce(recents, i, j);
        }
      }
    }
  }

  lemma {:induction false} KeepConcat(a: seq<Recent>, b: seq<Recent>, p: Recent -> bool)
    ensures Keep(a + b, p) == Keep(a, p) + Keep(b, p)
  {
    if b == [] {
      assert a + b == a;
    } else {
      KeepConcat(a, b[..|b| - 1], p);
      assert (a + b)[..|a + b| - 1] == a + b[..|b| - 1] && (a + b)[|a + b| - 1] == b[|b| - 1];
    }
  }

  /** Entries with the same members and counts are apart together. */
  lemma SubsetApart(part: seq<Recent>, whole: seq<Recent>)
    requires Apart(whole) && forall x :: multiset(part)[x] <= multiset(whole)[x]
    ensures Apart(part) && forall x :: x in part ==> x in whole
  {
    forall x | x in part
      ensures x in whole && multiset(part)[x] == 1
    {
      assert multiset(part)[x] >= 1;
      assert x in multiset(whole);
    }
  }

  lemma KeepApart(recents: seq<Recent>, p: Recent -> bool)
    requires Apart(recents)
    ensures Apart(Keep(recents, p))
  {
    KeepCounts(recents, p);
    SubsetApart(Keep(recents, p), recents);
  }

  /** The two sorted halves of a list. */
  lemma Halves(recents: seq<Recent>)
    ensures var p, u := Sorted(Keep(recents, IsPinned())), Sorted(Keep(recents, IsUnpinned()));
            && Ordered(p) && Ordered(u) && AllPinned(p, true) && AllPinned(u, false)
            && (forall x :: multiset(p)[x] == if x.pinned then multiset(recents)[x] else 0)
            && (forall x :: multiset(u)[x] == if x.pinned then 0 else multiset(recents)[x])
  {
    SortedMeans(Keep(recents, IsPinned()), true);
    SortedMeans(Keep(recents, IsUnpinned()), false);
    KeepCounts(recents, IsPinned());
    KeepCounts(recents, IsUnpinned());
  }

  lemma {:induction false} PrefixCounts(list: seq<Recent>, n: nat)
    requires n <= |list|
    ensures forall x :: multiset(list[..n])[x] <= multiset(list)[x]
  {
    assert list == list[..n] + list[n..];
  }

  /**
   Trimming keeps every pinned entry and the newest unpinned ones, in order;
   an entry newer than all others is never dropped.
   */
  lemma TrimmedMeans(recents: seq<Recent>)
    requires Apart(recents)
    ensures Apart(Trimmed(recents)) && Ordered(Trimmed(recents))
    ensures |Keep(Trimmed(recents), IsUnpinned())| <= MAX_UNPINNED_RECENTS
    ensures forall x :: x in Trimmed(recents) ==> x in recents
    ensures forall x :: x in recents && (x.pinned || Latest(recents, x)) ==> x in Trimmed(recents)
    ensures forall x, y :: x in recents && x !in Trimmed(recents) && y in Trimmed(recents) && !y.pinned ==>
              x.lastTime <= y.lastTime && (Timed(recents) ==> x.lastTime < y.lastTime)
  {
    hide Sorted, Keep, Key, Before;
    var p, u := Sorted(Keep(recents, IsPinned())), Sorted(Keep(recents, IsUnpinned()));
    var v := Truncated(u);
    Halves(recents);
    PrefixCounts(u, |v|);
    TrimmedApart(recents, p, u, v);
    TrimmedOrdered(p, u, v);
    TrimmedCount(p, v);
    TrimmedKeepsNewest(recents, p, u, v);
  }

  lemma TrimmedApart(recents: seq<Recent>, p: seq<Recent>, u: seq<Recent>, v: seq<Recent>)
    requires Apart(recents) && v == Truncated(u)
    requires forall x :: multiset(p)[x] == if x.pinned then multiset(recents)[x] else 0
    requires forall x :: multiset(u)[x] == if x.pinned then 0 else multiset(recents)[x]
    ensures Apart(p + v) && Apart(u) && forall x :: x in p + v ==> x in recents
  {
    hide Key;
    PrefixCounts(u, |v|);
    forall x
      ensures multiset(p + v)[x] <= multiset(recents)[x]
    {
      assert multiset(p + v)[x] == multiset(p)[x] + multiset(v)[x];
    }
    SubsetApart(p + v, recents);
    SubsetApart(u, recents);
  }

  lemma TrimmedOrdered(p: seq<Recent>, u: seq<Recent>, v: seq<Recent>)
    requires Ordered(p) && Ordered(u) && AllPinned(p, true) && AllPinned(u, false) && v == Truncated(u)
    ensures Ordered(p + v)
  {
    forall i, j | 0 <= i < j < |p + v|
      ensures Before((p + v)[i], (p + v)[j])
    {
      if i < |p| <= j {
        assert p[i] in p && u[j - |p|] in u;
      }
    }
  }

  lemma {:induction false} NoneKept(p: seq<Recent>)
    requires AllPinned(p, true)
    ensures Keep(p, IsUnpinned()) == []
  {
    if p != [] {
      assert p[|p| - 1] in p && forall x :: x in p[..|p| - 1] ==> x in p;
      NoneKept(p[..|p| - 1]);
    }
  }

  lemma TrimmedCount(p: seq<Recent>, v: seq<Recent>)
    requires AllPinned(p, true) && |v| <= MAX_UNPINNED_RECENTS
    ensures |Keep(p + v, IsUnpinned())| <= MAX_UNPINNED_RECENTS
  {
    KeepConcat(p, v, IsUnpinned());
    NoneKept(p);
  }

  lemma TrimmedKeepsNewest(recents: seq<Recent>, p: seq<Recent>, u: seq<Recent>, v: seq<Recent>)
    requires Apart(recents) && Apart(u) && Ordered(u) && AllPinned(u, false) && v == Truncated(u)
    requires forall x :: multiset(p)[x] == if x.pinned then multiset(recents)[x] else 0
    requires forall x :: multiset(u)[x] == if x.pinned then 0 else multiset(recents)[x]
    ensures forall x :: x in recents && (x.pinned || Latest(recents, x)) ==> x in p + v
    ensures forall x, y :: x in recents && x !in p + v && y in p + v && !y.pinned ==>
              x.lastTime <= y.lastTime && (Timed(recents) ==> x.lastTime < y.lastTime)
  {
    hide Key;
    forall x | x in recents
      ensures x.pinned ==> x in p
      ensures !x.pinned ==> x in u
      ensures !x.pinned && Latest(recents, x) ==> x in v
    {
      assert multiset(recents)[x] == 1;
      assert x in multiset(p) || x in multiset(u);
      if !x.pinned && Latest(recents, x) {
        assert u[0] in multiset(u) && u[0] in multiset(recents);
        var i :| 0 <= i < |u| && u[i] == x;
        assert i > 0 ==> Before(u[0], u[i]);
        assert u[0] in u;
      }
    }
    forall x, y | x in recents && x !in p + v && y in p + v && !y.pinned
      ensures x.lastTime <= y.lastTime && (Timed(recents) ==> x.lastTime < y.lastTime)
    {
      assert y in p ==> multiset(p)[y] >= 1;
      assert x in u && y in v;
      var i :| 0 <= i < |u| && u[i] == x;
      var j :| 0 <= j < |v| && v[j] == y;
      assert i >= |v| ==> Before(u[j], u[i]);
      assert u[j] in u;
    }
  }

  // ----- the operations -----

  /** The position of the first entry `p` accepts, or the length. */
  function IndexOf(recents: seq<Recent>, p: Recent -> bool): (i: nat)
    ensures i <= |recents|
    ensures i < |recents| ==> p(recents[i])
    ensures i == |recents| ==> forall x :: x in recents ==> !p(x)
  {
    if recents == [] then 0 else if p(recents[0]) then 0 else 1 + IndexOf(recents[1..], p)
  }

  function SameKey(key: string): Recent -> bool { (r: Recent) => Key(r.target) == key }
  function SameId(id: string): Recent -> bool { (r: Recent) => r.id == id }

  function NewestTime(recents: seq<Recent>): (t: nat)
    ensures forall x :: x in recents ==> x.lastTime <= t
  {
    if recents == [] then 0
    else
      var rest, r := NewestTime(recents[..|recents| - 1]), recents[|recents| - 1];
      assert recents == recents[..|recents| - 1] + [r];
      if r.lastTime > rest then r.lastTime else rest
  }

  function Checked(a: Account): Account {
    if DefaultValid(a) then a else a.(default := Fastest)
  }

  /** The entry a recording puts in front; an entry with the same key hands over its id and pin. */
  function NewEntry(a: Account, t: Target, now: nat, freshId: string): Recent {
    var kept := Keep(a.recents, OtherKey(Key(t)));
    var i := IndexOf(a.recents, SameKey(Key(t)));
    var time := if now > NewestTime(kept) + 1 then now else NewestTime(kept) + 1;
    if i < |a.recents| then Recent(a.recents[i].id, t, a.recents[i].pinned, a.recents[i].pinTime, time)
    else Recent(freshId, t, false, 0, time)
  }

  function Recorded(a: Account, t: Target, now: nat, freshId: string): Option<Account> {
    if !ValidTarget(t) || (t.kind == "profile" && t.profileId !in a.profiles) then None
    else
      var recents := [NewEntry(a, t, now, freshId)] + Keep(a.recents, OtherKey(Key(t)));
      Some(Checked(a.(recents := Trimmed(recents))))
  }

  /** Pinning does not look at the default connection. */
  function Pinned(a: Account, id: string, pinned: bool, now: nat): Option<Account> {
    var i := IndexOf(a.recents, SameId(id));
    if i == |a.recents| then None
    else
      var r := a.recents[i].(pinned := pinned, pinTime := if pinned then now else 0);
      Some(a.(recents := Trimmed(a.recents[i := r])))
  }

  function WithoutRecent(a: Account, id: string): Account {
    Checked(a.(recents := Keep(a.recents, OtherId(id))))
  }

  function Remaining(profiles: seq<string>, id: string): (r: seq<string>)
    ensures forall x :: x in r <==> x in profiles && x != id
  {
    if profiles == [] then []
    else
      var init, last := Remaining(profiles[..|profiles| - 1], id), profiles[|profiles| - 1];
      assert profiles == profiles[..|profiles| - 1] + [last];
      if last == id then init else init + [last]
  }

  function WithoutProfile(a: Account, id: string): Account {
    Checked(Account(Remaining(a.profiles, id), Keep(a.recents, NotProfile(id)), a.default))
  }

  lemma {:induction false} KeepOrdered(recents: seq<Recent>, p: Recent -> bool)
    requires Ordered(recents)
    ensures Ordered(Keep(recents, p))
  {
    hide Before;
    if recents != [] {
      var init, last := recents[..|recents| - 1], recents[|recents| - 1];
      KeepOrdered(init, p);
      forall x | x in init
        ensures Before(x, last)
      {
        var i :| 0 <= i < |init| && init[i] == x;
        assert Before(recents[i], recents[|recents| - 1]);
      }
      assert forall i :: 0 <= i < |Keep(init, p)| ==> Keep(init, p)[i] in Keep(init, p);
    }
  }

  lemma {:induction false} KeepFewer(recents: seq<Recent>, p: Recent -> bool, q: Recent -> bool)
    ensures |Keep(Keep(recents, p), q)| <= |Keep(recents, q)|
  {
    if recents != [] {
      var init, last := recents[..|recents| - 1], recents[|recents| - 1];
      KeepFewer(init, p, q);
      if p(last) {
        assert (Keep(init, p) + [last])[..|Keep(init, p)|] == Keep(init, p);
      }
    }
  }

  /** The new entry is apart from the kept ones, and newer than all of them. */
  lemma NewEntryApart(a: Account, t: Target, now: nat, freshId: string)
    requires Apart(a.recents) && forall x :: x in a.recents ==> x.id != freshId
    ensures var r, kept := NewEntry(a, t, now, freshId), Keep(a.recents, OtherKey(Key(t)));
            && Apart([r] + kept) && Latest([r] + kept, r) && r.target == t
            && (Timed(a.recents) ==> Timed([r] + kept))
  {
    hide Key, Keep, IndexOf, NewestTime;
    var r, kept := NewEntry(a, t, now, freshId), Keep(a.recents, OtherKey(Key(t)));
    KeepApart(a.recents, OtherKey(Key(t)));
    var i := IndexOf(a.recents, SameKey(Key(t)));
    if i < |a.recents| {
      assert a.recents[i] in a.recents;
    }
    FrontApart(r, kept);
  }

  lemma FrontApart(r: Recent, kept: seq<Recent>)
    requires Apart(kept)
    requires forall x :: x in kept ==> x.id != r.id && Key(x.target) != Key(r.target) && x.lastTime < r.lastTime
    ensures Apart([r] + kept) && Latest([r] + kept, r) && (Timed(kept) ==> Timed([r] + kept))
  {
    hide Key;
    assert r !in kept;
    assert forall x :: x in [r] + kept <==> x == r || x in kept;
  }

  /** A recording keeps the account in order; its entry is the newest, and is not dropped. */
  lemma RecordKeeps(a: Account, t: Target, now: nat, freshId: string)
    requires Kept(a) && (forall x :: x in a.recents ==> x.id != freshId)
    requires Recorded(a, t, now, freshId).Some?
    ensures var b, r := Recorded(a, t, now, freshId).value, NewEntry(a, t, now, freshId);
            && Kept(b) && DefaultValid(b) && Latest(b.recents, r) && r.target == t
            && (Timed(a.recents) ==> Timed(b.recents))
  {
    hide Key, Trimmed, Keep, Before, Apart, Ordered, IndexOf, NewestTime;
    var r, kept := NewEntry(a, t, now, freshId), Keep(a.recents, OtherKey(Key(t)));
    NewEntryApart(a, t, now, freshId);
    TrimmedMeans([r] + kept);
    assert forall x :: x in [r] + kept <==> x == r || x in kept;
  }

  /** Replacing an entry by itself with another pin keeps the entries apart. */
  lemma UpdateApart(recents: seq<Recent>, i: nat, r: Recent)
    requires Distinct(recents) && i < |recents|
    requires r.id == recents[i].id && r.target == recents[i].target && r.lastTime == recents[i].lastTime
    ensures Distinct(recents[i := r])
  {
    hide Key;
  }

  /** Pinning keeps the account in order, and the latest entry latest. */
  lemma PinKeeps(a: Account, id: string, pinned: bool, now: nat)
    requires Kept(a) && Pinned(a, id, pinned, now).Some?
    ensures var b := Pinned(a, id, pinned, now).value;
            && Kept(b)
            && forall x :: Latest(a.recents, x) ==>
                 exists r :: Latest(b.recents, r) && r.target == x.target && r.id == x.id
  {
    hide Key, Trimmed, Keep, Before, ValidTarget, Apart, Ordered, Latest;
    var i := IndexOf(a.recents, SameId(id));
    var r := a.recents[i].(pinned := pinned, pinTime := if pinned then now else 0);
    var updated := a.recents[i := r];
    DistinctIsApart(a.recents);
    UpdateApart(a.recents, i, r);
    DistinctIsApart(updated);
    TrimmedMeans(updated);
    UpdatedMembers(a.recents, i, r);
    forall x | Latest(a.recents, x)
      ensures exists y :: Latest(Trimmed(updated), y) && y.target == x.target && y.id == x.id
    {
      var k := UpdatedLatest(a.recents, i, r, x);
      LatestStays(updated, Trimmed(updated), updated[k]);
    }
  }

  lemma UpdatedLatest(recents: seq<Recent>, i: nat, r: Recent, x: Recent) returns (k: nat)
    requires i < |recents| && Distinct(recents) && Latest(recents, x)
    requires r.id == recents[i].id && r.target == recents[i].target && r.lastTime == recents[i].lastTime
    ensures k < |recents| && Latest(recents[i := r], recents[i := r][k])
    ensures recents[i := r][k].target == x.target && recents[i := r][k].id == x.id
  {
    hide Key;
    k :| 0 <= k < |recents| && recents[k] == x;
    var updated := recents[i := r];
    forall y | y in updated && y != updated[k]
      ensures y.lastTime < updated[k].lastTime
    {
      var j :| 0 <= j < |updated| && updated[j] == y;
      assert recents[j] in recents && recents[j].id != recents[k].id;
    }
  }

  lemma LatestStays(whole: seq<Recent>, part: seq<Recent>, x: Recent)
    requires Latest(whole, x) && x in part && forall y :: y in part ==> y in whole
    ensures Latest(part, x)
  {
  }

  lemma UpdatedMembers(recents: seq<Recent>, i: nat, r: Recent)
    requires i < |recents|
    requires r.id == recents[i].id && r.target == recents[i].target && r.lastTime == recents[i].lastTime
    ensures forall x :: x in recents[i := r] ==>
              exists y :: y in recents && x.target == y.target && x.lastTime == y.lastTime && x.id == y.id
  {
    var updated := recents[i := r];
    forall x | x in updated
      ensures exists y :: y in recents && x.target == y.target && x.lastTime == y.lastTime && x.id == y.id
    {
      var k :| 0 <= k < |updated| && updated[k] == x;
      assert recents[k] in recents;
    }
  }

  lemma DeleteKeeps(a: Account, id: string)
    requires Kept(a)
    ensures Kept(WithoutRecent(a, id)) && DefaultValid(WithoutRecent(a, id))
    ensures forall r :: Newest(a.recents, r) && r.id != id ==> Newest(WithoutRecent(a, id).recents, r)
    ensures forall r :: Latest(a.recents, r) && r.id != id ==> Latest(WithoutRecent(a, id).recents, r)
  {
    hide Key, ValidTarget;
    KeepApart(a.recents, OtherId(id));
    KeepOrdered(a.recents, OtherId(id));
    KeepFewer(a.recents, OtherId(id), IsUnpinned());
  }

  lemma DeleteProfileKeeps(a: Account, id: string)
    requires Kept(a)
    ensures Kept(WithoutProfile(a, id)) && DefaultValid(WithoutProfile(a, id))
    ensures forall r :: Newest(a.recents, r) && NotProfile(id)(r) ==> Newest(WithoutProfile(a, id).recents, r)
    ensures forall r :: Latest(a.recents, r) && NotProfile(id)(r) ==> Latest(WithoutProfile(a, id).recents, r)
  {
    hide Key, ValidTarget;
    KeepApart(a.recents, NotProfile(id));
    KeepOrdered(a.recents, NotProfile(id));
    KeepFewer(a.recents, NotProfile(id), IsUnpinned());
  }

  /** The oldest entry, and of several with its time the last one. */
  ghost predicate Oldest(recents: seq<Recent>, r: Recent) {
    exists i :: 0 <= i < |recents| && OldestAt(recents, i) && recents[i] == r
  }

  predicate OldestAt(recents: seq<Recent>, i: nat)
    requires i < |recents|
  {
    && (forall j :: 0 <= j < i ==> recents[j].lastTime >= recents[i].lastTime)
    && forall j :: i < j < |recents| ==> recents[j].lastTime > recents[i].lastTime
  }

  lemma OldestGrows(init: seq<Recent>, r: Recent, last: Recent)
    requires Oldest(init, last)
    ensures Oldest(init + [r], if last.lastTime >= r.lastTime then r else last)
  {
    var all := init + [r];
    var i :| 0 <= i < |init| && OldestAt(init, i) && init[i] == last;
    if last.lastTime >= r.lastTime {
      forall j | 0 <= j < |init|
        ensures init[j].lastTime >= last.lastTime
      {
      }
      assert OldestAt(all, |init|);
    } else {
      assert OldestAt(all, i) && all[i] == last;
    }
  }

  lemma SortedSize(recents: seq<Recent>)
    requires AllPinned(recents, false)
    ensures |Sorted(recents)| == |recents|
  {
    hide Sorted;
    SortedMeans(recents, false);
    assert |Sorted(recents)| == |multiset(Sorted(recents))| == |recents|;
  }

  /** Sorting puts the oldest entry last. */
  lemma {:induction false} SortedLast(recents: seq<Recent>)
    requires recents != [] && AllPinned(recents, false)
    ensures |Sorted(recents)| == |recents| && Oldest(recents, Sorted(recents)[|recents| - 1])
  {
    hide Oldest, Key, Sorted, Inserted;
    SortedSize(recents);
    var n := |recents| - 1;
    var init, r := recents[..n], recents[n];
    assert recents == init + [r] && r in recents && forall x :: x in init ==> x in recents;
    if n == 0 {
      OnlyOne(recents);
    } else {
      SortedLast(init);
      SortedMeans(init, false);
      SortedStep(recents);
      var last := Sorted(init)[n - 1];
      assert last in Sorted(init);
      OldestGrows(init, r, last);
    }
  }

  lemma SortedStep(recents: seq<Recent>)
    requires |recents| > 1 && Sorted(recents[..|recents| - 1]) != []
    ensures var init, r := Sorted(recents[..|recents| - 1]), recents[|recents| - 1];
            var last := init[|init| - 1];
            Sorted(recents) != [] && Sorted(recents)[|Sorted(recents)| - 1] == if Before(last, r) then r else last
  {
    hide Before;
  }

  lemma OnlyOne(recents: seq<Recent>)
    requires |recents| == 1
    ensures Sorted(recents) == recents && Oldest(recents, recents[0])
  {
    assert recents[..0] == [] && OldestAt(recents, 0);
  }

  lemma OldestIsOne(recents: seq<Recent>, x: Recent, y: Recent)
    requires Oldest(recents, x) && Oldest(recents, y)
    ensures x == y
  {
    var i :| 0 <= i < |recents| && OldestAt(recents, i) && recents[i] == x;
    var j :| 0 <= j < |recents| && OldestAt(recents, j) && recents[j] == y;
  }

  /** With seven unpinned entries trimming drops the oldest of them and nothing else. */
  lemma SevenDropsOldest(recents: seq<Recent>, x: Recent)
    requires Apart(recents) && |Keep(recents, IsUnpinned())| == MAX_UNPINNED_RECENTS + 1 && x in recents
    ensures x !in Trimmed(recents) <==> Oldest(Keep(recents, IsUnpinned()), x)
  {
    hide Sorted, Key, Before, Oldest;
    var kept := Keep(recents, IsUnpinned());
    var p, u := Sorted(Keep(recents, IsPinned())), Sorted(kept);
    Halves(recents);
    SortedMeans(kept, false);
    SortedLast(kept);
    assert forall y :: y in u <==> y in multiset(kept);
    TrimmedApart(recents, p, u, Truncated(u));
    LastIsDropped(u);
    assert x in p ==> x in multiset(p);
    assert multiset(p)[x] >= 1 ==> x in p;
    if Oldest(kept, x) {
      OldestIsOne(kept, x, u[MAX_UNPINNED_RECENTS]);
    }
  }

  lemma LastIsDropped(u: seq<Recent>)
    requires Apart(u) && |u| == MAX_UNPINNED_RECENTS + 1
    ensures forall x :: x in u ==> (x !in Truncated(u) <==> x == u[MAX_UNPINNED_RECENTS])
  {
    hide Key;
    var last := u[MAX_UNPINNED_RECENTS];
    forall i | 0 <= i < MAX_UNPINNED_RECENTS
      ensures u[i] in Truncated(u) && u[i] != last
    {
      assert Truncated(u)[i] == u[i] && u[i] in u && last in u;
      if u[i] == last {
        CountedOnce(u, i, MAX_UNPINNED_RECENTS);
      }
    }
    assert forall x :: x in Truncated(u) ==> exists i :: 0 <= i < MAX_UNPINNED_RECENTS && u[i] == x;
  }

  lemma SixKeepsAll(recents: seq<Recent>, x: Recent)
    requires Apart(recents) && |Keep(recents, IsUnpinned())| <= MAX_UNPINNED_RECENTS && x in recents
    ensures x in Trimmed(recents)
  {
    hide Sorted, Key, Before;
    var kept := Keep(recents, IsUnpinned());
    var p, u := Sorted(Keep(recents, IsPinned())), Sorted(kept);
    Halves(recents);
    SortedMeans(kept, false);
    assert |u| == |multiset(u)| == |kept|;
    assert multiset(recents)[x] == 1;
    assert x in multiset(p) || x in multiset(u);
  }

  lemma {:induction false} KeepUpdated(recents: seq<Recent>, i: nat, r: Recent, p: Recent -> bool)
    requires i < |recents|
    ensures |Keep(recents[i := r], p)| <= |Keep(recents, p)| + 1
  {
    var init, n := recents[..|recents| - 1], |recents| - 1;
    if i < n {
      assert recents[i := r][..n] == init[i := r];
      KeepUpdated(init, i, r, p);
    } else {
      assert recents[i := r][..n] == init;
    }
  }

  ghost predicate Names(recents: seq<Recent>, id: string) {
    exists x :: x in recents && x.id == id
  }

  lemma TrimmedNames(recents: seq<Recent>, id: string)
    requires Apart(recents) && Names(recents, id)
    requires |Keep(recents, IsUnpinned())| <= MAX_UNPINNED_RECENTS + 1
    ensures Names(Trimmed(recents), id)
       <==> !(|Keep(recents, IsUnpinned())| > MAX_UNPINNED_RECENTS
              && exists x :: Oldest(Keep(recents, IsUnpinned()), x) && x.id == id)
  {
    hide Trimmed, Keep, Key;
    var x :| x in recents && x.id == id;
    TrimmedMeans(recents);
    if |Keep(recents, IsUnpinned())| <= MAX_UNPINNED_RECENTS {
      SixKeepsAll(recents, x);
    } else {
      SevenDropsOldest(recents, x);
      assert forall y :: y in Keep(recents, IsUnpinned()) ==> y in recents;
    }
  }

  /**
   Pinning does not repair the default connection. It is left dangling exactly
   when taking a pin off makes seven unpinned entries and the default is the
   oldest of them.
   */
  lemma PinMayDangle(a: Account, id: string, pinned: bool, now: nat)
    requires Kept(a) && DefaultValid(a) && Pinned(a, id, pinned, now).Some?
    ensures var i := IndexOf(a.recents, SameId(id));
            var updated := a.recents[i := a.recents[i].(pinned := pinned, pinTime := if pinned then now else 0)];
            var unpinned := Keep(updated, IsUnpinned());
            DefaultValid(Pinned(a, id, pinned, now).value)
            <==> !(|unpinned| > MAX_UNPINNED_RECENTS
                   && exists x :: Oldest(unpinned, x) && a.default == RecentRef(x.id))
  {
    hide Trimmed, Keep, Key, Before, ValidTarget, Oldest;
    var i := IndexOf(a.recents, SameId(id));
    var updated := a.recents[i := a.recents[i].(pinned := pinned, pinTime := if pinned then now else 0)];
    KeepUpdated(a.recents, i, updated[i], IsUnpinned());
    DistinctIsApart(a.recents);
    UpdateApart(a.recents, i, updated[i]);
    DistinctIsApart(updated);
    if a.default.RecentRef? {
      var k :| 0 <= k < |a.recents| && a.recents[k].id == a.default.recentId;
      assert updated[k] in updated;
      TrimmedNames(updated, a.default.recentId);
      NamedIsValid(Trimmed(updated), a.default.recentId);
    }
  }

  lemma NamedIsValid(recents: seq<Recent>, id: string)
    ensures Names(recents, id) <==> exists i :: 0 <= i < |recents| && recents[i].id == id
  {
    if i :| 0 <= i < |recents| && recents[i].id == id {
      assert recents[i] in recents;
    }
  }

  /** A text of its own for each number. */
  function Name(i: nat): (name: string)
    ensures |name| == i + 1 && NoColon(name)
  {
    seq(i + 1, _ => 'a')
  }

  function Gateway(name: string): Target { Target("gateway", "", "", name, "", "", "", "", "") }

  /** Entry 0 is pinned and the oldest; the others follow from the newest. */
  function Sample(i: nat): Recent
    requires i < 7
  {
    Recent(Name(i), Gateway(Name(i)), i == 0, 0, if i == 0 then 1 else 10 - i)
  }

  function SevenRecents(): (recents: seq<Recent>)
    ensures |recents| == 7 && forall i :: 0 <= i < 7 ==> recents[i] == Sample(i)
  {
    seq(7, (i: nat) requires i < 7 => Sample(i))
  }

  lemma {:induction false} KeepAll(recents: seq<Recent>, p: Recent -> bool)
    requires forall i :: 0 <= i < |recents| ==> p(recents[i])
    ensures Keep(recents, p) == recents
  {
    if recents != [] {
      KeepAll(recents[..|recents| - 1], p);
    }
  }

  lemma SamplesApart()
    ensures Distinct(SevenRecents())
  {
    hide Key;
    forall i, j | 0 <= i < j < 7
      ensures Key(Gateway(Name(i))) != Key(Gateway(Name(j)))
    {
      KeyIdentifies(Gateway(Name(i)), Gateway(Name(j)));
      assert KeyFields(Gateway(Name(i)))[1] != KeyFields(Gateway(Name(j)))[1];
    }
  }

  lemma SamplesFew()
    ensures |Keep(SevenRecents(), IsUnpinned())| <= MAX_UNPINNED_RECENTS
  {
    hide Name, Gateway;
    var recents := SevenRecents();
    assert recents == [recents[0]] + recents[1..];
    KeepConcat([recents[0]], recents[1..], IsUnpinned());
    NoneKept([recents[0]]);
    KeepAll(recents[1..], IsUnpinned());
  }

  lemma GatewayIsValid(name: string)
    requires name != ""
    ensures ValidTarget(Gateway(name)) && Gateway(name).kind == "gateway"
  {
  }

  lemma SamplesKept()
    ensures Kept(Account([], SevenRecents(), RecentRef(Name(0))))
  {
    hide Key, Name, Gateway, ValidTarget, Keep, Apart;
    var recents := SevenRecents();
    SamplesApart();
    SamplesFew();
    DistinctIsApart(recents);
    forall r | r in recents
      ensures ValidTarget(r.target) && r.target.kind != "profile"
    {
      var i :| 0 <= i < 7 && recents[i] == r;
      GatewayIsValid(Name(i));
    }
  }

  lemma FirstFound(recents: seq<Recent>, p: Recent -> bool)
    requires recents != [] && p(recents[0])
    ensures IndexOf(recents, p) == 0
  {
  }

  /** The failing input: one of seven recents is the default, is the oldest, and loses its pin. */
  lemma UnpinnedDefaultDangles()
    ensures var a := Account([], SevenRecents(), RecentRef(Name(0)));
            Kept(a) && DefaultValid(a) && Pinned(a, Name(0), false, 0).Some?
            && !DefaultValid(Pinned(a, Name(0), false, 0).value)
  {
    hide Key, Name, Gateway, Kept, Trimmed, Before, Keep, IndexOf;
    var a := Account([], SevenRecents(), RecentRef(Name(0)));
    SamplesKept();
    FirstFound(a.recents, SameId(Name(0)));
    PinMayDangle(a, Name(0), false, 0);
    var updated := a.recents[0 := Sample(0).(pinned := false)];
    KeepAll(updated, IsUnpinned());
    assert OldestAt(updated, 0);
  }

  // ----- resolving -----

  datatype Request = Request(countryCode: string, entryCountryCode: string, state: string, city: string,
                             serverName: string, gatewayName: string, p2p: bool, tor: bool, secureCore: bool)

  datatype Resolution = Everywhere(random: bool) | ToTarget(request: Request) | ToProfile(profileId: string) | Unresolved

  function RequestOf(t: Target): Request {
    Request(t.countryCode, t.entryCountryCode, t.state, t.city, t.serverName, t.gatewayName,
            Located(t.kind) && t.feature == "p2p",
            (Located(t.kind) && t.feature == "tor") || t.kind == "tor",
            (Located(t.kind) && t.feature == "secure_core") || t.kind == "secureCore")
  }

  function ResolvedRecent(a: Account, t: Target): Resolution {
    if t.kind == "profile" then if t.profileId in a.profiles then ToProfile(t.profileId) else Unresolved
    else if ValidTarget(t) then ToTarget(RequestOf(t)) else Unresolved
  }

  /** The last of the entries with the greatest time. */
  function MostRecent(recents: seq<Recent>): (r: Option<Recent>)
    ensures r.None? <==> recents == []
    ensures r.Some? ==> Newest(recents, r.value)
  {
    if recents == [] then None
    else
      var rest, r := MostRecent(recents[..|recents| - 1]), recents[|recents| - 1];
      assert recents == recents[..|recents| - 1] + [r];
      if rest.Some? && rest.value.lastTime > r.lastTime then rest else Some(r)
  }

  function Resolved(a: Account, selection: Default): Resolution {
    match selection
    case Fastest => Everywhere(false)
    case RandomDefault => Everywhere(true)
    case Last =>
      (match MostRecent(a.recents)
       case None => Everywhere(false)
       case Some(r) => ResolvedRecent(a, r.target))
    case RecentRef(id) =>
      var i := IndexOf(a.recents, SameId(id));
      if i < |a.recents| then ResolvedRecent(a, a.recents[i].target) else Unresolved
    case ProfileRef(id) => if id in a.profiles then ToProfile(id) else Unresolved
  }

  lemma LastIsNewest(a: Account, r: Recent)
    requires Kept(a) && Latest(a.recents, r)
    ensures Resolved(a, Last) == ResolvedRecent(a, r.target)
    ensures ResolvedRecent(a, r.target) == if r.target.kind == "profile" then ToProfile(r.target.profileId)
                                           else ToTarget(RequestOf(r.target))
  {
    hide Key, Before, ValidTarget;
  }

  datatype Change =
    | Pin(id: string, pinned: bool, now: nat)
    | DeleteRecent(id: string)
    | DeleteProfile(id: string)

  function Changed(a: Account, c: Change): Account {
    match c
    case Pin(id, pinned, now) =>
      var b := Pinned(a, id, pinned, now);
      if b.Some? then b.value else a
    case DeleteRecent(id) => WithoutRecent(a, id)
    case DeleteProfile(id) => WithoutProfile(a, id)
  }

  function AfterChanges(a: Account, changes: seq<Change>): Account {
    if changes == [] then a else Changed(AfterChanges(a, changes[..|changes| - 1]), changes[|changes| - 1])
  }

  /** The change removes the entry itself. */
  predicate Removes(c: Change, r: Recent) {
    match c
    case Pin(_, _, _) => false
    case DeleteRecent(id) => id == r.id
    case DeleteProfile(id) => !NotProfile(id)(r)
  }

  lemma {:induction false} LatestRemains(a: Account, changes: seq<Change>, r: Recent)
    requires Kept(a) && Latest(a.recents, r) && forall c :: c in changes ==> !Removes(c, r)
    ensures Kept(AfterChanges(a, changes))
    ensures exists x :: Latest(AfterChanges(a, changes).recents, x) && x.target == r.target && x.id == r.id
  {
    hide Kept, Latest, Pinned, WithoutRecent, WithoutProfile;
    if changes != [] {
      var init, last := changes[..|changes| - 1], changes[|changes| - 1];
      assert last in changes && forall c :: c in init ==> c in changes;
      LatestRemains(a, init, r);
      var b := AfterChanges(a, init);
      var x :| Latest(b.recents, x) && x.target == r.target && x.id == r.id;
      match last
      case Pin(id, pinned, now) =>
        if Pinned(b, id, pinned, now).Some? {
          PinKeeps(b, id, pinned, now);
        }
      case DeleteRecent(id) => DeleteKeeps(b, id);
      case DeleteProfile(id) => DeleteProfileKeeps(b, id);
    }
  }

  /**
   After a recording, and after any pins and deletions that do not remove its
   entry, the last connection resolves to exactly the recorded target.
   */
  lemma LastIsRecorded(a: Account, t: Target, now: nat, freshId: string, changes: seq<Change>)
    requires Kept(a) && (forall x :: x in a.recents ==> x.id != freshId)
    requires Recorded(a, t, now, freshId).Some?
    requires forall c :: c in changes ==> !Removes(c, NewEntry(a, t, now, freshId))
    ensures Resolved(AfterChanges(Recorded(a, t, now, freshId).value, changes), Last)
         == if t.kind == "profile" then ToProfile(t.profileId) else ToTarget(RequestOf(t))
  {
    hide Kept, Latest, Recorded, NewEntry, RequestOf, Resolved;
    var b := Recorded(a, t, now, freshId).value;
    RecordKeeps(a, t, now, freshId);
    LatestRemains(b, changes, NewEntry(a, t, now, freshId));
    var c := AfterChanges(b, changes);
    var x :| Latest(c.recents, x) && x.target == t;
    LastIsNewest(c, x);
  }
}

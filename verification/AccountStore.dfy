/** The recent connections of one account, changed in place. */
module AccountStore {
  import opened Wrappers
  import opened Recents

  class AccountStore {
    var profiles: seq<string>
    var recents: seq<Recent>
    var default: Default

    function State(): Account
      reads this
    {
      Account(profiles, recents, default)
    }

    constructor ()
      ensures State() == Account([], [], Fastest) && Kept(State())
    {
      profiles, recents, default := [], [], Fastest;
    }

    /** Splits the entries by their pin, sorts both parts and cuts the unpinned one. */
    method TrimRecents()
      modifies this`recents
      ensures recents == Trimmed(old(recents))
    {
      hide Sorted;
      var pinned, unpinned := [], [];
      for i := 0 to |recents|
        invariant pinned == Keep(recents[..i], IsPinned()) && unpinned == Keep(recents[..i], IsUnpinned())
      {
        assert recents[..i + 1][..i] == recents[..i];
        if recents[i].pinned {
          pinned := pinned + [recents[i]];
        } else {
          unpinned := unpinned + [recents[i]];
        }
      }
      assert recents[..|recents|] == recents;
      recents := Sorted(pinned) + Truncated(Sorted(unpinned));
    }

    /** A default that names nothing becomes the fastest connection. */
    method ValidateDefault()
      modifies this`default
      ensures State() == Checked(old(State()))
    {
      if !DefaultValid(State()) {
        default := Fastest;
      }
    }

    method RecordRecent(t: Target, now: nat, freshId: string) returns (recorded: Option<Recent>)
      requires Kept(State()) && forall x :: x in recents ==> x.id != freshId
      modifies this
      ensures recorded.Some? <==> Recorded(old(State()), t, now, freshId).Some?
      ensures recorded.None? ==> State() == old(State())
      ensures recorded.Some? ==>
                && State() == Recorded(old(State()), t, now, freshId).value && Kept(State()) && DefaultValid(State())
                && Latest(recents, recorded.value) && recorded.value.target == t
    {
      hide Kept, NewEntry, Trimmed, Latest, Key;
      if !ValidTarget(t) || (t.kind == "profile" && t.profileId !in profiles) {
        return None;
      }
      var entry := NewEntry(State(), t, now, freshId);
      RecordKeeps(State(), t, now, freshId);
      recents := [entry] + Keep(recents, OtherKey(Key(t)));
      TrimRecents();
      ValidateDefault();
      recorded := Some(entry);
    }

    method PinRecent(id: string, pinned: bool, now: nat) returns (ok: bool)
      requires Kept(State())
      modifies this`recents
      ensures ok <==> Pinned(old(State()), id, pinned, now).Some?
      ensures State() == if ok then Pinned(old(State()), id, pinned, now).value else old(State())
      ensures Kept(State())
    {
      hide Kept, Trimmed, Latest;
      var i := IndexOf(recents, SameId(id));
      if i == |recents| {
        return false;
      }
      PinKeeps(State(), id, pinned, now);
      recents := recents[i := recents[i].(pinned := pinned, pinTime := if pinned then now else 0)];
      TrimRecents();
      ok := true;
    }

    method DeleteRecentEntry(id: string) returns (deleted: bool)
      requires Kept(State())
      modifies this
      ensures State() == WithoutRecent(old(State()), id) && Kept(State()) && DefaultValid(State())
      ensures deleted <==> |recents| != |old(recents)|
    {
      hide Kept;
      DeleteKeeps(State(), id);
      var before := |recents|;
      recents := Keep(recents, OtherId(id));
      ValidateDefault();
      deleted := |recents| != before;
    }

    method DeleteProfileEntry(id: string) returns (deleted: bool)
      requires Kept(State())
      modifies this
      ensures State() == WithoutProfile(old(State()), id) && Kept(State()) && DefaultValid(State())
      ensures deleted <==> |profiles| != |old(profiles)|
    {
      hide Kept;
      DeleteProfileKeeps(State(), id);
      var before := |profiles|;
      profiles := Remaining(profiles, id);
      recents := Keep(recents, NotProfile(id));
      ValidateDefault();
      deleted := |profiles| != before;
    }
  }
}

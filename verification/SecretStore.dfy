/**
The operations of the agent's secret store, call by call. Every storage call
may fail; a failure ends the operation with the writes made so far, and nothing
else makes an operation on acceptable input fail.
*/
module SecretStore {
  import opened Wrappers
  import opened Keyring

  datatype Reading = Value(text: string) | NoEntry | Failed

  datatype Loaded = Answered(session: Option<Session>) | Error

  /** The items are those of a prefix of the writes, of all of them after a success. */
  ghost predicate Progress(before: Items, after: Items, writes: seq<Write>, ok: bool) {
    exists n: nat :: n <= |writes| && after == Applied(before, writes[..n]) && (ok ==> n == |writes|)
  }

  class SecretStore {
    var items: Items
    ghost var faults: nat                      // history: the storage calls that failed
    const codec: Codec

    constructor (codec: Codec)
      ensures items == map[] && this.codec == codec
    {
      items, faults, this.codec := map[], 0, codec;
    }

    method Read(key: string) returns (r: Reading)
      modifies this`faults
      ensures faults == old(faults) + if r.Failed? then 1 else 0
      ensures r.Value? ==> key in items && items[key] == r.text
      ensures r.NoEntry? ==> key !in items
    {
      var fails: bool := *;
      if fails {
        faults := faults + 1;
      }
      r := if fails then Failed else if key in items then Value(items[key]) else NoEntry;
    }

    method Write(key: string, value: string) returns (ok: bool)
      modifies this`items, this`faults
      ensures faults == old(faults) + if ok then 0 else 1
      ensures items == if ok then old(items)[key := value] else old(items)
    {
      ok := *;
      if ok {
        items := items[key := value];
      } else {
        faults := faults + 1;
      }
    }

    /** An absent entry counts as deleted. */
    method Erase(key: string) returns (ok: bool)
      modifies this`items, this`faults
      ensures faults == old(faults) + if ok then 0 else 1
      ensures items == if ok then old(items) - {key} else old(items)
    {
      ok := *;
      if ok {
        items := items - {key};
      } else {
        faults := faults + 1;
      }
    }

    method LoadAccounts() returns (ok: bool, names: seq<Name>)
      modifies this`faults
      ensures ok ==> names == Accounts(codec, items)
      ensures faults >= old(faults) && (ok <==> faults == old(faults))
    {
      var r := Read(ACCOUNT_INDEX);
      ok, names := !r.Failed?, [];
      if r.Value? {
        var decoded := DecodeIndex(codec, r.text);
        names := if decoded.Some? then decoded.value else [];
      }
    }

    method LoadPrivateDefault() returns (ok: bool, session: Option<Session>)
      modifies this`faults
      ensures ok ==> session == PrivateDefault(codec, items)
      ensures faults >= old(faults) && (ok <==> faults == old(faults))
    {
      session := None;
      var names;
      ok, names := LoadAccounts();
      if !ok {
        return;
      }
      names := NormalizedAccounts(names);
      for i := 0 to |names|
        invariant FirstSlot(codec, items, names) == FirstSlot(codec, items, names[i..])
        invariant faults == old(faults)
      {
        assert names[i..][1..] == names[i + 1..];
        var r := Read(AccountKey(names[i]));
        if r.Failed? {
          return false, None;
        }
        if r.Value? {
          var decoded := DecodeSession(codec, r.text);
          if decoded.Some? && decoded.value.account == names[i] && decoded.value.authenticated {
            return true, decoded;
          }
        }
      }
    }

    method ImportComplete() returns (ok: bool, complete: bool)
      modifies this`faults
      ensures ok ==> complete == Complete(items)
      ensures faults >= old(faults) && (ok <==> faults == old(faults))
    {
      var r := Read(LEGACY_IMPORT_MARKER);
      ok, complete := !r.Failed?, r.Value? && r.text == LEGACY_IMPORT_COMPLETE;
    }

    method MarkImportComplete() returns (ok: bool)
      modifies this`items, this`faults
      ensures Progress(old(items), items, MarkWrites(old(items)), ok)
      ensures faults >= old(faults) && (ok <==> faults == old(faults))
    {
      var w := MarkWrites(items);
      assert w[..0] == [] && Applied(items, w[..0]) == items;
      var complete;
      ok, complete := ImportComplete();
      if ok && !complete {
        OneMoreWrite(items, w, 0);
        ok := Write(LEGACY_IMPORT_MARKER, LEGACY_IMPORT_COMPLETE);
      }
    }

    /** Validates everything, then writes the session, the index when it changes, and the marker. */
    method Save(s: Session) returns (ok: bool)
      modifies this`items, this`faults
      ensures Progress(old(items), items, SaveWrites(codec, old(items), s), ok)
      ensures faults >= old(faults) && (ok <==> Savable(codec, old(items), s) && faults == old(faults))
    {
      hide ValidName, EncodeSession, EncodeIndex, AccountKey, Normalized, Accounts;
      ghost var w := SaveWrites(codec, items, s);
      assert w[..0] == [] && Applied(items, w[..0]) == items;
      if !ValidName(s.account) || !s.authenticated {
        return false;
      }
      var previous;
      ok, previous := LoadAccounts();
      if !ok {
        return;
      }
      var accounts := NormalizedAccounts([s.account] + previous);
      var raw, index := EncodeSession(codec, s), EncodeIndex(codec, accounts);
      if raw.None? || index.None? {
        return false;
      }
      OneMoreWrite(items, w, 0);
      ok := Write(AccountKey(s.account), raw.value);
      if !ok {
        return;
      }
      if accounts != previous {
        OneMoreWrite(old(items), w, 1);
        ok := Write(ACCOUNT_INDEX, index.value);
        if !ok {
          return;
        }
      }
      ok := FinishSave(old(items), s);
    }

    /** The last step of a save: everything but the marker is written. */
    method FinishSave(ghost before: Items, s: Session) returns (ok: bool)
      requires Savable(codec, before, s)
      requires var w := SaveWrites(codec, before, s);
               items == Applied(before, w[..|w| - |MarkWrites(before)|])
      modifies this`items, this`faults
      ensures Progress(before, items, SaveWrites(codec, before, s), ok)
      ensures faults >= old(faults) && (ok <==> faults == old(faults))
    {
      hide Savable, EncodeSession, EncodeIndex, SavedAccounts;
      ghost var w := SaveWrites(codec, before, s);
      SaveKeepsMarker(codec, before, s);
      ghost var m := |w| - |MarkWrites(before)|;
      assert w[m..] == MarkWrites(before) && w[..m] + w[m..] == w;
      if m < |w| {
        OneMoreWrite(before, w, m);
      }
      var complete;
      ok, complete := ImportComplete();
      if ok && !complete {
        ok := Write(LEGACY_IMPORT_MARKER, LEGACY_IMPORT_COMPLETE);
      }
      assert w[..|w|] == w;
    }

    /** Marks the import complete, then removes the session, then rewrites the index when it changes. */
    method Delete(name: Name) returns (ok: bool)
      modifies this`items, this`faults
      ensures Progress(old(items), items, DeleteWrites(codec, old(items), name), ok)
      ensures ok ==> SignedOut(items, name)
      ensures faults >= old(faults)
      ensures ok <==> && faults == old(faults) && ValidName(name)
                      && EncodeIndex(codec, RemainingAccounts(codec, old(items), name)).Some?
    {
      hide ValidName, EncodeIndex, AccountKey, Normalized, Accounts, Others;
      ghost var before, w := items, DeleteWrites(codec, items, name);
      assert w[..0] == [] && Applied(items, w[..0]) == items;
      if !ValidName(name) {
        return false;
      }
      var previous;
      ok, previous := LoadAccounts();
      if !ok {
        return;
      }
      var accounts := NormalizedAccounts(Others(name, previous));
      var index := EncodeIndex(codec, accounts);
      if index.None? {
        return false;
      }
      ghost var m := |MarkWrites(before)|;
      assert w[..m] == MarkWrites(before);
      ok := MarkImportComplete();
      if !ok {
        MarkPrefix(before, w, m, items);
        return;
      }
      assert items == Applied(before, w[..m]) by {
        assert MarkWrites(before)[..m] == MarkWrites(before);
      }
      OneMoreWrite(before, w, m);
      ok := Erase(AccountKey(name));
      if !ok {
        return;
      }
      if accounts != previous {
        OneMoreWrite(before, w, m + 1);
        ok := Write(ACCOUNT_INDEX, index.value);
        if !ok {
          return;
        }
      }
      assert w[..|w|] == w;
      DeleteSignsOut(codec, before, name, |w|);
    }

    /** The private default; failing that, once, the shared login. */
    method LoadDefault(legacy: Option<Session>) returns (r: Loaded)
      modifies this`items, this`faults
      ensures Progress(old(items), items, LoadWrites(codec, old(items), legacy), r.Answered?)
      ensures faults >= old(faults)
      ensures r.Answered? <==> faults == old(faults) && LoadAnswer(codec, old(items), legacy) != Refused
      ensures r.Answered? ==>
                LoadAnswer(codec, old(items), legacy) == if r.session.Some? then Found(r.session.value) else Nothing
    {
      hide PrivateDefault, SaveWrites, Savable;
      assert LoadWrites(codec, items, legacy)[..0] == [] && Applied(items, []) == items;
      var ok, session := LoadPrivateDefault();
      if !ok {
        return Error;
      }
      if session.Some? {
        return Answered(session);
      }
      var complete;
      ok, complete := ImportComplete();
      if !ok {
        return Error;
      }
      if complete {
        return Answered(None);
      }
      var readable: bool := *;
      if !readable {
        faults := faults + 1;
        return Error;
      }
      if legacy.None? {
        return Answered(None);
      }
      ok := Save(legacy.value);
      r := if ok then Answered(legacy) else Error;
    }
  }

  lemma MarkPrefix(before: Items, w: seq<Write>, m: nat, after: Items)
    requires m <= |w| && w[..m] == MarkWrites(before) && Progress(before, after, MarkWrites(before), false)
    ensures Progress(before, after, w, false)
  {
    var n: nat :| n <= m && after == Applied(before, w[..m][..n]);
    assert w[..m][..n] == w[..n];
  }

  /** The writes of a save before the marker do not touch it. */
  lemma SaveKeepsMarker(c: Codec, before: Items, s: Session)
    requires Savable(c, before, s)
    ensures var w := SaveWrites(c, before, s);
            Complete(Applied(before, w[..|w| - |MarkWrites(before)|])) == Complete(before)
  {
    hide ValidName, EncodeSession, EncodeIndex, AccountKey, SavedAccounts, Accounts;
    var w := SaveWrites(c, before, s);
    AccountKeysApart(s.account, s.account);
    assert w[..0] == [];
    OneMoreWrite(before, w, 0);
    if |w| - |MarkWrites(before)| == 2 {
      OneMoreWrite(before, w, 1);
    }
  }
}

/**
What saving one account and signing out of one leave alone: the sessions of the
other accounts, and their places in the index; and what is accepted and answered, in
terms of the stored sessions.
*/
module KeyringFrames {
  import opened Keyring
  import opened Unicode
  import opened Utf8Text
  import opened Wrappers

  // ----- places in a list of names -----

  /** The position of the first occurrence, or the length. */
  function FirstAt(names: seq<Name>, n: Name): (i: nat)
    ensures i <= |names|
    ensures i < |names| ==> names[i] == n
    ensures forall k :: 0 <= k < i ==> names[k] != n
  {
    if names == [] then 0 else if names[0] == n then 0 else 1 + FirstAt(names[1..], n)
  }

  lemma FirstAtMeans(names: seq<Name>, n: Name)
    ensures FirstAt(names, n) < |names| <==> n in names
  {
  }

  lemma {:induction false} FirstAtGrows(names: seq<Name>, last: Name, n: Name)
    ensures FirstAt(names + [last], n) == if n in names then FirstAt(names, n)
                                          else if n == last then |names| else |names| + 1
  {
    var more := names + [last];
    var i := FirstAt(more, n);
    assert forall k :: 0 <= k < |names| ==> more[k] == names[k];
    assert more[|names|] == last;
    if n in names {
      assert more[FirstAt(names, n)] == n;
      assert i < |names| ==> names[i] == n;
    }
  }

  /** `part` keeps the order in which the names first occur in `whole`. */
  ghost predicate InOrder(part: seq<Name>, whole: seq<Name>) {
    forall i, j :: 0 <= i < j < |part| ==> FirstAt(whole, part[i]) < FirstAt(whole, part[j])
  }

  /**
   The index normalised: valid names of it, once each and in its order; a valid
   name is missing only when the limit is reached by names before it.
   */
  ghost predicate Kept(part: seq<Name>, whole: seq<Name>) {
    && (forall n :: n in part ==> n in whole && ValidName(n))
    && InOrder(part, whole) && |part| <= MAX_ACCOUNTS
    && forall n :: n in whole && ValidName(n) && n !in part ==>
         |part| == MAX_ACCOUNTS && forall m :: m in part ==> FirstAt(whole, m) < FirstAt(whole, n)
  }

  /** Names added at the end keep the places of the others. */
  lemma PlacesStay(init: seq<Name>, last: Name)
    ensures forall n :: n in init ==> FirstAt(init + [last], n) == FirstAt(init, n) < |init|
    ensures forall n :: n !in init ==> FirstAt(init + [last], n) >= |init|
  {
    forall n
      ensures n in init ==> FirstAt(init + [last], n) == FirstAt(init, n) < |init|
      ensures n !in init ==> FirstAt(init + [last], n) >= |init|
    {
      FirstAtGrows(init, last, n);
      FirstAtMeans(init, n);
    }
  }

  lemma OrderGrows(part: seq<Name>, init: seq<Name>, last: Name)
    requires InOrder(part, init) && forall n :: n in part ==> n in init
    ensures InOrder(part, init + [last])
    ensures last !in init ==> InOrder(part + [last], init + [last])
  {
    hide FirstAt;
    PlacesStay(init, last);
    assert forall i :: 0 <= i < |part| ==> part[i] in part;
  }

  lemma {:induction false} NormalizedIsKept(names: seq<Name>)
    ensures Kept(Normalized(names), names)
  {
    hide ValidName, FirstAt, InOrder;
    if names != [] {
      var init, last := names[..|names| - 1], names[|names| - 1];
      assert names == init + [last];
      NormalizedIsKept(init);
      OrderGrows(Normalized(init), init, last);
      PlacesStay(init, last);
    } else {
      NothingInOrder(names);
    }
  }

  lemma NothingInOrder(names: seq<Name>)
    ensures InOrder([], names)
  {
  }

  lemma {:induction false} OthersMeans(name: Name, names: seq<Name>)
    ensures forall n :: n in Others(name, names) <==> n in names && n != name
    ensures forall m, n :: m in names && n in names && m != name && n != name ==>
              (FirstAt(Others(name, names), m) < FirstAt(Others(name, names), n)
               <==> FirstAt(names, m) < FirstAt(names, n))
  {
    if names != [] {
      var init, last := names[..|names| - 1], names[|names| - 1];
      assert names == init + [last];
      OthersMeans(name, init);
      var others := Others(name, init);
      forall n
        ensures FirstAt(names, n) == if n in init then FirstAt(init, n)
                                     else if n == last then |init| else |init| + 1
        ensures FirstAt(others + [last], n) == if n in others then FirstAt(others, n)
                                               else if n == last then |others| else |others| + 1
        ensures (FirstAt(init, n) < |init| <==> n in init) && (FirstAt(others, n) < |others| <==> n in others)
      {
        FirstAtGrows(init, last, n);
        FirstAtGrows(others, last, n);
        FirstAtMeans(init, n);
        FirstAtMeans(others, n);
      }
    }
  }

  // ----- sessions of others -----

  /** Writes to the index and the marker touch no session; the others name their account. */
  ghost predicate Only(writes: seq<Write>, name: Name) {
    forall w :: w in writes ==> w.key in {AccountKey(name), ACCOUNT_INDEX, LEGACY_IMPORT_MARKER}
  }

  lemma {:induction false} OnlyOwnSlot(c: Codec, items: Items, writes: seq<Write>, name: Name, other: Name)
    requires Only(writes, name) && other != name
    ensures Slot(c, Applied(items, writes), other) == Slot(c, items, other)
    ensures AccountKey(other) in Applied(items, writes) <==> AccountKey(other) in items
  {
    hide AccountKey;
    AccountKeysApart(name, other);
    AccountKeysApart(other, other);
    if writes != [] {
      var init, last := writes[..|writes| - 1], writes[|writes| - 1];
      assert last in writes && forall w :: w in init ==> w in writes;
      OnlyOwnSlot(c, items, init, name, other);
    }
  }

  /** However far a sign-out gets, the sessions of other accounts stay. */
  lemma DeleteKeepsSessions(c: Codec, items: Items, name: Name, n: nat, other: Name)
    requires n <= |DeleteWrites(c, items, name)| && other != name
    ensures Slot(c, Applied(items, DeleteWrites(c, items, name)[..n]), other) == Slot(c, items, other)
  {
    hide AccountKey, EncodeIndex, ValidName, RemainingAccounts, Complete;
    var w := DeleteWrites(c, items, name);
    assert Only(w, name);
    assert forall x :: x in w[..n] ==> x in w;
    OnlyOwnSlot(c, items, w[..n], name, other);
  }

  /** However far a save gets, the sessions of other accounts stay. */
  lemma SaveKeepsSessions(c: Codec, items: Items, s: Session, n: nat, other: Name)
    requires n <= |SaveWrites(c, items, s)| && other != s.account
    ensures Slot(c, Applied(items, SaveWrites(c, items, s)[..n]), other) == Slot(c, items, other)
  {
    hide AccountKey, EncodeIndex, EncodeSession, Savable, SavedAccounts, Complete;
    var w := SaveWrites(c, items, s);
    assert Only(w, s.account);
    assert forall x :: x in w[..n] ==> x in w;
    OnlyOwnSlot(c, items, w[..n], s.account, other);
  }

  // ----- the index -----

  lemma ReadIndex(c: Codec, items: Items, names: seq<Name>)
    requires c.Lawful() && EncodeIndex(c, names).Some?
    requires ACCOUNT_INDEX in items && items[ACCOUNT_INDEX] == EncodeIndex(c, names).value
    ensures Accounts(c, items) == names
  {
    hide EncodeIndex, DecodeIndex;
    EnvelopesReadBack(c, Session([], false, []), names);
  }

  lemma {:induction false} IndexAfter(c: Codec, items: Items, writes: seq<Write>)
    requires forall w :: w in writes ==> w.key != ACCOUNT_INDEX
    ensures Accounts(c, Applied(items, writes)) == Accounts(c, items)
  {
    hide DecodeIndex;
    if writes != [] {
      var init, last := writes[..|writes| - 1], writes[|writes| - 1];
      assert last in writes && forall w :: w in init ==> w in writes;
      IndexAfter(c, items, init);
    }
  }

  /** Writes that end with the index leave the index they wrote. */
  lemma IndexWritten(c: Codec, items: Items, before: seq<Write>, names: seq<Name>, after: seq<Write>)
    requires c.Lawful() && EncodeIndex(c, names).Some?
    requires forall w :: w in before + after ==> w.key != ACCOUNT_INDEX
    ensures Accounts(c, Applied(items, before + IndexWrites(c, items, names) + after)) == names
  {
    hide EncodeIndex, DecodeIndex, Accounts;
    var w := IndexWrites(c, items, names);
    assert forall x :: x in before ==> x in before + after;
    assert forall x :: x in after ==> x in before + after;
    IndexAfter(c, items, before);
    AppliedInTurn(items, before, w);
    AppliedInTurn(items, before + w, after);
    var mid := Applied(items, before + w);
    if w != [] {
      assert w[..0] == [];
      ReadIndex(c, mid, names);
    }
    IndexAfter(c, mid, after);
  }

  /**
   A completed sign-out leaves in the index exactly the other accounts: valid,
   once each, in their old order, up to the limit; and not the one signed out.
   */
  lemma DeleteKeepsAccounts(c: Codec, items: Items, name: Name)
    requires c.Lawful() && ValidName(name) && EncodeIndex(c, RemainingAccounts(c, items, name)).Some?
    ensures var was, left := Accounts(c, items), Accounts(c, Applied(items, DeleteWrites(c, items, name)));
            && name !in left && |left| <= MAX_ACCOUNTS && InOrder(left, was)
            && (forall n :: n in left ==> n in was && ValidName(n) && n != name)
            && forall n :: n in was && ValidName(n) && n != name && n !in left ==>
                 |left| == MAX_ACCOUNTS && forall m :: m in left ==> FirstAt(was, m) < FirstAt(was, n)
  {
    hide EncodeIndex, ValidName, AccountKey, Complete, Accounts;
    var was := Accounts(c, items);
    var first := MarkWrites(items) + [Remove(AccountKey(name))];
    AccountKeysApart(name, name);
    assert first + [] == first;
    IndexWritten(c, items, first, RemainingAccounts(c, items, name), []);
    assert DeleteWrites(c, items, name) == first + IndexWrites(c, items, RemainingAccounts(c, items, name)) + [];
    NormalizedIsKept(Others(name, was));
    OthersMeans(name, was);
    var r := RemainingAccounts(c, items, name);
    assert forall i :: 0 <= i < |r| ==> r[i] in r;
  }

  /**
   A completed save puts its account first; of the others it loses none but
   those beyond the limit, and keeps their order.
   */
  lemma SaveKeepsAccounts(c: Codec, items: Items, s: Session)
    requires c.Lawful() && Savable(c, items, s)
    ensures var was, left := Accounts(c, items), Accounts(c, Applied(items, SaveWrites(c, items, s)));
            && left != [] && left[0] == s.account && |left| <= MAX_ACCOUNTS
            && (forall n :: n in left && n != s.account ==> n in was && ValidName(n))
            && (forall i, j :: 0 < i < j < |left| ==> FirstAt(was, left[i]) < FirstAt(was, left[j]))
            && forall n :: n in was && ValidName(n) && n !in left ==>
                 |left| == MAX_ACCOUNTS
                 && forall m :: m in left && m != s.account ==> FirstAt(was, m) < FirstAt(was, n)
  {
    hide EncodeIndex, EncodeSession, ValidName, AccountKey, Complete, Accounts, Applied, Normalized, FirstAt;
    var was := Accounts(c, items);
    var first := [Put(AccountKey(s.account), EncodeSession(c, s).value)];
    AccountKeysApart(s.account, s.account);
    IndexWritten(c, items, first, SavedAccounts(c, items, s), MarkWrites(items));
    PutInFront(s.account, was);
  }

  /** A name put in front of a list: what normalisation makes of it. */
  lemma PutInFront(name: Name, was: seq<Name>)
    requires ValidName(name)
    ensures var r := Normalized([name] + was);
            && r != [] && r[0] == name && |r| <= MAX_ACCOUNTS
            && (forall n :: n in r && n != name ==> n in was && ValidName(n))
            && (forall i, j :: 0 < i < j < |r| ==> FirstAt(was, r[i]) < FirstAt(was, r[j]))
            && forall n :: n in was && ValidName(n) && n !in r ==>
                 |r| == MAX_ACCOUNTS && forall m :: m in r && m != name ==> FirstAt(was, m) < FirstAt(was, n)
  {
    hide ValidName, Normalized;
    var names := [name] + was;
    var r := Normalized(names);
    NormalizedIsKept(names);
    NormalizedFirst(name, was);
    forall n
      ensures FirstAt(names, n) == if n == name then 0 else 1 + FirstAt(was, n)
    {
      assert names[1..] == was;
    }
    assert forall i :: 0 <= i < |r| ==> r[i] in r;
    assert forall i :: 0 < i < |r| ==> r[i] != name;
  }

  // ----- what the next load answers -----

  lemma {:induction false} FirstSlotMeans(c: Codec, items: Items, names: seq<Name>)
    ensures FirstSlot(c, items, names).None? <==> forall n :: n in names ==> Slot(c, items, n).None?
    ensures FirstSlot(c, items, names).Some? ==>
              exists i :: 0 <= i < |names| && FirstSlot(c, items, names) == Slot(c, items, names[i])
                          && forall k :: 0 <= k < i ==> Slot(c, items, names[k]).None?
  {
    hide Slot;
    if names != [] {
      FirstSlotMeans(c, items, names[1..]);
      if Slot(c, items, names[0]).None? && FirstSlot(c, items, names).Some? {
        var i :| 0 <= i < |names| - 1 && FirstSlot(c, items, names) == Slot(c, items, names[1..][i])
                 && forall k :: 0 <= k < i ==> Slot(c, items, names[1..][k]).None?;
        assert forall k :: 0 < k <= i ==> names[k] == names[1..][k - 1];
        assert names[i + 1] == names[1..][i];
      }
    }
  }

  /**
   After a completed sign-out the next failure-free load answers the session of
   the first other account that has a usable one, in the order of the index;
   and nothing when there is none.
   */
  lemma DeleteThenLoad(c: Codec, items: Items, name: Name, legacy: Option<Session>)
    requires c.Lawful() && ValidName(name) && EncodeIndex(c, RemainingAccounts(c, items, name)).Some?
    ensures var after := Applied(items, DeleteWrites(c, items, name));
            var names := Accounts(c, after);
            var answer := LoadAnswer(c, after, legacy);
            && (answer == Nothing <==> forall n :: n in names ==> Slot(c, items, n).None?)
            && (answer != Nothing ==>
                  exists i :: 0 <= i < |names| && Slot(c, items, names[i]).Some?
                              && answer == Found(Slot(c, items, names[i]).value)
                              && forall k :: 0 <= k < i ==> Slot(c, items, names[k]).None?)
  {
    hide Slot, DeleteWrites, Accounts, ValidName, EncodeIndex, Applied, AccountKey, Complete, Normalized, FirstSlot;
    var w := DeleteWrites(c, items, name);
    var after := Applied(items, w);
    assert w[..|w|] == w;
    DeleteKeepsAccounts(c, items, name);
    var names := Accounts(c, after);
    RemainingIsNormal(c, items, name);
    forall n | n in names
      ensures Slot(c, after, n) == Slot(c, items, n)
    {
      DeleteKeepsSessions(c, items, name, |w|, n);
    }
    FirstSlotMeans(c, after, names);
    DeletedIsComplete(c, items, name);
    assert forall i :: 0 <= i < |names| ==> names[i] in names;
  }

  lemma RemainingIsNormal(c: Codec, items: Items, name: Name)
    requires c.Lawful() && ValidName(name) && EncodeIndex(c, RemainingAccounts(c, items, name)).Some?
    ensures var names := Accounts(c, Applied(items, DeleteWrites(c, items, name)));
            Normalized(names) == names
  {
    hide EncodeIndex, ValidName, AccountKey, Complete, Accounts;
    var first := MarkWrites(items) + [Remove(AccountKey(name))];
    AccountKeysApart(name, name);
    assert first + [] == first;
    IndexWritten(c, items, first, RemainingAccounts(c, items, name), []);
    assert DeleteWrites(c, items, name) == first + IndexWrites(c, items, RemainingAccounts(c, items, name)) + [];
    NormalizedTwice(Others(name, Accounts(c, items)));
  }

  lemma DeletedIsComplete(c: Codec, items: Items, name: Name)
    requires ValidName(name) && EncodeIndex(c, RemainingAccounts(c, items, name)).Some?
    ensures Complete(Applied(items, DeleteWrites(c, items, name)))
  {
    hide ValidName, EncodeIndex, RemainingAccounts, Applied, AccountKey;
    var w := DeleteWrites(c, items, name);
    assert w[..|w|] == w;
    DeleteSignsOut(c, items, name, |w|);
  }

  // ----- what is accepted, and what a load answers -----

  /** A name is a text of at most 256 bytes with something to see in it and no control character. */
  lemma NameMeans(text: string)
    ensures ValidName(Encoded(text))
       <==> |Encoded(text)| <= 256 && !Blank(text) && forall i :: 0 <= i < |text| ==> !IsControl(text[i])
  {
    hide ControlAt, IsControl, Blank, TrimStart, Encoded;
    TrimmedToNothing(text);
    ControlsMean(text);
    assert forall i :: 0 <= i < |Encoded(text)| && ControlAt(Encoded(text), i) ==> !ValidName(Encoded(text));
  }

  /** A save is refused for a bad name, a session that is not signed in, or one that is too large. */
  lemma SavableMeans(c: Codec, items: Items, s: Session)
    requires c.Lawful()
    ensures Savable(c, items, s)
       <==> && ValidName(s.account) && s.authenticated && |c.writeSession(s)| <= 0x10_0000
            && |c.writeIndex(SavedAccounts(c, items, s))| <= 0x4000
  {
    hide ValidName, EncodeSession, EncodeIndex, SavedAccounts;
    EnvelopesReadBack(c, s, SavedAccounts(c, items, s));
  }

  /** A session that is signed in is stored under its own account, in a form that opens. */
  ghost predicate Stored(c: Codec, items: Items, s: Session) {
    && s.authenticated && AccountKey(s.account) in items
    && DecodeSession(c, items[AccountKey(s.account)]) == Some(s)
  }

  ghost predicate HasStored(c: Codec, items: Items, name: Name) {
    exists s :: Stored(c, items, s) && s.account == name
  }

  lemma SlotMeans(c: Codec, items: Items, name: Name, s: Session)
    ensures Slot(c, items, name) == Some(s) <==> Stored(c, items, s) && s.account == name
    ensures Slot(c, items, name).None? <==> !HasStored(c, items, name)
  {
    hide AccountKey, DecodeSession;
    if Slot(c, items, name).Some? {
      assert Stored(c, items, Slot(c, items, name).value);
    }
  }

  /** The first of these accounts with a stored session has this one. */
  ghost predicate FirstStored(c: Codec, items: Items, names: seq<Name>, s: Session) {
    exists k :: 0 <= k < |names| && names[k] == s.account && Stored(c, items, s)
           && forall j :: 0 <= j < k ==> !HasStored(c, items, names[j])
  }

  ghost predicate NoneStored(c: Codec, items: Items, names: seq<Name>) {
    forall n :: n in names ==> !HasStored(c, items, n)
  }

  lemma {:induction false} FirstSlotIs(c: Codec, items: Items, names: seq<Name>, s: Session)
    ensures FirstSlot(c, items, names) == Some(s) <==> FirstStored(c, items, names, s)
    ensures FirstSlot(c, items, names).None? <==> NoneStored(c, items, names)
  {
    hide Slot, Stored, HasStored;
    if names != [] {
      var rest := names[1..];
      SlotMeans(c, items, names[0], s);
      FirstSlotIs(c, items, rest, s);
      assert forall j :: 0 <= j < |rest| ==> rest[j] == names[j + 1];
      if k :| 0 <= k < |rest| && rest[k] == s.account && Stored(c, items, s)
              && forall j :: 0 <= j < k ==> !HasStored(c, items, rest[j]) {
        assert names[k + 1] == s.account;
      }
      if k :| 0 <= k < |names| && names[k] == s.account && Stored(c, items, s)
              && forall j :: 0 <= j < k ==> !HasStored(c, items, names[j]) {
        assert k > 0 ==> rest[k - 1] == s.account;
        StoredHas(c, items, s);
      }
    }
  }

  lemma StoredHas(c: Codec, items: Items, s: Session)
    ensures Stored(c, items, s) ==> HasStored(c, items, s.account)
  {
  }

  /**
   A load answers the stored session of the first indexed account that has one.
   Without any, it imports the shared login, once, if it can be saved; a login
   that cannot is refused, and after the import nothing is found any more.
   */
  lemma AnswerMeans(c: Codec, items: Items, legacy: Option<Session>, s: Session)
    ensures var names := Normalized(Accounts(c, items));
            var imports := NoneStored(c, items, names) && !Complete(items) && legacy.Some?;
            && (LoadAnswer(c, items, legacy) == Found(s) <==>
                || FirstStored(c, items, names, s)
                || (imports && legacy == Some(s) && Savable(c, items, s)))
            && (LoadAnswer(c, items, legacy) == Nothing <==>
                NoneStored(c, items, names) && (Complete(items) || legacy.None?))
            && (LoadAnswer(c, items, legacy) == Refused <==> imports && !Savable(c, items, legacy.value))
            && (LoadWrites(c, items, legacy) != [] ==> imports && Savable(c, items, legacy.value))
  {
    hide Normalized, Accounts, Complete, Savable, FirstSlot, FirstStored, NoneStored;
    var names := Normalized(Accounts(c, items));
    FirstSlotIs(c, items, names, s);
    if PrivateDefault(c, items).Some? {
      FirstSlotIs(c, items, names, PrivateDefault(c, items).value);
      FirstNotNone(c, items, names, PrivateDefault(c, items).value);
    }
    FirstNotNone(c, items, names, s);
  }

  lemma FirstNotNone(c: Codec, items: Items, names: seq<Name>, s: Session)
    ensures FirstStored(c, items, names, s) ==> !NoneStored(c, items, names)
  {
    StoredHas(c, items, s);
  }

  /** The import leaves the login as the default of every later load, and is not repeated. */
  lemma ImportIsKept(c: Codec, items: Items, legacy: Option<Session>)
    requires c.Lawful() && !Complete(items) && legacy.Some? && Savable(c, items, legacy.value)
    requires NoneStored(c, items, Normalized(Accounts(c, items)))
    ensures var after := Applied(items, LoadWrites(c, items, legacy));
            Complete(after) && forall later :: LoadAnswer(c, after, later) == Found(legacy.value)
  {
    hide Normalized, Accounts, Savable, FirstSlot, NoneStored, SaveWrites, Applied, SavedAccounts, WithSession,
         WithIndex, WithMark, LoadAnswer, Complete;
    var s := legacy.value;
    FirstSlotIs(c, items, Normalized(Accounts(c, items)), s);
    SaveStates(c, items, s, |SaveWrites(c, items, s)|);
    SavedIsDefault(c, items, s);
    forall later ensures LoadAnswer(c, Applied(items, LoadWrites(c, items, legacy)), later) == Found(s) {
      SaveThenLoad(c, items, s, later);
    }
  }
}

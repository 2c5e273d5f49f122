/**
The private keyring of the agent: sealed sessions and a sealed account index,
one-time import of a shared login, and sign-out that survives failures. Each
operation is an ordered list of writes; a failing call, or the end of the run,
leaves a prefix of it.
*/
module Keyring {
  import opened Bytes
  import opened Unicode
  import opened Wrappers
  import opened Encoding

  const ACCOUNT_INDEX := "accounts-v1"
  const LEGACY_IMPORT_MARKER := "legacy-import-v1"
  const LEGACY_IMPORT_COMPLETE := "complete"
  const SESSION_PREFIX := "pvom1:"
  const INDEX_PREFIX := "pvom-index1:"
  const MAX_ACCOUNTS := 32
  const MAX_NAME_BYTES := 256
  const MAX_SESSION_BYTES := 1024 * 1024
  const MAX_SESSION_ENVELOPE := 1400 * 1024
  const MAX_INDEX_BYTES := 16 * 1024
  const MAX_INDEX_ENVELOPE := 24 * 1024

  /** An account name as its bytes. */
  type Name = seq<byte>

  datatype Session = Session(account: Name, authenticated: bool, content: seq<byte>)

  /** The serialisation of sessions and of the index. */
  datatype Codec = Codec(writeSession: Session -> seq<byte>, readSession: seq<byte> -> Option<Session>,
                         writeIndex: seq<Name> -> seq<byte>, readIndex: seq<byte> -> Option<seq<Name>>)
  {
    ghost predicate Lawful() {
      && (forall s :: readSession(writeSession(s)) == Some(s))
      && forall names :: readIndex(writeIndex(names)) == Some(names)
    }
  }

  type Items = map<string, string>

  // ----- envelopes -----

  function Seal(prefix: string, raw: seq<byte>, limit: nat, envelopeLimit: nat): Option<string> {
    if |raw| > limit then None
    else
      var text := prefix + Base64Encode(raw);
      if |text| > envelopeLimit then None else Some(text)
  }

  function Open(prefix: string, text: string, limit: nat, envelopeLimit: nat): Option<seq<byte>> {
    if |text| > envelopeLimit || !(prefix <= text) then None
    else
      match Base64Decode(text[|prefix|..])
      case Some(raw) => if |raw| > limit then None else Some(raw)
      case None => None
  }

  /** When the envelope has room for the limit, everything within the limit is sealed and opens again. */
  lemma SealThenOpen(prefix: string, raw: seq<byte>, limit: nat, envelopeLimit: nat)
    requires 3 * |prefix| + 4 * limit + 2 <= 3 * envelopeLimit
    ensures Seal(prefix, raw, limit, envelopeLimit).Some? <==> |raw| <= limit
    ensures |raw| <= limit ==>
              Open(prefix, Seal(prefix, raw, limit, envelopeLimit).value, limit, envelopeLimit) == Some(raw)
  {
    hide Base64Encode, Base64Decode;
    Base64RoundTrip(raw);
    assert (prefix + Base64Encode(raw))[|prefix|..] == Base64Encode(raw);
  }

  function EncodeSession(c: Codec, s: Session): Option<string> {
    Seal(SESSION_PREFIX, c.writeSession(s), MAX_SESSION_BYTES, MAX_SESSION_ENVELOPE)
  }

  function DecodeSession(c: Codec, text: string): Option<Session> {
    match Open(SESSION_PREFIX, text, MAX_SESSION_BYTES, MAX_SESSION_ENVELOPE)
    case Some(raw) => c.readSession(raw)
    case None => None
  }

  function EncodeIndex(c: Codec, names: seq<Name>): Option<string> {
    Seal(INDEX_PREFIX, c.writeIndex(names), MAX_INDEX_BYTES, MAX_INDEX_ENVELOPE)
  }

  function DecodeIndex(c: Codec, text: string): Option<seq<Name>> {
    match Open(INDEX_PREFIX, text, MAX_INDEX_BYTES, MAX_INDEX_ENVELOPE)
    case Some(raw) => c.readIndex(raw)
    case None => None
  }

  /** The writer never produces what the reader rejects, and refuses only what exceeds the raw limit. */
  lemma EnvelopesReadBack(c: Codec, s: Session, names: seq<Name>)
    requires c.Lawful()
    ensures EncodeSession(c, s).Some? <==> |c.writeSession(s)| <= MAX_SESSION_BYTES
    ensures EncodeSession(c, s).Some? ==> DecodeSession(c, EncodeSession(c, s).value) == Some(s)
    ensures EncodeIndex(c, names).Some? <==> |c.writeIndex(names)| <= MAX_INDEX_BYTES
    ensures EncodeIndex(c, names).Some? ==> DecodeIndex(c, EncodeIndex(c, names).value) == Some(names)
  {
    hide Seal, Open;
    SealThenOpen(SESSION_PREFIX, c.writeSession(s), MAX_SESSION_BYTES, MAX_SESSION_ENVELOPE);
    SealThenOpen(INDEX_PREFIX, c.writeIndex(names), MAX_INDEX_BYTES, MAX_INDEX_ENVELOPE);
  }

  // ----- names and keys -----

  /** Not blank, not too long, no control characters. */
  predicate ValidName(name: Name) {
    && |name| <= MAX_NAME_BYTES && TrimStart(name) != []
    && forall i :: 0 <= i < |name| ==> !ControlAt(name, i)
  }

  function AccountKey(name: Name): string { "account-v1-" + Base32Encode(name) }

  lemma AccountKeysApart(a: Name, b: Name)
    ensures AccountKey(a) == AccountKey(b) ==> a == b
    ensures AccountKey(a) != ACCOUNT_INDEX && AccountKey(a) != LEGACY_IMPORT_MARKER
  {
    hide Base32Encode;
    assert AccountKey(a)[7] == '-' && ACCOUNT_INDEX[7] == 's';
    assert AccountKey(a)[0] == 'a' && LEGACY_IMPORT_MARKER[0] == 'l';
    if AccountKey(a) == AccountKey(b) {
      assert AccountKey(a)[11..] == Base32Encode(a) && AccountKey(b)[11..] == Base32Encode(b);
      Base32Injective(a, b);
    }
  }

  /** The first 32 different valid names. */
  function Normalized(names: seq<Name>): (r: seq<Name>)
    ensures |r| <= MAX_ACCOUNTS
    ensures forall n :: n in r ==> n in names && ValidName(n)
  {
    if names == [] then []
    else
      var init, last := Normalized(names[..|names| - 1]), names[|names| - 1];
      if |init| < MAX_ACCOUNTS && ValidName(last) && last !in init then init + [last] else init
  }

  method NormalizedAccounts(names: seq<Name>) returns (result: seq<Name>)
    ensures result == Normalized(names)
  {
    result := [];
    for i := 0 to |names|
      invariant result == Normalized(names[..i]) && |result| < MAX_ACCOUNTS
    {
      assert names[..i + 1][..i] == names[..i];
      var name := names[i];
      if ValidName(name) && name !in result {
        result := result + [name];
        if |result| == MAX_ACCOUNTS {
          NormalizedFull(names, i + 1);
          return;
        }
      }
    }
    assert names[..|names|] == names;
  }

  /** Once full, nothing is added. */
  lemma {:induction false} NormalizedFull(names: seq<Name>, i: nat)
    requires i <= |names| && |Normalized(names[..i])| == MAX_ACCOUNTS
    ensures Normalized(names) == Normalized(names[..i])
    decreases |names|
  {
    if i == |names| {
      assert names[..i] == names;
    } else {
      var init := names[..|names| - 1];
      assert init[..i] == names[..i];
      NormalizedFull(init, i);
    }
  }

  /** A valid name put in front comes first. */
  lemma {:induction false} NormalizedFirst(name: Name, names: seq<Name>)
    requires ValidName(name)
    ensures Normalized([name] + names) != [] && Normalized([name] + names)[0] == name
  {
    if names == [] {
      assert [name] + names == [name] && [name][..0] == [];
    } else {
      NormalizedFirst(name, names[..|names| - 1]);
      assert ([name] + names)[..|names|] == [name] + names[..|names| - 1];
    }
  }

  lemma {:induction false} NormalizedTwice(names: seq<Name>)
    ensures Normalized(Normalized(names)) == Normalized(names)
  {
    if names != [] {
      var init, last := names[..|names| - 1], names[|names| - 1];
      NormalizedTwice(init);
      var n := Normalized(init);
      assert (n + [last])[..|n|] == n;
    }
  }

  // ----- what a failure-free load answers -----

  function Accounts(c: Codec, items: Items): seq<Name> {
    if ACCOUNT_INDEX !in items then []
    else match DecodeIndex(c, items[ACCOUNT_INDEX]) case Some(names) => names case None => []
  }

  /** The usable session stored for an account. */
  function Slot(c: Codec, items: Items, name: Name): Option<Session> {
    if AccountKey(name) !in items then None
    else
      match DecodeSession(c, items[AccountKey(name)])
      case Some(s) => if s.account == name && s.authenticated then Some(s) else None
      case None => None
  }

  function FirstSlot(c: Codec, items: Items, names: seq<Name>): Option<Session> {
    if names == [] then None
    else if Slot(c, items, names[0]).Some? then Slot(c, items, names[0])
    else FirstSlot(c, items, names[1..])
  }

  function PrivateDefault(c: Codec, items: Items): Option<Session> {
    FirstSlot(c, items, Normalized(Accounts(c, items)))
  }

  predicate Complete(items: Items) {
    LEGACY_IMPORT_MARKER in items && items[LEGACY_IMPORT_MARKER] == LEGACY_IMPORT_COMPLETE
  }

  function SavedAccounts(c: Codec, items: Items, s: Session): seq<Name> {
    Normalized([s.account] + Accounts(c, items))
  }

  /** What saving validates before its first write. */
  predicate Savable(c: Codec, items: Items, s: Session) {
    && ValidName(s.account) && s.authenticated
    && EncodeSession(c, s).Some? && EncodeIndex(c, SavedAccounts(c, items, s)).Some?
  }

  datatype Answer = Found(session: Session) | Nothing | Refused

  /** `legacy` is the login found in the shared entries, if any. */
  function LoadAnswer(c: Codec, items: Items, legacy: Option<Session>): Answer {
    match PrivateDefault(c, items)
    case Some(s) => Found(s)
    case None =>
      if Complete(items) || legacy.None? then Nothing
      else if Savable(c, items, legacy.value) then Found(legacy.value) else Refused
  }

  // ----- operations as ordered writes -----

  datatype Write = Put(key: string, value: string) | Remove(key: string)

  function Applied(items: Items, writes: seq<Write>): Items {
    if writes == [] then items
    else
      var before := Applied(items, writes[..|writes| - 1]);
      match writes[|writes| - 1]
      case Put(key, value) => before[key := value]
      case Remove(key) => before - {key}
  }

  function MarkWrites(items: Items): seq<Write> {
    if Complete(items) then [] else [Put(LEGACY_IMPORT_MARKER, LEGACY_IMPORT_COMPLETE)]
  }

  function IndexWrites(c: Codec, items: Items, names: seq<Name>): seq<Write>
    requires EncodeIndex(c, names).Some?
  {
    if names == Accounts(c, items) then [] else [Put(ACCOUNT_INDEX, EncodeIndex(c, names).value)]
  }

  /** The session, then the index, then the import marker. */
  function SaveWrites(c: Codec, items: Items, s: Session): seq<Write> {
    if !Savable(c, items, s) then []
    else
      [Put(AccountKey(s.account), EncodeSession(c, s).value)]
      + IndexWrites(c, items, SavedAccounts(c, items, s))
      + MarkWrites(items)
  }

  function Others(name: Name, names: seq<Name>): seq<Name> {
    if names == [] then []
    else
      var init, last := Others(name, names[..|names| - 1]), names[|names| - 1];
      if last == name then init else init + [last]
  }

  function RemainingAccounts(c: Codec, items: Items, name: Name): seq<Name> {
    Normalized(Others(name, Accounts(c, items)))
  }

  /** The marker first, so that no later failure lets the login be imported again. */
  function DeleteWrites(c: Codec, items: Items, name: Name): seq<Write> {
    if !ValidName(name) || EncodeIndex(c, RemainingAccounts(c, items, name)).None? then []
    else
      MarkWrites(items) + [Remove(AccountKey(name))] + IndexWrites(c, items, RemainingAccounts(c, items, name))
  }

  /** A load writes only when it imports the shared login. */
  function LoadWrites(c: Codec, items: Items, legacy: Option<Session>): seq<Write> {
    if PrivateDefault(c, items).None? && !Complete(items) && legacy.Some?
    then SaveWrites(c, items, legacy.value) else []
  }

  lemma {:induction false} AppliedInTurn(items: Items, a: seq<Write>, b: seq<Write>)
    ensures Applied(items, a + b) == Applied(Applied(items, a), b)
  {
    if b == [] {
      assert a + b == a;
    } else {
      AppliedInTurn(items, a, b[..|b| - 1]);
      assert (a + b)[..|a + b| - 1] == a + b[..|b| - 1];
    }
  }

  lemma NoWrites(items: Items, writes: seq<Write>)
    ensures Applied(items, writes[..0]) == items
  {
  }

  lemma OneMoreWrite(items: Items, writes: seq<Write>, n: nat)
    requires n < |writes|
    ensures Applied(items, writes[..n + 1])
         == match writes[n]
            case Put(key, value) => Applied(items, writes[..n])[key := value]
            case Remove(key) => Applied(items, writes[..n]) - {key}
  {
    assert writes[..n + 1][..n] == writes[..n];
  }

  // ----- saving -----

  function WithSession(c: Codec, items: Items, s: Session): Items
    requires Savable(c, items, s)
  {
    items[AccountKey(s.account) := EncodeSession(c, s).value]
  }

  function WithIndex(c: Codec, items: Items, names: seq<Name>, held: Items): Items
    requires EncodeIndex(c, names).Some?
  {
    if names == Accounts(c, held) then items else items[ACCOUNT_INDEX := EncodeIndex(c, names).value]
  }

  function WithMark(items: Items): Items {
    items[LEGACY_IMPORT_MARKER := LEGACY_IMPORT_COMPLETE]
  }

  /** The states a save passes through. */
  lemma SaveStates(c: Codec, items: Items, s: Session, n: nat)
    requires Savable(c, items, s) && n <= |SaveWrites(c, items, s)|
    ensures var s1 := WithSession(c, items, s);
            var s2 := WithIndex(c, s1, SavedAccounts(c, items, s), items);
            && Applied(items, SaveWrites(c, items, s)[..n]) in {items, s1, s2, WithMark(s2)}
            && (n == |SaveWrites(c, items, s)| ==>
                  Applied(items, SaveWrites(c, items, s)) == if Complete(items) then s2 else WithMark(s2))
  {
    hide Applied, Savable, Complete, Accounts, SavedAccounts, EncodeSession, EncodeIndex, AccountKey;
    var w := SaveWrites(c, items, s);
    assert w[..|w|] == w;
    NoWrites(items, w);
    OneMoreWrite(items, w, 0);
    if |w| >= 2 {
      OneMoreWrite(items, w, 1);
    }
    if |w| >= 3 {
      OneMoreWrite(items, w, 2);
    }
  }

  lemma SlotsAfterSession(c: Codec, items: Items, s: Session, name: Name)
    requires c.Lawful() && Savable(c, items, s)
    ensures Slot(c, WithSession(c, items, s), name) == if name == s.account then Some(s) else Slot(c, items, name)
    ensures Accounts(c, WithSession(c, items, s)) == Accounts(c, items)
    ensures Complete(WithSession(c, items, s)) == Complete(items)
  {
    hide EncodeSession, EncodeIndex, DecodeSession, DecodeIndex, AccountKey, Normalized;
    EnvelopesReadBack(c, s, []);
    AccountKeysApart(s.account, name);
  }

  /** Neither the index nor the marker is a session. */
  lemma SlotsElsewhere(c: Codec, items: Items, key: string, value: string, name: Name)
    requires key == ACCOUNT_INDEX || key == LEGACY_IMPORT_MARKER
    ensures Slot(c, items[key := value], name) == Slot(c, items, name)
    ensures AccountKey(name) in items[key := value] <==> AccountKey(name) in items
  {
    hide AccountKey;
    AccountKeysApart(name, name);
  }

  /** Filling one slot leaves the first usable session, or makes the new one first. */
  lemma {:induction false} FirstSlotFilled(c: Codec, a: Items, b: Items, names: seq<Name>, s: Session)
    requires forall name :: Slot(c, b, name) == if name == s.account then Some(s) else Slot(c, a, name)
    ensures FirstSlot(c, b, names) == FirstSlot(c, a, names) || FirstSlot(c, b, names) == Some(s)
  {
    if names != [] {
      FirstSlotFilled(c, a, b, names[1..], s);
    }
  }

  lemma AccountsAfterIndex(c: Codec, items: Items, names: seq<Name>, held: Items)
    requires c.Lawful() && EncodeIndex(c, names).Some? && Accounts(c, items) == Accounts(c, held)
    ensures Accounts(c, WithIndex(c, items, names, held)) == names
    ensures Accounts(c, WithMark(items)) == Accounts(c, items)
    ensures Complete(WithIndex(c, items, names, held)) == Complete(items)
  {
    hide EncodeIndex, DecodeIndex;
    EnvelopesReadBack(c, Session([], false, []), names);
  }

  /** After the index is written, and ever after, the saved session is the default. */
  lemma SavedIsDefault(c: Codec, items: Items, s: Session)
    requires c.Lawful() && Savable(c, items, s)
    ensures var s2 := WithIndex(c, WithSession(c, items, s), SavedAccounts(c, items, s), items);
            && PrivateDefault(c, s2) == Some(s) && PrivateDefault(c, WithMark(s2)) == Some(s)
            && Complete(s2) == Complete(items) && Complete(WithMark(s2))
  {
    hide Slot, EncodeSession, EncodeIndex, DecodeIndex, AccountKey, Normalized, Accounts;
    var names, s1 := SavedAccounts(c, items, s), WithSession(c, items, s);
    var s2 := WithIndex(c, s1, names, items);
    SlotsAfterSession(c, items, s, s.account);
    AccountsAfterIndex(c, s1, names, items);
    AccountsAfterIndex(c, s2, names, s2);
    NormalizedTwice([s.account] + Accounts(c, items));
    NormalizedFirst(s.account, Accounts(c, items));
    if s2 != s1 {
      SlotsElsewhere(c, s1, ACCOUNT_INDEX, EncodeIndex(c, names).value, s.account);
    }
    SlotsElsewhere(c, s2, LEGACY_IMPORT_MARKER, LEGACY_IMPORT_COMPLETE, s.account);
  }

  /** A successful save is what the next failure-free load returns, whatever the shared entries hold. */
  lemma SaveThenLoad(c: Codec, items: Items, s: Session, legacy: Option<Session>)
    requires c.Lawful() && Savable(c, items, s)
    ensures LoadAnswer(c, Applied(items, SaveWrites(c, items, s)), legacy) == Found(s)
  {
    hide Savable, SavedAccounts, WithSession, WithIndex, WithMark, PrivateDefault, SaveWrites, Applied;
    SaveStates(c, items, s, |SaveWrites(c, items, s)|);
    SavedIsDefault(c, items, s);
  }

  /** However far a save gets, the default is the previous one or the saved one. */
  lemma PartialSave(c: Codec, items: Items, s: Session, n: nat)
    requires c.Lawful() && Savable(c, items, s) && n <= |SaveWrites(c, items, s)|
    ensures var after := PrivateDefault(c, Applied(items, SaveWrites(c, items, s)[..n]));
            after == PrivateDefault(c, items) || after == Some(s)
  {
    hide Savable, SavedAccounts, WithSession, WithIndex, WithMark, SaveWrites, Applied, Slot, Accounts;
    SaveStates(c, items, s, n);
    SavedIsDefault(c, items, s);
    forall name
      ensures Slot(c, WithSession(c, items, s), name) == if name == s.account then Some(s) else Slot(c, items, name)
    {
      SlotsAfterSession(c, items, s, name);
    }
    SlotsAfterSession(c, items, s, s.account);
    FirstSlotFilled(c, items, WithSession(c, items, s), Normalized(Accounts(c, items)), s);
  }

  /** The marker only appears once the saved session is the default. */
  lemma MarkedLast(c: Codec, items: Items, s: Session, n: nat)
    requires c.Lawful() && Savable(c, items, s) && !Complete(items) && n <= |SaveWrites(c, items, s)|
    ensures var after := Applied(items, SaveWrites(c, items, s)[..n]);
            Complete(after) ==> PrivateDefault(c, after) == Some(s)
  {
    hide Savable, SavedAccounts, WithSession, WithIndex, WithMark, SaveWrites, Applied, PrivateDefault, Complete;
    SaveStates(c, items, s, n);
    SavedIsDefault(c, items, s);
    SlotsAfterSession(c, items, s, s.account);
  }

  /**
   Loading is idempotent under interruption: wherever the import of the shared
   login is cut, the next failure-free load answers what this one would have.
   */
  lemma InterruptedImport(c: Codec, items: Items, legacy: Option<Session>, n: nat)
    requires c.Lawful() && n <= |LoadWrites(c, items, legacy)|
    ensures LoadAnswer(c, Applied(items, LoadWrites(c, items, legacy)[..n]), legacy) == LoadAnswer(c, items, legacy)
  {
    var w := LoadWrites(c, items, legacy);
    if n == 0 {
      assert w[..0] == [];
    } else {
      var s := legacy.value;
      PartialSave(c, items, s, n);
      MarkedLast(c, items, s, n);
      StillSavable(c, items, s, n);
    }
  }

  /** Until the session is the default, it can be saved again. */
  lemma StillSavable(c: Codec, items: Items, s: Session, n: nat)
    requires c.Lawful() && Savable(c, items, s) && n <= |SaveWrites(c, items, s)|
    ensures var after := Applied(items, SaveWrites(c, items, s)[..n]);
            PrivateDefault(c, after) == Some(s) || Savable(c, after, s)
  {
    hide SavedAccounts, WithSession, WithIndex, WithMark, SaveWrites, Applied, PrivateDefault, Complete,
         EncodeSession, EncodeIndex;
    SaveStates(c, items, s, n);
    SavedIsDefault(c, items, s);
    SlotsAfterSession(c, items, s, s.account);
    assert SavedAccounts(c, WithSession(c, items, s), s) == SavedAccounts(c, items, s) by {
      SameAccountsSaved(c, items, WithSession(c, items, s), s);
    }
  }

  lemma SameAccountsSaved(c: Codec, a: Items, b: Items, s: Session)
    requires Accounts(c, a) == Accounts(c, b)
    ensures SavedAccounts(c, a, s) == SavedAccounts(c, b, s)
  {
  }

  // ----- signing out -----

  /** The account has been signed out for good: no session, and no import any more. */
  ghost predicate SignedOut(items: Items, name: Name) {
    AccountKey(name) !in items && Complete(items)
  }

  datatype Operation = Load(legacy: Option<Session>) | Save(session: Session) | Delete(name: Name)

  function WritesOf(c: Codec, items: Items, op: Operation): seq<Write> {
    match op
    case Load(legacy) => LoadWrites(c, items, legacy)
    case Save(s) => SaveWrites(c, items, s)
    case Delete(name) => DeleteWrites(c, items, name)
  }

  /** A run: each operation with the number of its writes that took effect. */
  function After(c: Codec, items: Items, run: seq<(Operation, nat)>): Items {
    if run == [] then items
    else
      var before := After(c, items, run[..|run| - 1]);
      var (op, n) := run[|run| - 1];
      var writes := WritesOf(c, before, op);
      Applied(before, if n < |writes| then writes[..n] else writes)
  }

  /** The writes neither store a session of the account nor unmark the import. */
  ghost predicate Harmless(writes: seq<Write>, name: Name) {
    && (forall w :: w in writes && w.Put? ==> w.key != AccountKey(name))
    && forall w :: w in writes && w.key == LEGACY_IMPORT_MARKER ==>
         w == Put(LEGACY_IMPORT_MARKER, LEGACY_IMPORT_COMPLETE)
  }

  lemma {:induction false} HarmlessKeepsSignedOut(items: Items, writes: seq<Write>, name: Name)
    requires SignedOut(items, name) && Harmless(writes, name)
    ensures SignedOut(Applied(items, writes), name)
  {
    hide AccountKey;
    if writes != [] {
      var init, last := writes[..|writes| - 1], writes[|writes| - 1];
      assert last in writes && forall w :: w in init ==> w in writes;
      HarmlessKeepsSignedOut(items, init, name);
      AccountKeysApart(name, name);
    }
  }

  lemma SaveIsHarmless(c: Codec, items: Items, s: Session, name: Name)
    requires s.account != name
    ensures Harmless(SaveWrites(c, items, s), name)
  {
    hide AccountKey, Savable, EncodeSession, EncodeIndex, SavedAccounts, Accounts, Complete;
    AccountKeysApart(name, name);
    AccountKeysApart(s.account, name);
  }

  lemma DeleteIsHarmless(c: Codec, items: Items, other: Name, name: Name)
    ensures Harmless(DeleteWrites(c, items, other), name)
  {
    hide AccountKey, EncodeIndex, RemainingAccounts, ValidName, Accounts, Complete;
    AccountKeysApart(name, name);
    AccountKeysApart(other, other);
  }

  lemma OperationKeepsSignedOut(c: Codec, items: Items, op: Operation, n: nat, name: Name)
    requires SignedOut(items, name) && (op.Save? ==> op.session.account != name)
    ensures var writes := WritesOf(c, items, op);
            SignedOut(Applied(items, if n < |writes| then writes[..n] else writes), name)
  {
    hide AccountKey, SaveWrites, DeleteWrites, PrivateDefault;
    match op {
      case Load(_) =>
      case Save(s) => SaveIsHarmless(c, items, s, name);
      case Delete(other) => DeleteIsHarmless(c, items, other, name);
    }
    var writes := WritesOf(c, items, op);
    var done := if n < |writes| then writes[..n] else writes;
    assert forall w :: w in done ==> w in writes;
    HarmlessKeepsSignedOut(items, done, name);
  }

  /**
   Durable sign-out. Over every later run of loads, of saves of other accounts
   and of sign-outs, each cut anywhere, and whatever the shared entries hold,
   no load answers with the account that was signed out.
   */
  lemma {:induction false} DurableSignOut(c: Codec, items: Items, run: seq<(Operation, nat)>, name: Name)
    requires SignedOut(items, name)
    requires forall i :: 0 <= i < |run| && run[i].0.Save? ==> run[i].0.session.account != name
    ensures SignedOut(After(c, items, run), name)
    ensures forall legacy: Option<Session>, s ::
              LoadAnswer(c, After(c, items, run), legacy) == Found(s) ==> s.account != name
  {
    hide WritesOf, Applied;
    if run != [] {
      var init, last := run[..|run| - 1], run[|run| - 1];
      DurableSignOut(c, items, init, name);
      OperationKeepsSignedOut(c, After(c, items, init), last.0, last.1, name);
    }
    SignedOutNotDefault(c, After(c, items, run), Normalized(Accounts(c, After(c, items, run))), name);
  }

  lemma {:induction false} SignedOutNotDefault(c: Codec, items: Items, names: seq<Name>, name: Name)
    requires SignedOut(items, name)
    ensures FirstSlot(c, items, names).Some? ==> FirstSlot(c, items, names).value.account != name
  {
    hide AccountKey;
    if names != [] {
      SignedOutNotDefault(c, items, names[1..], name);
    }
  }

  /** A sign-out holds from the removal of the session on, even when the index is never rewritten. */
  lemma DeleteSignsOut(c: Codec, items: Items, name: Name, n: nat)
    requires n <= |DeleteWrites(c, items, name)| && n > |MarkWrites(items)|
    ensures SignedOut(Applied(items, DeleteWrites(c, items, name)[..n]), name)
  {
    hide Applied, SignedOut, Harmless, AccountKey, EncodeIndex, RemainingAccounts, ValidName, Complete;
    var w, k := DeleteWrites(c, items, name), |MarkWrites(items)|;
    assert w[..k] == MarkWrites(items);
    MarkCompletes(items);
    OneMoreWrite(items, w, k);
    RemovedIsSignedOut(Applied(items, w[..k]), name);
    assert w[..n] == w[..k + 1] + w[k + 1..n];
    AppliedInTurn(items, w[..k + 1], w[k + 1..n]);
    DeleteIsHarmless(c, items, name, name);
    PartIsHarmless(w, k + 1, n, name);
    HarmlessKeepsSignedOut(Applied(items, w[..k + 1]), w[k + 1..n], name);
  }

  lemma RemovedIsSignedOut(items: Items, name: Name)
    requires Complete(items)
    ensures SignedOut(items - {AccountKey(name)}, name)
  {
    hide AccountKey;
    AccountKeysApart(name, name);
  }

  lemma PartIsHarmless(writes: seq<Write>, i: nat, j: nat, name: Name)
    requires i <= j <= |writes| && Harmless(writes, name)
    ensures Harmless(writes[i..j], name)
  {
    assert forall w :: w in writes[i..j] ==> w in writes;
  }

  lemma MarkCompletes(items: Items)
    ensures Complete(Applied(items, MarkWrites(items)))
  {
    if !Complete(items) {
      assert MarkWrites(items)[..0] == [];
    }
  }
}

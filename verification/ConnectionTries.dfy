/**
When a sequence of automatic connection asks for a connect, when it goes on to
another round and how it ends, in terms of the answers its rounds meet.
*/
module ConnectionTries {
  import opened Wrappers
  import opened AutoConnect

  /** The account, the settings and the backend all allow a connect, and nothing is going on. */
  ghost predicate Allowed(seen: Journal, o: Once) {
    && o.enabled && o.account.Fine? && o.loggedIn && o.observe.Fine? && !o.busy && o.stillEnabled
    && !seen(o.peekAt) && o.resolve.Fine?
  }

  /** The first failure among the questions that are asked, the connect last. */
  ghost function FirstFailure(seen: Journal, o: Once): Reply {
    if o.enabled && o.account.Failure? then o.account
    else if o.enabled && o.loggedIn && o.observe.Failure? then o.observe
    else if !o.enabled || !o.loggedIn || o.busy || !o.stillEnabled || seen(o.peekAt) then Fine
    else if o.resolve.Failure? then o.resolve
    else o.connect
  }

  /** A try sends a connect exactly when everything allows it; its reply is its first failure. */
  lemma OnceMeans(seen: Journal, o: Once)
    ensures Sent in OnceLog(seen, o).0 <==> Allowed(seen, o)
    ensures OnceLog(seen, o).1 == FirstFailure(seen, o)
    ensures OnceLog(seen, o).2 <==> o.enabled && o.account.Fine? && o.loggedIn
  {
  }

  ghost predicate Cancelled(seen: Journal, t: Try) {
    var reply := FirstFailure(seen, t.once);
    reply.Failure? && reply.cancelled
  }

  ghost predicate Passing(seen: Journal, t: Try) {
    var reply := FirstFailure(seen, t.once);
    reply.Failure? && reply.retryable && !reply.cancelled
  }

  ghost predicate Quiet(seen: Journal, w: Wake) { !seen(w.at) && w.enabled && !w.connected }

  /** None of the looks at the state between two rounds gives a reason to stop. */
  ghost predicate AllQuiet(seen: Journal, wakes: seq<Wake>) {
    forall k :: 0 <= k < |wakes| ==> Quiet(seen, wakes[k])
  }

  /** One of them sees an interruption, and those before it give no reason to stop. */
  ghost predicate Disturbed(seen: Journal, wakes: seq<Wake>) {
    exists k :: 0 <= k < |wakes| && seen(wakes[k].at) && AllQuiet(seen, wakes[..k])
  }

  /** The round meets a passing failure, and nothing keeps the next one from following. */
  ghost predicate Continues(seen: Journal, t: Try) {
    && !seen(t.beforeAt) && t.enabled && Passing(seen, t) && !seen(t.afterAt) && !t.closed
    && AllQuiet(seen, [t.first] + t.more)
  }

  /** The round sees an interruption, or its try was cancelled. */
  ghost predicate Interrupted(seen: Journal, t: Try, final: bool) {
    || seen(t.beforeAt)
    || (t.enabled && (seen(t.afterAt) || Cancelled(seen, t)))
    || (t.enabled && !final && Passing(seen, t) && Disturbed(seen, [t.first] + t.more))
  }

  lemma {:induction false} WaitMeans(seen: Journal, first: Wake, more: seq<Wake>, closed: bool)
    ensures var (log, outcome) := WaitLog(seen, first, more, closed);
            && Sent !in log
            && (outcome.None? <==> !closed && AllQuiet(seen, [first] + more))
            && (outcome == Some(Interruption) <==> Disturbed(seen, [first] + more))
            && outcome != Some(WaitingForAccount)
    decreases |more|
  {
    hide AllQuiet, Disturbed;
    WaitStops(seen, first, more);
    if Quiet(seen, first) && more != [] {
      WaitMeans(seen, more[0], more[1..], closed);
      assert [more[0]] + more[1..] == more;
      QuietFirst(seen, first, more);
    }
  }

  lemma WaitStops(seen: Journal, first: Wake, more: seq<Wake>)
    ensures !Quiet(seen, first) ==> !AllQuiet(seen, [first] + more) && (Disturbed(seen, [first] + more) <==> seen(first.at))
    ensures Quiet(seen, first) && more == [] ==> AllQuiet(seen, [first] + more) && !Disturbed(seen, [first] + more)
  {
    var wakes := [first] + more;
    assert wakes[0] == first && AllQuiet(seen, wakes[..0]);
    forall k | 0 < k < |wakes| && AllQuiet(seen, wakes[..k]) ensures Quiet(seen, first) {
      assert wakes[..k][0] == first;
    }
  }

  lemma QuietFirst(seen: Journal, first: Wake, more: seq<Wake>)
    requires Quiet(seen, first)
    ensures AllQuiet(seen, [first] + more) <==> AllQuiet(seen, more)
    ensures Disturbed(seen, [first] + more) <==> Disturbed(seen, more)
  {
    hide Quiet;
    var wakes := [first] + more;
    assert forall k :: 0 <= k < |more| ==> more[k] == wakes[k + 1];
    assert wakes[0] == first;
    forall k | 0 <= k <= |more| ensures AllQuiet(seen, wakes[..k + 1]) <==> AllQuiet(seen, more[..k]) {
      assert forall j :: 0 <= j < k ==> more[..k][j] == wakes[..k + 1][j + 1];
      assert wakes[..k + 1][0] == first;
    }
    if k :| 0 <= k < |more| && seen(more[k].at) && AllQuiet(seen, more[..k]) {
      assert seen(wakes[k + 1].at) && AllQuiet(seen, wakes[..k + 1]);
    }
    if k :| 0 <= k < |wakes| && seen(wakes[k].at) && AllQuiet(seen, wakes[..k]) {
      SeenIsLoud(seen, first);
      assert k > 0 && seen(more[k - 1].at) && AllQuiet(seen, more[..k - 1]);
    }
  }

  lemma SeenIsLoud(seen: Journal, w: Wake)
    ensures seen(w.at) ==> !Quiet(seen, w)
  {
  }

  lemma RoundMeans(seen: Journal, t: Try, final: bool, authenticated: bool)
    ensures var (log, outcome, known) := RoundLog(seen, t, final, authenticated);
            && (Sent in log <==> !seen(t.beforeAt) && t.enabled && Allowed(seen, t.once))
            && (outcome.None? <==> !final && Continues(seen, t))
            && (outcome == Some(Interruption) <==> Interrupted(seen, t, final))
            && (outcome == Some(WaitingForAccount) ==> !known)
            && (outcome.None? ==> known == (authenticated || OnceLog(seen, t.once).2))
  {
    hide OnceLog, WaitLog, FirstFailure, Allowed, AllQuiet, Disturbed;
    OnceMeans(seen, t.once);
    WaitMeans(seen, t.first, t.more, t.closed);
  }

  /** All rounds before this one go on to the next. */
  ghost predicate Reached(seen: Journal, tries: seq<Try>, k: nat) {
    k < |tries| && forall j :: 0 <= j < k ==> Continues(seen, tries[j])
  }

  ghost predicate ConnectsIn(seen: Journal, tries: seq<Try>, k: nat) {
    && Reached(seen, tries, k) && !seen(tries[k].beforeAt) && tries[k].enabled && Allowed(seen, tries[k].once)
  }

  lemma ReachedLater(seen: Journal, tries: seq<Try>, k: nat)
    requires tries != []
    ensures Reached(seen, tries, k + 1) <==> Continues(seen, tries[0]) && Reached(seen, tries[1..], k)
  {
    hide Continues;
    if Reached(seen, tries, k + 1) {
      forall j | 0 <= j < k ensures Continues(seen, tries[1..][j]) {
        assert Continues(seen, tries[j + 1]);
      }
    }
    if Continues(seen, tries[0]) && Reached(seen, tries[1..], k) {
      forall j | 0 <= j < k + 1 ensures Continues(seen, tries[j]) {
        if j > 0 {
          assert Continues(seen, tries[1..][j - 1]);
        }
      }
    }
  }

  /**
   A sequence asks for a connect exactly when some round it reaches is allowed
   to, and it reaches a round exactly through passing failures with nothing in
   between that ends it. It ends as interrupted exactly when a round it reaches
   sees an interruption or is cancelled.
   */
  lemma {:induction false} SequenceMeans(seen: Journal, tries: seq<Try>, authenticated: bool)
    ensures Sent in TriesLog(seen, tries, authenticated).0 <==> exists k: nat :: ConnectsIn(seen, tries, k)
    ensures TriesLog(seen, tries, authenticated).1 == Interruption
       <==> exists k: nat :: Reached(seen, tries, k) && Interrupted(seen, tries[k], k == |tries| - 1)
    decreases |tries|
  {
    hide RoundLog, Continues, Interrupted, Allowed;
    if tries != [] {
      var t, later := tries[0], tries[1..];
      var (log, outcome, known) := RoundLog(seen, t, |tries| == 1, authenticated);
      RoundMeans(seen, t, |tries| == 1, authenticated);
      SequenceMeans(seen, later, known);
      FirstOrLater(seen, tries);
    }
  }

  lemma FirstOrLater(seen: Journal, tries: seq<Try>)
    requires tries != []
    ensures var t, later := tries[0], tries[1..];
            && ((exists k: nat :: ConnectsIn(seen, tries, k)) <==>
                (|| (!seen(t.beforeAt) && t.enabled && Allowed(seen, t.once))
                 || (Continues(seen, t) && exists k: nat :: ConnectsIn(seen, later, k))))
            && ((exists k: nat :: Reached(seen, tries, k) && Interrupted(seen, tries[k], k == |tries| - 1)) <==>
                (|| Interrupted(seen, t, |tries| == 1)
                 || (Continues(seen, t)
                     && exists k: nat :: Reached(seen, later, k) && Interrupted(seen, later[k], k == |later| - 1))))
  {
    hide Continues, Interrupted, Allowed;
    var t, later := tries[0], tries[1..];
    assert Reached(seen, tries, 0);
    forall k: nat ensures Reached(seen, tries, k + 1) <==> Continues(seen, t) && Reached(seen, later, k) {
      ReachedLater(seen, tries, k);
    }
    assert forall k: nat :: k < |later| ==> later[k] == tries[k + 1];
    if k: nat :| ConnectsIn(seen, tries, k) {
      assert k > 0 ==> ConnectsIn(seen, later, k - 1);
    }
    if k: nat :| ConnectsIn(seen, later, k) && Continues(seen, t) {
      assert ConnectsIn(seen, tries, k + 1);
    }
    if !seen(t.beforeAt) && t.enabled && Allowed(seen, t.once) {
      assert ConnectsIn(seen, tries, 0);
    }
    if k: nat :| Reached(seen, tries, k) && Interrupted(seen, tries[k], k == |tries| - 1) {
      assert k > 0 ==> Reached(seen, later, k - 1) && Interrupted(seen, later[k - 1], k - 1 == |later| - 1);
    }
    if k: nat :| Reached(seen, later, k) && Interrupted(seen, later[k], k == |later| - 1) && Continues(seen, t) {
      assert Reached(seen, tries, k + 1) && Interrupted(seen, tries[k + 1], k + 1 == |tries| - 1);
    }
  }

  /** A sequence starts at a snapshot when auto-connect was just turned on, whatever was stopped before. */
  ghost predicate TurnedOn(s: State, snap: Snapshot) { snap.autoConnect && !s.previousAutoConnect }

  /** Or when the user has just signed in, auto-connect is on, and nothing stopped it since it was turned on. */
  ghost predicate SignedIn(world: World, s: State, snap: Snapshot) {
    && snap.autoConnect && s.previousAutoConnect && snap.signedIn && !s.previousSignedIn
    && !s.userStopped && !world.shows(snap.at, s.baseline)
  }

  ghost predicate Starts(log: seq<Entry>, from: nat) {
    exists i :: from <= i < |log| && log[i].Triggered?
  }

  /**
   A snapshot starts a sequence exactly in these two cases. Turning
   auto-connect on forgets what stopped it; otherwise it is stopped afterwards
   exactly if it was before, or an interruption was seen at the snapshot or
   ended the sequence.
   */
  lemma SnapshotMeans(world: World, s: State, snap: Snapshot)
    ensures Starts(Stepped(world, s, snap).log, |s.log|) <==> TurnedOn(s, snap) || SignedIn(world, s, snap)
    ensures var baseline := if TurnedOn(s, snap) then world.recent(snap.at) else s.baseline;
            var ended := TriesLog(Answers(world, baseline), snap.tries, false).1 == Interruption;
            && Stepped(world, s, snap).baseline == baseline
            && (TurnedOn(s, snap) ==> (Stepped(world, s, snap).userStopped <==> ended))
            && (!TurnedOn(s, snap) ==>
                  (Stepped(world, s, snap).userStopped <==>
                   || s.userStopped || world.shows(snap.at, s.baseline)
                   || (SignedIn(world, s, snap) && ended)))
  {
    hide TriesLog, Stretch, Sends;
    var looked := Looked(world, s, snap);
    var after := Stepped(world, s, snap);
    assert forall i :: |s.log| <= i < |looked.log| ==> !looked.log[i].Triggered?;
    if Triggers(world, s, snap) {
      assert after.log[|looked.log|].Triggered?;
    }
  }
}

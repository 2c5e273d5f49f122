/**
Automatic connection: when it connects by itself, how often, and when a user's
action stops it. The answers it gets from the account, the settings and the
backend are inputs, and so is what the operation journal shows at each time.
*/
module AutoConnect {
  import opened Wrappers

  const MAX_ATTEMPTS := 8

  // ----- the journal -----

  /**
   The journal over time: which operations have finished lately, and whether an
   interruption shows that is not in a baseline.
   */
  datatype World = World(recent: nat -> set<nat>, shows: (nat, set<nat>) -> bool)

  type Journal = nat -> bool

  /** The baseline of a sequence: the operations in the journal when it was armed. */
  function Baseline(world: World, t: nat): set<nat> { world.recent(t) }

  /** What a check at some time answers. */
  function Answers(world: World, baseline: set<nat>): Journal {
    (t: nat) => world.shows(t, baseline)
  }

  // ----- what one run does -----

  datatype Entry =
    | Armed(at: nat)                          // a new baseline was taken
    | Saw(at: nat, interrupted: bool)         // the sequence checked the journal
    | Peeked(at: nat, interrupted: bool)      // the journal was checked just before a connect
    | Triggered                               // a sequence started
    | Sent                                    // a connect was requested

  datatype Reply = Fine | Failure(retryable: bool, cancelled: bool)
  datatype Outcome = WaitingForAccount | Finished | Interruption

  /** The answers one try meets, in the order in which it asks. */
  datatype Once = Once(enabled: bool, account: Reply, loggedIn: bool, observe: Reply, busy: bool,
                       stillEnabled: bool, peekAt: nat, resolve: Reply, connect: Reply)

  /** A look at the state while waiting for the next try. */
  datatype Wake = Wake(at: nat, enabled: bool, connected: bool)

  datatype Try = Try(beforeAt: nat, enabled: bool, once: Once, afterAt: nat,
                     first: Wake, more: seq<Wake>, closed: bool)

  /** A try whose connect fails for a passing reason. */
  const FAILING := Try(0, true, Once(true, Fine, true, Fine, false, true, 0, Fine, Failure(true, false)), 0,
                       Wake(0, true, false), [], false)

  type Tries = s: seq<Try> | |s| == MAX_ATTEMPTS witness seq(MAX_ATTEMPTS, _ => FAILING)

  function OnceLog(seen: Journal, o: Once): (seq<Entry>, Reply, bool) {
    if !o.enabled then ([], Fine, false)
    else if o.account.Failure? then ([], o.account, false)
    else if !o.loggedIn then ([], Fine, false)
    else if o.observe.Failure? then ([], o.observe, true)
    else if o.busy || !o.stillEnabled then ([], Fine, true)
    else if seen(o.peekAt) then ([Peeked(o.peekAt, true)], Fine, true)
    else if o.resolve.Failure? then ([Peeked(o.peekAt, false)], o.resolve, true)
    else ([Peeked(o.peekAt, false), Sent], o.connect, true)
  }

  /** The wait between two tries; no outcome means that the next try follows. */
  function WaitLog(seen: Journal, first: Wake, more: seq<Wake>, closed: bool): (seq<Entry>, Option<Outcome>)
    decreases |more|
  {
    if seen(first.at) then ([Saw(first.at, true)], Some(Interruption))
    else if !first.enabled || first.connected then ([Saw(first.at, false)], Some(Finished))
    else if more == [] then ([Saw(first.at, false)], if closed then Some(Finished) else None)
    else
      var (log, outcome) := WaitLog(seen, more[0], more[1..], closed);
      ([Saw(first.at, false)] + log, outcome)
  }

  function Ended(authenticated: bool): Outcome { if authenticated then Finished else WaitingForAccount }

  /** One round of a sequence: check, try, check, wait. No outcome means that the next round follows. */
  function RoundLog(seen: Journal, t: Try, final: bool, authenticated: bool): (seq<Entry>, Option<Outcome>, bool) {
    if seen(t.beforeAt) then ([Saw(t.beforeAt, true)], Some(Interruption), authenticated)
    else if !t.enabled then ([Saw(t.beforeAt, false)], Some(Ended(authenticated)), authenticated)
    else
      var (once, reply, signedIn) := OnceLog(seen, t.once);
      var known := authenticated || signedIn;
      var log := [Saw(t.beforeAt, false)] + once + [Saw(t.afterAt, seen(t.afterAt))];
      if seen(t.afterAt) || (reply.Failure? && reply.cancelled) then (log, Some(Interruption), known)
      else if !(reply.Failure? && reply.retryable) || final then (log, Some(Ended(known)), known)
      else
        var (wait, outcome) := WaitLog(seen, t.first, t.more, t.closed);
        (log + wait, outcome, known)
  }

  /** The rounds of a sequence. */
  function TriesLog(seen: Journal, tries: seq<Try>, authenticated: bool): (seq<Entry>, Outcome) {
    if tries == [] then ([], Ended(authenticated))
    else
      var (log, outcome, known) := RoundLog(seen, tries[0], |tries| == 1, authenticated);
      if outcome.Some? then (log, outcome.value)
      else
        var (rest, end) := TriesLog(seen, tries[1..], known);
        (log + rest, end)
  }

  datatype State = State(userStopped: bool, previousAutoConnect: bool, previousSignedIn: bool, baseline: set<nat>,
                         log: seq<Entry>)

  /** What is read at start; `signedInAfter` is read after the first sequence. */
  datatype Start = Start(at: nat, autoConnect: bool, signedIn: bool, enabled: bool, tries: Tries, signedInAfter: bool)

  /** A snapshot, the answers its sequence would meet, and what is read after that sequence. */
  datatype Snapshot = Snapshot(at: nat, autoConnect: bool, signedIn: bool, tries: Tries,
                               autoConnectAfter: bool, signedInAfter: bool)

  function Started(world: World, start: Start): State {
    var baseline := Baseline(world, start.at);
    var s := State(false, start.autoConnect, start.signedIn, baseline, [Armed(start.at)]);
    if !start.enabled then s
    else
      var (log, outcome) := TriesLog(Answers(world, baseline), start.tries, false);
      s.(log := s.log + [Triggered] + log, userStopped := outcome == Interruption,
         previousSignedIn := if outcome == Finished then start.signedInAfter else start.signedIn)
  }

  predicate Arms(s: State, snap: Snapshot) { snap.autoConnect && !s.previousAutoConnect }

  predicate BecomesReady(s: State, snap: Snapshot) { snap.autoConnect && snap.signedIn && !s.previousSignedIn }

  /** The state after a snapshot was looked at, before its sequence. */
  function Looked(world: World, s: State, snap: Snapshot): State {
    var interrupted := Answers(world, s.baseline)(snap.at);
    var log := s.log + [Saw(snap.at, interrupted)];
    if Arms(s, snap) then
      State(false, snap.autoConnect, snap.signedIn, Baseline(world, snap.at), log + [Armed(snap.at)])
    else State(s.userStopped || interrupted, snap.autoConnect, snap.signedIn, s.baseline, log)
  }

  predicate Triggers(world: World, s: State, snap: Snapshot) {
    Arms(s, snap) || (BecomesReady(s, snap) && !Looked(world, s, snap).userStopped)
  }

  function Stepped(world: World, s: State, snap: Snapshot): State {
    var looked := Looked(world, s, snap);
    if !Triggers(world, s, snap) then looked
    else
      var (log, outcome) := TriesLog(Answers(world, looked.baseline), snap.tries, false);
      looked.(log := looked.log + [Triggered] + log, userStopped := looked.userStopped || outcome == Interruption,
              previousAutoConnect := snap.autoConnectAfter, previousSignedIn := snap.signedInAfter)
  }

  function History(world: World, start: Start, snaps: seq<Snapshot>): State {
    if snaps == [] then Started(world, start)
    else Stepped(world, History(world, start, snaps[..|snaps| - 1]), snaps[|snaps| - 1])
  }

  class AutoConnect {
    var userStopped: bool
    var previousAutoConnect: bool
    var previousSignedIn: bool
    var baseline: set<nat>
    var log: seq<Entry>
    const world: World

    function Current(): State
      reads this
    {
      State(userStopped, previousAutoConnect, previousSignedIn, baseline, log)
    }

    function Seen(): Journal
      reads this
    {
      Answers(world, baseline)
    }

    constructor (world: World, at: nat, autoConnect: bool, signedIn: bool)
      ensures this.world == world
      ensures Current() == State(false, autoConnect, signedIn, Baseline(world, at), [Armed(at)])
    {
      this.world := world;
      userStopped, previousAutoConnect, previousSignedIn := false, autoConnect, signedIn;
      baseline, log := Baseline(world, at), [Armed(at)];
    }

    method Check(at: nat) returns (interrupted: bool)
      modifies this`log
      ensures interrupted == Seen()(at) && log == old(log) + [Saw(at, interrupted)]
    {
      interrupted := Seen()(at);
      log := log + [Saw(at, interrupted)];
    }

    /** One try: at most one connect, and none when an interruption shows just before it. */
    method AttemptOnce(o: Once) returns (reply: Reply, authenticated: bool)
      modifies this`log
      ensures (log, reply, authenticated)
           == (old(log) + OnceLog(Seen(), o).0, OnceLog(Seen(), o).1, OnceLog(Seen(), o).2)
    {
      hide Answers;
      assert old(log) + [] == old(log);
      if !o.enabled {
        return Fine, false;
      }
      if o.account.Failure? {
        return o.account, false;
      }
      if !o.loggedIn {
        return Fine, false;
      }
      if o.observe.Failure? {
        return o.observe, true;
      }
      if o.busy || !o.stillEnabled {
        return Fine, true;
      }
      var interrupted := Seen()(o.peekAt);
      log := log + [Peeked(o.peekAt, interrupted)];
      if interrupted {
        return Fine, true;
      }
      if o.resolve.Failure? {
        return o.resolve, true;
      }
      log := log + [Sent];
      assert log == old(log) + [Peeked(o.peekAt, false), Sent];
      return o.connect, true;
    }

    /** Waits for the next try; an interruption or a change of mind ends the sequence. */
    method Wait(first: Wake, more: seq<Wake>, closed: bool) returns (outcome: Option<Outcome>)
      modifies this`log
      ensures (log, outcome)
           == (old(log) + WaitLog(Seen(), first, more, closed).0, WaitLog(Seen(), first, more, closed).1)
    {
      hide Answers;
      var wake, left := first, more;
      ghost var all := WaitLog(Seen(), first, more, closed);
      while true
        invariant old(log) + all.0 == log + WaitLog(Seen(), wake, left, closed).0
        invariant all.1 == WaitLog(Seen(), wake, left, closed).1
        decreases |left|
      {
        ghost var here := WaitLog(Seen(), wake, left, closed);
        var interrupted := Check(wake.at);
        if interrupted {
          return Some(Interruption);
        }
        if !wake.enabled || wake.connected {
          return Some(Finished);
        }
        if left == [] {
          return if closed then Some(Finished) else None;
        }
        wake, left := left[0], left[1..];
      }
    }

    /** One round of a sequence. */
    method Round(t: Try, final: bool, authenticated: bool) returns (outcome: Option<Outcome>, known: bool)
      modifies this`log
      ensures (log, outcome, known)
           == (old(log) + RoundLog(Seen(), t, final, authenticated).0, RoundLog(Seen(), t, final, authenticated).1,
               RoundLog(Seen(), t, final, authenticated).2)
    {
      hide Answers, OnceLog, WaitLog;
      known := authenticated;
      var interrupted := Check(t.beforeAt);
      if interrupted {
        return Some(Interruption), known;
      }
      if !t.enabled {
        return Some(Ended(known)), known;
      }
      var reply, signedIn := AttemptOnce(t.once);
      known := known || signedIn;
      interrupted := Check(t.afterAt);
      ghost var round := [Saw(t.beforeAt, false)] + OnceLog(Seen(), t.once).0 + [Saw(t.afterAt, interrupted)];
      assert log == old(log) + round;
      if interrupted || (reply.Failure? && reply.cancelled) {
        return Some(Interruption), known;
      }
      if !(reply.Failure? && reply.retryable) || final {
        return Some(Ended(known)), known;
      }
      ghost var wait := WaitLog(Seen(), t.first, t.more, t.closed).0;
      outcome := Wait(t.first, t.more, t.closed);
      assert log == old(log) + round + wait == old(log) + (round + wait);
    }

    /** One triggered sequence of at most eight rounds. */
    method Attempt(tries: Tries) returns (outcome: Outcome)
      modifies this`log
      ensures (log, outcome)
           == (old(log) + TriesLog(Seen(), tries, false).0, TriesLog(Seen(), tries, false).1)
    {
      hide Answers, RoundLog;
      var authenticated := false;
      ghost var all := TriesLog(Seen(), tries, false);
      assert tries[0..] == tries;
      for index := 0 to MAX_ATTEMPTS
        invariant old(log) + all.0 == log + TriesLog(Seen(), tries[index..], authenticated).0
        invariant all.1 == TriesLog(Seen(), tries[index..], authenticated).1
      {
        ghost var before := log;
        assert tries[index..][1..] == tries[index + 1..];
        var end, known := Round(tries[index], index + 1 == MAX_ATTEMPTS, authenticated);
        if end.Some? {
          return end.value;
        }
        ghost var rest := TriesLog(Seen(), tries[index + 1..], known).0;
        assert before + (RoundLog(Seen(), tries[index], index + 1 == MAX_ATTEMPTS, authenticated).0 + rest) == log + rest;
        authenticated := known;
      }
      assert log + [] == log;
      outcome := Ended(authenticated);
    }

    /** The sequence run once at start, when auto-connect is on. */
    method Startup(start: Start)
      requires Current() == State(false, start.autoConnect, start.signedIn, Baseline(world, start.at), [Armed(start.at)])
      modifies this
      ensures Current() == Started(world, start)
    {
      hide Baseline, TriesLog;
      if start.enabled {
        log := log + [Triggered];
        var outcome := Attempt(start.tries);
        if outcome == Finished {
          previousSignedIn := start.signedInAfter;
        } else if outcome == Interruption {
          userStopped := true;
        }
      }
    }

    /** One new snapshot. */
    method OnSnapshot(snap: Snapshot)
      modifies this
      ensures Current() == Stepped(world, old(Current()), snap)
    {
      hide Baseline, TriesLog;
      var enabledNow := snap.autoConnect && !previousAutoConnect;
      var becameReady := snap.autoConnect && snap.signedIn && !previousSignedIn;
      previousAutoConnect, previousSignedIn := snap.autoConnect, snap.signedIn;
      var interrupted := Check(snap.at);
      if interrupted {
        userStopped := true;
      }
      if enabledNow {
        userStopped := false;
        baseline := Baseline(world, snap.at);
        log := log + [Armed(snap.at)];
      }
      if enabledNow || (becameReady && !userStopped) {
        log := log + [Triggered];
        var outcome := Attempt(snap.tries);
        if outcome == Interruption {
          userStopped := true;
        }
        previousAutoConnect, previousSignedIn := snap.autoConnectAfter, snap.signedInAfter;
      }
    }
  }

  // ----- what a stretch of one sequence looks like -----

  predicate Reading(e: Entry) { e.Saw? || e.Peeked? }

  /** The sequence checked the journal and saw an interruption. */
  predicate Stops(e: Entry) { e.Saw? && e.interrupted }

  ghost predicate Plain(log: seq<Entry>) {
    forall i :: 0 <= i < |log| ==> !log[i].Armed? && !log[i].Triggered?
  }

  /** Every connect comes right after a check that showed no interruption. */
  ghost predicate Guarded(log: seq<Entry>) {
    forall i :: 0 <= i < |log| && log[i].Sent? ==> i > 0 && log[i - 1].Peeked? && !log[i - 1].interrupted
  }

  ghost predicate TrueTo(log: seq<Entry>, seen: Journal) {
    forall i :: 0 <= i < |log| && Reading(log[i]) ==> log[i].interrupted == seen(log[i].at)
  }

  ghost predicate Stretch(log: seq<Entry>, seen: Journal) {
    Plain(log) && Guarded(log) && TrueTo(log, seen)
  }

  /** No interruption is seen before the last entry. */
  ghost predicate EndsAtStop(log: seq<Entry>) {
    forall i :: 0 <= i < |log| - 1 ==> !Stops(log[i])
  }

  ghost predicate NoStop(log: seq<Entry>) {
    forall i :: 0 <= i < |log| ==> !Stops(log[i])
  }

  function Sends(log: seq<Entry>): nat {
    if log == [] then 0 else Sends(log[..|log| - 1]) + if log[|log| - 1].Sent? then 1 else 0
  }

  lemma Joins(a: seq<Entry>, b: seq<Entry>, seen: Journal)
    requires Stretch(a, seen) && Stretch(b, seen) && NoStop(a)
    ensures Stretch(a + b, seen) && (EndsAtStop(b) ==> EndsAtStop(a + b)) && (NoStop(b) ==> NoStop(a + b))
  {
  }

  lemma {:induction false} SendsJoin(a: seq<Entry>, b: seq<Entry>)
    ensures Sends(a + b) == Sends(a) + Sends(b)
  {
    if b == [] {
      assert a + b == a;
    } else {
      SendsJoin(a, b[..|b| - 1]);
      assert (a + b)[..|a + b| - 1] == a + b[..|b| - 1];
    }
  }

  lemma SendsFew(a: Entry, b: Entry)
    ensures Sends([]) == 0 && Sends([a]) == (if a.Sent? then 1 else 0)
    ensures Sends([a, b]) == (if a.Sent? then 1 else 0) + if b.Sent? then 1 else 0
  {
    assert [a][..0] == [] && [a, b][..1] == [a];
  }

  lemma OnceIs(seen: Journal, o: Once)
    ensures Stretch(OnceLog(seen, o).0, seen) && NoStop(OnceLog(seen, o).0) && Sends(OnceLog(seen, o).0) <= 1
  {
    SendsFew(Peeked(o.peekAt, false), Sent);
    SendsFew(Peeked(o.peekAt, true), Sent);
  }

  lemma {:induction false} WaitIs(seen: Journal, first: Wake, more: seq<Wake>, closed: bool)
    ensures var (log, outcome) := WaitLog(seen, first, more, closed);
            && Stretch(log, seen) && EndsAtStop(log) && Sends(log) == 0
            && (NoStop(log) || outcome == Some(Interruption))
    decreases |more|
  {
    var here := Saw(first.at, seen(first.at));
    SendsFew(here, here);
    assert Stretch([here], seen) && EndsAtStop([here]);
    if !here.interrupted && first.enabled && !first.connected && more != [] {
      WaitIs(seen, more[0], more[1..], closed);
      var rest := WaitLog(seen, more[0], more[1..], closed).0;
      Joins([here], rest, seen);
      SendsJoin([here], rest);
    }
  }

  lemma RoundIs(seen: Journal, t: Try, final: bool, authenticated: bool)
    ensures var (log, outcome, known) := RoundLog(seen, t, final, authenticated);
            && Stretch(log, seen) && EndsAtStop(log) && Sends(log) <= 1
            && (NoStop(log) || outcome == Some(Interruption))
  {
    hide OnceLog, WaitLog, Stretch, Sends;
    var before, after := Saw(t.beforeAt, seen(t.beforeAt)), Saw(t.afterAt, seen(t.afterAt));
    OneReading(seen, before);
    OneReading(seen, after);
    if !before.interrupted && t.enabled {
      var once := OnceLog(seen, t.once).0;
      OnceIs(seen, t.once);
      Joins([before], once, seen);
      Joins([before] + once, [after], seen);
      SendsJoin([before], once);
      SendsJoin([before] + once, [after]);
      var wait := WaitLog(seen, t.first, t.more, t.closed).0;
      WaitIs(seen, t.first, t.more, t.closed);
      if !after.interrupted {
        Joins([before] + once + [after], wait, seen);
        SendsJoin([before] + once + [after], wait);
      }
    }
  }

  lemma OneReading(seen: Journal, e: Entry)
    requires e.Saw? && e.interrupted == seen(e.at)
    ensures Stretch([e], seen) && EndsAtStop([e]) && (e.interrupted || NoStop([e])) && Sends([e]) == 0
  {
    SendsFew(e, e);
  }

  /**
   One sequence sends at most one connect for each try, each right after a
   check that showed no interruption, and none after it saw one.
   */
  lemma {:induction false} SequenceIs(seen: Journal, tries: seq<Try>, authenticated: bool)
    ensures var (log, outcome) := TriesLog(seen, tries, authenticated);
            && Stretch(log, seen) && EndsAtStop(log) && Sends(log) <= |tries|
            && (NoStop(log) || outcome == Interruption)
  {
    hide RoundLog, Stretch, Sends;
    if tries != [] {
      RoundIs(seen, tries[0], |tries| == 1, authenticated);
      var (log, outcome, known) := RoundLog(seen, tries[0], |tries| == 1, authenticated);
      if outcome.None? {
        SequenceIs(seen, tries[1..], known);
        var rest := TriesLog(seen, tries[1..], known).0;
        Joins(log, rest, seen);
        SendsJoin(log, rest);
      }
    } else {
      Nothing(seen);
    }
  }

  lemma Nothing(seen: Journal)
    ensures Stretch([], seen) && Sends([]) == 0
  {
  }

  // ----- what a whole history looks like -----

  ghost predicate Rearmed(log: seq<Entry>, i: nat, j: nat)
    requires j <= |log|
  {
    exists k :: i < k < j && log[k].Armed?
  }

  /** An interruption was seen since the last arming. */
  ghost predicate Stopped(log: seq<Entry>) {
    exists i :: 0 <= i < |log| && Stops(log[i]) && !Rearmed(log, i, |log|)
  }

  /** After an interruption was seen, no connect is sent before a new arming. */
  ghost predicate Obedient(log: seq<Entry>) {
    forall i, j :: 0 <= i < j < |log| && Stops(log[i]) && log[j].Sent? ==> Rearmed(log, i, j)
  }

  function BaselineOf(world: World, log: seq<Entry>): set<nat> {
    if log == [] then {}
    else if log[|log| - 1].Armed? then Baseline(world, log[|log| - 1].at)
    else BaselineOf(world, log[..|log| - 1])
  }

  /** Every check answered what the registry said at that time. */
  ghost predicate Truthful(world: World, log: seq<Entry>) {
    forall i :: 0 <= i < |log| && Reading(log[i]) ==>
      log[i].interrupted == Answers(world, BaselineOf(world, log[..i]))(log[i].at)
  }

  function Sequences(log: seq<Entry>): nat {
    if log == [] || log[|log| - 1].Armed? then 0
    else Sequences(log[..|log| - 1]) + if log[|log| - 1].Triggered? then 1 else 0
  }

  function SendsSinceArming(log: seq<Entry>): nat {
    if log == [] || log[|log| - 1].Armed? then 0
    else SendsSinceArming(log[..|log| - 1]) + if log[|log| - 1].Sent? then 1 else 0
  }

  ghost predicate WellKept(world: World, log: seq<Entry>) {
    Obedient(log) && Guarded(log) && Truthful(world, log)
  }

  lemma RearmedGrows(log: seq<Entry>, more: seq<Entry>, i: nat, j: nat)
    requires j <= |log|
    ensures Rearmed(log, i, j) <==> Rearmed(log + more, i, j)
  {
    assert forall k :: 0 <= k < j ==> (log + more)[k] == log[k];
  }

  lemma OneMoreStops(log: seq<Entry>, e: Entry)
    ensures Stopped(log + [e]) <==> !e.Armed? && (Stops(e) || Stopped(log))
  {
    var more := log + [e];
    forall i | 0 <= i < |log|
      ensures Rearmed(more, i, |more|) <==> e.Armed? || Rearmed(log, i, |log|)
    {
      RearmedGrows(log, [e], i, |log|);
      assert more[|log|] == e;
    }
    if i :| 0 <= i < |log| && Stops(log[i]) && !Rearmed(log, i, |log|) && !e.Armed? {
      assert Stops(more[i]) && !Rearmed(more, i, |more|);
    }
    if Stops(e) {
      assert Stops(more[|log|]) && !Rearmed(more, |log|, |more|);
    }
  }

  lemma OneMore(world: World, log: seq<Entry>, e: Entry)
    requires WellKept(world, log) && !e.Sent?
    requires Reading(e) ==> e.interrupted == Answers(world, BaselineOf(world, log))(e.at)
    ensures WellKept(world, log + [e])
    ensures Stopped(log + [e]) <==> !e.Armed? && (Stops(e) || Stopped(log))
    ensures BaselineOf(world, log + [e]) == if e.Armed? then Baseline(world, e.at) else BaselineOf(world, log)
    ensures Sequences(log + [e]) == if e.Armed? then 0 else Sequences(log) + if e.Triggered? then 1 else 0
    ensures SendsSinceArming(log + [e]) == if e.Armed? then 0 else SendsSinceArming(log)
  {
    hide Answers, Baseline, Rearmed, Stopped;
    var more := log + [e];
    OneMoreStops(log, e);
    assert more[..|log|] == log && more[|log|] == e;
    forall i, j | 0 <= i < |log| && 0 <= j <= |log|
      ensures Rearmed(log, i, j) <==> Rearmed(more, i, j)
    {
      RearmedGrows(log, [e], i, j);
    }
    assert forall i :: 0 <= i < |log| ==> more[..i] == log[..i];
  }

  lemma {:induction false} PlainAppends(world: World, log: seq<Entry>, part: seq<Entry>)
    requires Plain(part)
    ensures BaselineOf(world, log + part) == BaselineOf(world, log)
    ensures Sequences(log + part) == Sequences(log)
    ensures SendsSinceArming(log + part) == SendsSinceArming(log) + Sends(part)
  {
    if part == [] {
      assert log + part == log;
    } else {
      var init := part[..|part| - 1];
      PlainAppends(world, log, init);
      assert (log + part)[..|log + part| - 1] == log + init;
    }
  }

  lemma StretchAppends(world: World, log: seq<Entry>, part: seq<Entry>)
    requires WellKept(world, log) && !Stopped(log)
    requires Stretch(part, Answers(world, BaselineOf(world, log))) && EndsAtStop(part)
    ensures WellKept(world, log + part)
    ensures Stopped(log + part) ==> !NoStop(part)
  {
    hide Answers, BaselineOf;
    var all := log + part;
    forall i, j | 0 <= i < |log| && 0 <= j <= |log|
      ensures Rearmed(log, i, j) <==> Rearmed(all, i, j)
    {
      RearmedGrows(log, part, i, j);
    }
    StretchObeys(log, part);
    StretchIsTrue(world, log, part);
  }

  lemma StretchObeys(log: seq<Entry>, part: seq<Entry>)
    requires Obedient(log) && !Stopped(log) && Guarded(log) && Guarded(part) && EndsAtStop(part)
    ensures Obedient(log + part) && Guarded(log + part)
  {
    var all := log + part;
    forall i, j | 0 <= i < j < |all| && Stops(all[i]) && all[j].Sent?
      ensures Rearmed(all, i, j)
    {
      if i < |log| {
        RearmedGrows(log, part, i, if j < |log| then j else |log|);
        assert j >= |log| ==> Rearmed(log, i, |log|);
      }
    }
    forall j | 0 <= j < |all| && all[j].Sent?
      ensures j > 0 && all[j - 1].Peeked? && !all[j - 1].interrupted
    {
      if j >= |log| {
        assert part[j - |log|].Sent?;
      }
    }
  }

  lemma StretchIsTrue(world: World, log: seq<Entry>, part: seq<Entry>)
    requires Truthful(world, log) && Plain(part) && TrueTo(part, Answers(world, BaselineOf(world, log)))
    ensures Truthful(world, log + part)
  {
    hide Answers, BaselineOf;
    var all := log + part;
    forall i | 0 <= i < |all| && Reading(all[i])
      ensures all[i].interrupted == Answers(world, BaselineOf(world, all[..i]))(all[i].at)
    {
      if i < |log| {
        assert all[..i] == log[..i];
      } else {
        assert all[..i] == log + part[..i - |log|] && Reading(part[i - |log|]);
        PlainAppends(world, log, part[..i - |log|]);
      }
    }
  }

  /** A sequence that starts on a log that is not stopped. */
  lemma SequenceAppends(world: World, log: seq<Entry>, tries: Tries)
    requires WellKept(world, log) && !Stopped(log)
    ensures var (part, outcome) := TriesLog(Answers(world, BaselineOf(world, log)), tries, false);
            var all := log + [Triggered] + part;
            && WellKept(world, all) && (Stopped(all) ==> outcome == Interruption)
            && BaselineOf(world, all) == BaselineOf(world, log)
            && Sequences(all) == Sequences(log) + 1
            && SendsSinceArming(all) <= SendsSinceArming(log) + MAX_ATTEMPTS
  {
    hide Answers, BaselineOf, TriesLog, WellKept, Stopped, Stretch, Sequences, SendsSinceArming;
    var seen := Answers(world, BaselineOf(world, log));
    var part := TriesLog(seen, tries, false).0;
    OneMore(world, log, Triggered);
    SequenceIs(seen, tries, false);
    StretchAppends(world, log + [Triggered], part);
    StretchIsPlain(part, seen);
    PlainAppends(world, log + [Triggered], part);
  }

  lemma StretchIsPlain(log: seq<Entry>, seen: Journal)
    requires Stretch(log, seen)
    ensures Plain(log)
  {
  }

  /** How often, since the last arming, the account became ready again and a sequence started. */
  function ReadyAgain(world: World, start: Start, snaps: seq<Snapshot>): nat {
    if snaps == [] then 0
    else
      var init, snap := snaps[..|snaps| - 1], snaps[|snaps| - 1];
      var s := History(world, start, init);
      if Arms(s, snap) then 0
      else ReadyAgain(world, start, init) + if Triggers(world, s, snap) then 1 else 0
  }

  ghost predicate Kept(world: World, s: State, again: nat) {
    && WellKept(world, s.log) && (Stopped(s.log) ==> s.userStopped) && s.baseline == BaselineOf(world, s.log)
    && Sequences(s.log) <= 1 + again && SendsSinceArming(s.log) <= MAX_ATTEMPTS * Sequences(s.log)
  }

  lemma StartIsKept(world: World, start: Start)
    ensures Kept(world, Started(world, start), 0)
  {
    hide Answers, Baseline, TriesLog;
    OneMore(world, [], Armed(start.at));
    assert [] + [Armed(start.at)] == [Armed(start.at)];
    assert Sequences([]) == 0 && SendsSinceArming([]) == 0;
    hide BaselineOf, WellKept, Stopped, Sequences, SendsSinceArming;
    SequenceAppends(world, [Armed(start.at)], start.tries);
  }

  lemma LookedIsKept(world: World, s: State, snap: Snapshot, again: nat)
    requires Kept(world, s, again)
    ensures var looked := Looked(world, s, snap);
            && Kept(world, looked, again)
            && (Arms(s, snap) ==> Sequences(looked.log) == 0 && !Stopped(looked.log))
  {
    hide Answers, Baseline, BaselineOf, WellKept, Stopped, Sequences, SendsSinceArming;
    var saw := Saw(snap.at, Answers(world, s.baseline)(snap.at));
    OneMore(world, s.log, saw);
    if Arms(s, snap) {
      OneMore(world, s.log + [saw], Armed(snap.at));
    }
  }

  lemma StepIsKept(world: World, s: State, snap: Snapshot, again: nat)
    requires Kept(world, s, again)
    ensures Kept(world, Stepped(world, s, snap),
                 if Arms(s, snap) then 0 else again + if Triggers(world, s, snap) then 1 else 0)
  {
    hide Answers, Baseline, BaselineOf, WellKept, Stopped, Sequences, SendsSinceArming, Looked, TriesLog;
    var looked := Looked(world, s, snap);
    LookedIsKept(world, s, snap, again);
    if Triggers(world, s, snap) {
      SequenceAppends(world, looked.log, snap.tries);
    }
  }

  lemma {:induction false} HistoryIsKept(world: World, start: Start, snaps: seq<Snapshot>)
    ensures Kept(world, History(world, start, snaps), ReadyAgain(world, start, snaps))
  {
    hide Kept, Started, Stepped, Arms, Triggers;
    if snaps == [] {
      StartIsKept(world, start);
    } else {
      var init := snaps[..|snaps| - 1];
      HistoryIsKept(world, start, init);
      StepIsKept(world, History(world, start, init), snaps[|snaps| - 1], ReadyAgain(world, start, init));
    }
  }

  /**
   In every history a connect comes right after a check that showed no
   interruption, and after a check of the sequence showed one, only a new
   arming makes it connect again.
   */
  lemma InterruptionStops(world: World, start: Start, snaps: seq<Snapshot>, i: nat, j: nat)
    requires i < j < |History(world, start, snaps).log| && History(world, start, snaps).log[j].Sent?
    ensures var log := History(world, start, snaps).log;
            && (Stops(log[i]) ==> Rearmed(log, i, j))
            && log[j - 1].Peeked? && !log[j - 1].interrupted
  {
    hide History, ReadyAgain, Truthful, Stopped, Sequences, SendsSinceArming, BaselineOf;
    HistoryIsKept(world, start, snaps);
  }

  /**
   One arming sends at most eight connects for itself, and eight more each time
   the account becomes ready again; so at most eight if it never does.
   */
  lemma EightPerSequence(world: World, start: Start, snaps: seq<Snapshot>)
    ensures SendsSinceArming(History(world, start, snaps).log)
         <= MAX_ATTEMPTS * (1 + ReadyAgain(world, start, snaps))
  {
    hide History, ReadyAgain, WellKept, Stopped, Sequences, SendsSinceArming, BaselineOf;
    HistoryIsKept(world, start, snaps);
  }

  // ----- more than eight connects for one arming -----

  /** Nothing shows in the journal. */
  const QUIET := World(_ => {}, (_, _) => false)

  function Stubborn(n: nat): (tries: seq<Try>)
    ensures |tries| == n && forall t :: t in tries ==> t == FAILING
  {
    seq(n, _ => FAILING)
  }

  lemma {:induction false} StubbornSends(seen: Journal, tries: seq<Try>, authenticated: bool)
    requires !seen(0) && (tries == [] ==> authenticated) && forall t :: t in tries ==> t == FAILING
    ensures Sends(TriesLog(seen, tries, authenticated).0) == |tries|
    ensures TriesLog(seen, tries, authenticated).1 == Finished
  {
    hide RoundLog, Sends;
    if tries != [] {
      FailingRound(seen, |tries| == 1, authenticated);
      assert tries[0] in tries && forall t :: t in tries[1..] ==> t in tries;
      StubbornSends(seen, tries[1..], true);
      SendsJoin(RoundLog(seen, FAILING, |tries| == 1, authenticated).0, TriesLog(seen, tries[1..], true).0);
    } else {
      SendsNothing();
    }
  }

  lemma SendsNothing()
    ensures Sends([]) == 0
  {
  }

  lemma FailingRound(seen: Journal, final: bool, authenticated: bool)
    requires !seen(0)
    ensures var (log, outcome, known) := RoundLog(seen, FAILING, final, authenticated);
            Sends(log) == 1 && known && outcome == if final then Some(Finished) else None
  {
    var no := Saw(0, false);
    SendsFew(no, no);
    SendsFew(Peeked(0, false), Sent);
    var once := [Peeked(0, false), Sent];
    SendsJoin([no], once);
    SendsJoin([no] + once, [no]);
    SendsJoin([no] + once + [no], [no]);
  }

  /** Auto-connect is on at start, every connect fails for a passing reason, and the account is lost meanwhile. */
  const LOSING := Start(0, true, true, true, Stubborn(MAX_ATTEMPTS), false)

  /** The account is ready again, every connect fails as before, and the account is lost again. */
  const RENEWED := Snapshot(0, true, true, Stubborn(MAX_ATTEMPTS), true, false)

  function Renewals(n: nat): (snaps: seq<Snapshot>)
    ensures |snaps| == n
  {
    seq(n, _ => RENEWED)
  }

  /** A stubborn sequence after a log on which nothing has stopped it. */
  lemma StubbornSequence(log: seq<Entry>)
    ensures var (part, outcome) := TriesLog(Answers(QUIET, {}), Stubborn(MAX_ATTEMPTS), false);
            && outcome == Finished
            && SendsSinceArming(log + [Triggered] + part) == SendsSinceArming(log) + MAX_ATTEMPTS
  {
    hide TriesLog, SendsSinceArming;
    var seen, tries := Answers(QUIET, {}), Stubborn(MAX_ATTEMPTS);
    StubbornSends(seen, tries, false);
    SequenceIs(seen, tries, false);
    var part := TriesLog(seen, tries, false).0;
    StretchIsPlain(part, seen);
    TwoParts(log, Triggered, part);
  }

  lemma LosingStart()
    ensures var s := Started(QUIET, LOSING);
            && s == State(false, true, false, {}, s.log) && SendsSinceArming(s.log) == MAX_ATTEMPTS
  {
    hide TriesLog, SendsSinceArming;
    StubbornSequence([Armed(0)]);
    ArmedOnly();
  }

  lemma RenewedStep(s: State)
    requires s == State(false, true, false, {}, s.log)
    ensures Triggers(QUIET, s, RENEWED) && !Arms(s, RENEWED)
    ensures var after := Stepped(QUIET, s, RENEWED);
            && after == State(false, true, false, {}, after.log)
            && SendsSinceArming(after.log) == SendsSinceArming(s.log) + MAX_ATTEMPTS
  {
    hide TriesLog, SendsSinceArming, Sends;
    var saw := [Saw(0, false)];
    StubbornSequence(s.log + saw);
    PlainAppends(QUIET, s.log, saw);
    SendsFew(saw[0], saw[0]);
  }

  lemma {:induction false} RenewedHistory(n: nat)
    ensures var s := History(QUIET, LOSING, Renewals(n));
            && s == State(false, true, false, {}, s.log)
            && SendsSinceArming(s.log) == MAX_ATTEMPTS * (n + 1)
    ensures ReadyAgain(QUIET, LOSING, Renewals(n)) == n
  {
    hide Started, Stepped, Triggers, Arms, SendsSinceArming;
    LosingStart();
    if n > 0 {
      RenewedHistory(n - 1);
      assert Renewals(n)[..n - 1] == Renewals(n - 1);
      RenewedStep(History(QUIET, LOSING, Renewals(n - 1)));
    }
  }

  /** The bound is reached for every number of times the account becomes ready again. */
  lemma EightPerSequenceIsReached(n: nat)
    ensures exists world, start, snaps ::
              && ReadyAgain(world, start, snaps) == n
              && SendsSinceArming(History(world, start, snaps).log) == MAX_ATTEMPTS * (1 + n)
  {
    hide ReadyAgain, History, SendsSinceArming;
    RenewedHistory(n);
  }

  /** So eight is the limit for one arming exactly when the account never becomes ready again. */
  lemma EightIsTheLimit(n: nat)
    ensures (forall world, start, snaps :: ReadyAgain(world, start, snaps) == n ==>
               SendsSinceArming(History(world, start, snaps).log) <= MAX_ATTEMPTS)
       <==> n == 0
  {
    hide ReadyAgain, History, SendsSinceArming;
    RenewedHistory(n);
    forall world, start, snaps | ReadyAgain(world, start, snaps) == n
      ensures SendsSinceArming(History(world, start, snaps).log) <= MAX_ATTEMPTS * (1 + n)
    {
      EightPerSequence(world, start, snaps);
    }
  }

  lemma ArmedOnly()
    ensures SendsSinceArming([Armed(0)]) == 0
  {
  }

  lemma TwoParts(log: seq<Entry>, e: Entry, part: seq<Entry>)
    requires Plain(part) && e.Triggered?
    ensures SendsSinceArming(log + [e] + part) == SendsSinceArming(log) + Sends(part)
  {
    hide BaselineOf, Sends;
    PlainAppends(QUIET, log + [e], part);
    assert (log + [e])[..|log|] == log;
  }

  // ----- what a check shows -----

  lemma {:induction false} BaselineSince(world: World, log: seq<Entry>, a: nat, i: nat)
    requires a < i <= |log| && log[a].Armed? && !Rearmed(log, a, i)
    ensures BaselineOf(world, log[..i]) == Baseline(world, log[a].at)
  {
    hide Baseline;
    assert log[..i][..i - 1] == log[..i - 1];
    if i > a + 1 {
      assert !log[i - 1].Armed?;
      BaselineSince(world, log, a, i - 1);
    }
  }

  /**
   A check that shows an interruption: the check before a connect prevents it,
   and a check of the sequence ends connecting until auto-connect goes from off
   to on. What a check shows is what the journal shows against the baseline of
   the last arming.
   */
  lemma CheckObeyed(world: World, start: Start, snaps: seq<Snapshot>, a: nat, i: nat)
    requires a < i < |History(world, start, snaps).log|
    requires History(world, start, snaps).log[a].Armed? && Reading(History(world, start, snaps).log[i])
    requires !Rearmed(History(world, start, snaps).log, a, i)
    ensures var log := History(world, start, snaps).log;
            && log[i].interrupted == world.shows(log[i].at, world.recent(log[a].at))
            && (log[i].interrupted ==>
                  && (log[i].Peeked? && i + 1 < |log| ==> !log[i + 1].Sent?)
                  && (log[i].Saw? ==> forall j :: i < j < |log| && log[j].Sent? ==> Rearmed(log, i, j)))
  {
    hide History, ReadyAgain, Stopped, Sequences, SendsSinceArming, BaselineOf;
    HistoryIsKept(world, start, snaps);
    BaselineSince(world, History(world, start, snaps).log, a, i);
  }
}

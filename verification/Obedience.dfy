/**
Automatic connection and the operation registry together: what a request of
another client means for the connects that are sent.
*/
module Obedience {
  import opened Wrappers
  import opened Operations
  import opened AutoConnect

  const CLIENT_ID := "agent-autoconnect"

  /** The registry after the first `t` of the events of a run. */
  function RegistryAt(run: seq<Event>, t: nat): Registry {
    Run(Registry(1, [], []), if t <= |run| then run[..t] else run)
  }

  function FinishedAt(run: seq<Event>, t: nat): set<nat> {
    set op | op in RegistryAt(run, t).recent :: op.id
  }

  /** The journal as auto-connect reads it off the registry. */
  function JournalOf(run: seq<Event>): World {
    World((t: nat) => FinishedAt(run, t),
          (t: nat, baseline: set<nat>) => Interrupted(RegistryAt(run, t), baseline, CLIENT_ID))
  }

  lemma {:induction false} RunJoins(r: Registry, a: seq<Event>, b: seq<Event>)
    ensures Run(r, a + b) == Run(Run(r, a), b)
  {
    if b == [] {
      assert a + b == a;
    } else {
      RunJoins(r, a, b[..|b| - 1]);
      assert (a + b)[..|a + b| - 1] == a + b[..|b| - 1];
    }
  }

  lemma {:induction false} GoneStaysGone(r: Registry, events: seq<Event>, id: nat)
    requires Operations.Valid(r) && id < r.nextId && forall i :: 0 <= i < |r.active| ==> r.active[i].id != id
    ensures id < Run(r, events).nextId
    ensures forall i :: 0 <= i < |Run(r, events).active| ==> Run(r, events).active[i].id != id
  {
    hide Operations.Valid, Apply, Completes;
    if events != [] {
      var init := events[..|events| - 1];
      GoneStaysGone(r, init, id);
      RunsAreValid(r, init);
      CompletesOnce(Run(r, init), events[|events| - 1], id);
    }
  }

  lemma RegistryValid(run: seq<Event>, t: nat)
    ensures Operations.Valid(RegistryAt(run, t))
  {
    hide Run;
    RunsAreValid(Registry(1, [], []), if t <= |run| then run[..t] else run);
  }

  /** The registry at a later time. */
  lemma RegistryLater(run: seq<Event>, t: nat, later: nat)
    requires t <= later <= |run|
    ensures RegistryAt(run, later) == Run(RegistryAt(run, t), run[t..later])
  {
    hide Run;
    RunJoins(Registry(1, [], []), run[..t], run[t..later]);
    assert run[..later] == run[..t] + run[t..later];
  }

  /** What runs after the baseline was taken is not in the baseline. */
  lemma RunningIsNew(run: seq<Event>, a: nat, t: nat, op: Record)
    requires a <= t <= |run| && op in RegistryAt(run, t).active
    ensures op.id !in FinishedAt(run, a)
  {
    hide Run, Operations.Valid;
    RegistryValid(run, a);
    RegistryLater(run, a, t);
    var r := RegistryAt(run, a);
    if op.id in FinishedAt(run, a) {
      JournalIsGone(r, op.id);
      GoneStaysGone(r, run[a..t], op.id);
    }
  }

  lemma JournalIsGone(r: Registry, id: nat)
    requires Operations.Valid(r) && exists o :: o in r.recent && o.id == id
    ensures id < r.nextId && forall i :: 0 <= i < |r.active| ==> r.active[i].id != id
  {
    var o :| o in r.recent && o.id == id;
    var k :| 0 <= k < |r.recent| && r.recent[k] == o;
  }

  /** At time `t` another client made a request that was granted, and runs as or steers `op`. */
  ghost predicate Requested(run: seq<Event>, t: nat, client: string, request: Request, op: Record) {
    && t < |run| && run[t] == DoBegin(client, request) && client != CLIENT_ID
    && request in {Connect, Cancel, Disconnect, Logout}
    && var r := RegistryAt(run, t);
       RunsAs(Begun(r, client, request).0, Begun(r, client, request).1, op)
  }

  /** At time `later` the request is still to be seen in the registry. */
  ghost predicate Visible(run: seq<Event>, t: nat, client: string, request: Request, op: Record, later: nat)
    requires Requested(run, t, client, request, op)
  {
    && t < later <= |run|
    && var begun := Begun(RegistryAt(run, t), client, request);
       var since := run[t + 1..later];
       && Later(begun.0, since, op) < RECENT_OPERATION_LIMIT
       && (!begun.1.lease.value.ownsCompletion ==>
             forall k :: 0 <= k < |since| ==> !Restages(Run(begun.0, since[..k]), since[k], op.id))
  }

  lemma VisibleIsSeen(run: seq<Event>, a: nat, t: nat, client: string, request: Request, op: Record, later: nat)
    requires Requested(run, t, client, request, op) && Visible(run, t, client, request, op, later) && a <= t
    ensures JournalOf(run).shows(later, JournalOf(run).recent(a))
  {
    hide Run, Begun, Later, Restages, Interrupted, Operations.Valid, RunsAs;
    var r, since := RegistryAt(run, t), run[t + 1..later];
    RegistryValid(run, t);
    RegistryLater(run, t, t + 1);
    OneEvent(r, run[t]);
    assert run[t..t + 1] == [run[t]];
    RegistryLater(run, t + 1, later);
    assert op in RegistryAt(run, t + 1).active by {
      OperationRuns(Begun(r, client, request).0, Begun(r, client, request).1, op);
    }
    RunningIsNew(run, a, t + 1, op);
    RequestInterrupts(r, client, request, since, op, FinishedAt(run, a), CLIENT_ID);
  }

  lemma OperationRuns(r: Registry, reply: Operations.Reply, op: Record)
    requires RunsAs(r, reply, op)
    ensures op in r.active
  {
  }

  lemma OneEvent(r: Registry, e: Event)
    ensures Run(r, [e]) == Apply(r, e)
  {
    assert [e][..0] == [];
  }

  /**
   From another client's request to automatic connection: armed before the
   request, every check made while the request is visible shows it. The check
   before a connect then prevents it, and a check of the sequence ends
   connecting until auto-connect goes from off to on.
   */
  lemma RequestStopsConnecting(run: seq<Event>, start: Start, snaps: seq<Snapshot>, a: nat, i: nat, t: nat,
                               client: string, request: Request, op: Record)
    requires a < i < |History(JournalOf(run), start, snaps).log|
    requires History(JournalOf(run), start, snaps).log[a].Armed?
    requires Reading(History(JournalOf(run), start, snaps).log[i])
    requires !Rearmed(History(JournalOf(run), start, snaps).log, a, i)
    requires History(JournalOf(run), start, snaps).log[a].at <= t
    requires Requested(run, t, client, request, op)
    requires Visible(run, t, client, request, op, History(JournalOf(run), start, snaps).log[i].at)
    ensures var log := History(JournalOf(run), start, snaps).log;
            && log[i].interrupted
            && (log[i].Peeked? && i + 1 < |log| ==> !log[i + 1].Sent?)
            && (log[i].Saw? ==> forall j :: i < j < |log| && log[j].Sent? ==> Rearmed(log, i, j))
  {
    hide History, JournalOf, Visible, Requested;
    var log := History(JournalOf(run), start, snaps).log;
    CheckObeyed(JournalOf(run), start, snaps, a, i);
    VisibleIsSeen(run, log[a].at, t, client, request, op, log[i].at);
  }
}

/**
Connection attempts: connect, cancel, disconnect and logout requests that run
interleaved over one attempt counter, one network mutex and the identity of the
tunnel the agent owns. Tunnels may drop, and every network operation may fail.

A tunnel is named after the attempt that activated it: each attempt makes a
profile with an identity of its own.
*/
module Attempts {
  import opened Wrappers

  datatype Task = Connect(gen: nat) | Cancel(gen: nat) | Disconnect(gen: nat) | Logout

  /** The active tunnel a connect finds. */
  datatype Seen = Nothing | Ours(tunnel: nat) | Foreign

  datatype Purpose = Replace | Cleanup | Request

  /** Every phase but waiting is inside the network mutex. */
  datatype Phase =
    | Waiting
    | Locked
    | Looked(seen: Seen)
    | Ready                                    // no tunnel is left; the destination policy is next
    | Activating
    | Activated                                // active, but not recorded as owned yet
    | Polling
    | Stopping(tunnel: nat, why: Purpose)
    | Stopped(tunnel: nat, why: Purpose)
    | Forgotten(tunnel: nat, why: Purpose)

  datatype Running = Running(task: Task, phase: Phase)

  datatype State = State(
    counter: nat,
    holder: Option<nat>,
    owned: Option<nat>,
    active: set<nat>,                          // the active tunnels of the agent
    tasks: map<nat, Running>,
    connects: set<nat>,                        // history: the generations of connects
    answered: set<nat>,                        // history: the cancels and disconnects answered with success
    replies: seq<Reply>)                       // history: the answers to the other requests

  /**
   An answer to a request that is no connect: whether it is a success, the
   tunnel that was taken down for it, and what holds at that moment.
   */
  datatype Reply = Reply(task: Task, ok: bool, found: Option<nat>, latest: nat, active: set<nat>, owned: Option<nat>)

  const INITIAL := State(0, None, None, {}, map[], {}, {}, [])

  datatype Kind = ConnectKind | CancelKind | DisconnectKind | LogoutKind

  datatype Action =
    | Start(id: nat, kind: Kind)
    | Enter(id: nat)
    | GiveUp(id: nat)
    | Look(id: nat, seen: Seen)
    | Decide(id: nat)
    | Recheck(id: nat)
    | Activate(id: nat)
    | Own(id: nat)
    | Fail(id: nat)
    | Succeed(id: nat)
    | Serve(id: nat)
    | TunnelDown(id: nat)
    | Forget(id: nat)
    | Finish(id: nat)
    | StopFails(id: nat)
    | Drop(tunnel: nat)

  function Move(s: State, id: nat, phase: Phase): State
    requires id in s.tasks
  {
    s.(tasks := s.tasks[id := s.tasks[id].(phase := phase)])
  }

  /** A task ends and releases the mutex if it holds it. */
  function Leave(s: State, id: nat): State {
    s.(tasks := s.tasks - {id}, holder := if s.holder == Some(id) then None else s.holder)
  }

  function Begin(s: State, id: nat, kind: Kind): State {
    var gen := s.counter + 1;
    match kind
    case ConnectKind =>
      s.(counter := gen, tasks := s.tasks[id := Running(Connect(gen), Waiting)], connects := s.connects + {gen})
    case CancelKind => s.(counter := gen, tasks := s.tasks[id := Running(Cancel(gen), Waiting)])
    case DisconnectKind => s.(counter := gen, tasks := s.tasks[id := Running(Disconnect(gen), Waiting)])
    case LogoutKind => s.(tasks := s.tasks[id := Running(Logout, Waiting)])
  }

  /** The answer to a request that is not a connect, and its end. */
  function Respond(s: State, id: nat, ok: bool, found: Option<nat>): State
    requires id in s.tasks
  {
    var task := s.tasks[id].task;
    Leave(s.(answered := s.answered + (if ok && (task.Cancel? || task.Disconnect?) then {task.gen} else {}),
             replies := s.replies + [Reply(task, ok, found, s.counter, s.active, s.owned)]), id)
  }

  /** A request that is not a connect, inside the mutex. */
  function Answer(s: State, id: nat): State
    requires id in s.tasks
  {
    var task := s.tasks[id].task;
    if task.Cancel? && s.counter != task.gen then Respond(s, id, true, None)
    else if s.owned.None? then Respond(s, id, !task.Disconnect?, None)    // a disconnect needs a tunnel of the agent
    else Move(s, id, Stopping(s.owned.value, Request))
  }

  /** The end of a disconnection: a replacement goes on, everything else is done. */
  function End(s: State, id: nat, tunnel: nat, why: Purpose): State
    requires id in s.tasks
  {
    if why == Replace then if s.active == {} then Move(s, id, Ready) else Leave(s, id)
    else if why == Cleanup then Leave(s, id)
    else Respond(s, id, true, Some(tunnel))
  }

  predicate MayGiveUp(phase: Phase) {
    phase in {Waiting, Locked, Ready, Activating, Polling} || phase.Looked?
  }

  /** One atomic step, if the task it names can take it. */
  function Apply(s: State, a: Action): Option<State> {
    match a
    case Start(id, kind) => if id in s.tasks then None else Some(Begin(s, id, kind))
    case Drop(tunnel) => Some(s.(active := s.active - {tunnel}))
    case _ => if a.id in s.tasks then Advance(s, a, s.tasks[a.id].task, s.tasks[a.id].phase) else None
  }

  function Advance(s: State, a: Action, task: Task, phase: Phase): Option<State>
    requires !a.Start? && !a.Drop? && a.id in s.tasks
  {
    match a
    case Enter(id) =>
      if phase == Waiting && s.holder.None? then Some(Move(s.(holder := Some(id)), id, Locked)) else None
    case GiveUp(id) => if task.Connect? && MayGiveUp(phase) then Some(Leave(s, id)) else None
    case Look(id, seen) =>
      if && task.Connect? && phase == Locked
         && (seen == Nothing ==> s.active == {}) && (seen.Ours? ==> seen.tunnel in s.active)
      then Some(Move(s, id, Looked(seen))) else None
    case Decide(id) =>
      if !task.Connect? || !phase.Looked? then None
      else if s.counter != task.gen then Some(Leave(s, id))
      else if phase.seen == Nothing then Some(Move(s, id, Ready))
      else if phase.seen.Ours? && s.owned == Some(phase.seen.tunnel)
      then Some(Move(s, id, Stopping(phase.seen.tunnel, Replace)))
      else Some(Leave(s, id))
    case Recheck(id) =>
      if !task.Connect? || phase != Ready then None
      else if s.counter != task.gen then Some(Leave(s, id))
      else Some(Move(s, id, Activating))
    case Activate(id) =>
      if task.Connect? && phase == Activating
      then Some(Move(s.(active := s.active + {task.gen}), id, Activated)) else None
    case Own(id) =>
      if task.Connect? && phase == Activated
      then Some(Move(s.(owned := Some(task.gen)), id, Polling)) else None
    case Fail(id) =>
      if task.Connect? && phase == Polling then Some(Move(s, id, Stopping(task.gen, Cleanup))) else None
    case Succeed(id) => if task.Connect? && phase == Polling then Some(Leave(s, id)) else None
    case Serve(id) => if !task.Connect? && phase == Locked then Some(Answer(s, id)) else None
    case TunnelDown(id) =>
      if phase.Stopping?
      then Some(Move(s.(active := s.active - {phase.tunnel}), id, Stopped(phase.tunnel, phase.why))) else None
    case Forget(id) =>
      if phase.Stopped? then Some(Move(s.(owned := None), id, Forgotten(phase.tunnel, phase.why))) else None
    case Finish(id) => if phase.Forgotten? then Some(End(s, id, phase.tunnel, phase.why)) else None
    case StopFails(id) =>
      if phase.Stopping? || phase.Stopped? || phase.Forgotten? then Some(Leave(s, id)) else None
  }

  /** The state after a run, if every step of it can be taken. */
  function After(actions: seq<Action>): Option<State> {
    if actions == [] then Some(INITIAL)
    else
      match After(actions[..|actions| - 1])
      case None => None
      case Some(s) => Apply(s, actions[|actions| - 1])
  }

  // ----- what every step keeps -----

  /** Exactly the task in the mutex is past waiting. */
  ghost predicate Exclusive(s: State) {
    && (forall id :: id in s.tasks ==> (s.tasks[id].phase != Waiting <==> s.holder == Some(id)))
    && (s.holder.Some? ==> s.holder.value in s.tasks)
  }

  ghost predicate GenerationOk(s: State, task: Task) {
    match task
    case Connect(gen) => gen in s.connects
    case Cancel(gen) => gen !in s.connects && gen <= s.counter
    case Disconnect(gen) => gen !in s.connects && gen <= s.counter
    case Logout => true
  }

  /** Generations tell connects from other requests, and tunnels belong to connects. */
  ghost predicate Numbered(s: State) {
    && (forall gen :: gen in s.connects ==> gen <= s.counter)
    && (forall id :: id in s.tasks ==> GenerationOk(s, s.tasks[id].task))
    && (forall gen :: gen in s.answered ==> gen !in s.connects && gen <= s.counter)
    && s.active <= s.connects
    && (s.owned.Some? ==> s.owned.value in s.connects)
  }

  /** What the phase of a task says about the tunnels. */
  ghost predicate PhaseOk(s: State, r: Running) {
    match r.phase
    case Waiting => true
    case Locked => true
    case Looked(seen) => r.task.Connect? && (seen == Nothing ==> s.active == {})
    case Ready => r.task.Connect? && s.active == {}
    case Activating => r.task.Connect? && s.active == {}
    case Activated => r.task.Connect? && s.active <= {r.task.gen}
    case Polling => r.task.Connect? && s.owned == Some(r.task.gen)
    case Stopping(tunnel, why) => s.owned == Some(tunnel) && PurposeOk(r.task, why, tunnel)
    case Stopped(tunnel, why) =>
      s.owned == Some(tunnel) && tunnel !in s.active && PurposeOk(r.task, why, tunnel)
    case Forgotten(tunnel, why) => s.owned == None && tunnel !in s.active && PurposeOk(r.task, why, tunnel)
  }

  ghost predicate PurposeOk(task: Task, why: Purpose, tunnel: nat) {
    && (task.Connect? <==> why != Request)
    && (task.Cancel? ==> tunnel < task.gen)
  }

  /** Every active tunnel is owned, or about to be. */
  ghost predicate TunnelsOk(s: State) {
    && (forall id :: id in s.tasks ==> PhaseOk(s, s.tasks[id]))
    && forall tunnel :: tunnel in s.active ==> s.owned == Some(tunnel) || AboutToOwn(s, tunnel)
  }

  ghost predicate AboutToOwn(s: State, tunnel: nat) {
    && s.holder.Some? && s.holder.value in s.tasks
    && s.tasks[s.holder.value] == Running(Connect(tunnel), Activated)
  }

  /** No connect has got past its decision. */
  ghost predicate Quiet(s: State) {
    && s.active == {}
    && forall id :: id in s.tasks && s.tasks[id].task.Connect? ==>
         s.tasks[id].phase in {Waiting, Locked} || s.tasks[id].phase.Looked?
  }

  ghost predicate CancelsHold(s: State) {
    s.counter in s.answered ==> Quiet(s)
  }

  /** What an answer promises: the tunnels are down, unless a cancel has been overtaken. */
  ghost predicate ReplyOk(r: Reply) {
    && !r.task.Connect?
    && (r.ok <==> !(r.task.Disconnect? && r.found.None?))
    && (r.found.Some? ==> r.found.value !in r.active)
    && (r.task.Disconnect? || r.task.Logout? || r.latest == r.task.gen ==> r.active == {} && r.owned == None)
  }

  ghost predicate RepliesHold(s: State) {
    forall i :: 0 <= i < |s.replies| ==> ReplyOk(s.replies[i])
  }

  ghost predicate Invariant(s: State) {
    Exclusive(s) && Numbered(s) && TunnelsOk(s) && CancelsHold(s) && RepliesHold(s)
  }

  lemma LeaveKeeps(s: State, id: nat)
    requires Invariant(s) && id in s.tasks && s.tasks[id].phase != Activated
    ensures Invariant(Leave(s, id))
  {
  }

  lemma BeginKeepsOrder(s: State, id: nat, kind: Kind)
    requires Invariant(s) && id !in s.tasks
    ensures Exclusive(Begin(s, id, kind)) && Numbered(Begin(s, id, kind))
  {
    hide TunnelsOk, CancelsHold;
  }

  lemma BeginKeepsTunnels(s: State, id: nat, kind: Kind)
    requires Invariant(s) && id !in s.tasks
    ensures TunnelsOk(Begin(s, id, kind)) && CancelsHold(Begin(s, id, kind)) && RepliesHold(Begin(s, id, kind))
  {
  }

  lemma BeginKeeps(s: State, id: nat, kind: Kind)
    requires Invariant(s) && id !in s.tasks
    ensures Invariant(Begin(s, id, kind))
  {
    hide Exclusive, Numbered, TunnelsOk, CancelsHold, Begin;
    BeginKeepsOrder(s, id, kind);
    BeginKeepsTunnels(s, id, kind);
  }

  lemma AnswerKeeps(s: State, id: nat)
    requires Invariant(s) && id in s.tasks && s.tasks[id].phase == Locked && !s.tasks[id].task.Connect?
    ensures Invariant(Answer(s, id))
  {
  }

  lemma EndKeeps(s: State, id: nat)
    requires Invariant(s) && id in s.tasks && s.tasks[id].phase.Forgotten?
    ensures Invariant(End(s, id, s.tasks[id].phase.tunnel, s.tasks[id].phase.why))
  {
  }

  lemma LookKeeps(s: State, a: Action)
    requires Invariant(s) && Apply(s, a).Some? && (a.Look?)
    ensures Invariant(Apply(s, a).value)
  {
  }

  lemma DecideKeeps(s: State, a: Action)
    requires Invariant(s) && Apply(s, a).Some? && (a.Decide?)
    ensures Invariant(Apply(s, a).value)
  {
    hide Invariant, Leave;
    LeaveKeeps(s, a.id);
    if Apply(s, a).value != Leave(s, a.id) {
      GoesOn(s, a);
    }
  }

  /** A decision that lets the connect go on. */
  lemma GoesOn(s: State, a: Action)
    requires Invariant(s) && Apply(s, a).Some? && a.Decide? && Apply(s, a).value != Leave(s, a.id)
    ensures Invariant(Apply(s, a).value)
  {
    hide Leave;
  }

  lemma RecheckKeeps(s: State, a: Action)
    requires Invariant(s) && Apply(s, a).Some? && (a.Recheck?)
    ensures Invariant(Apply(s, a).value)
  {
    LeaveKeeps(s, a.id);
  }

  lemma ActivateKeeps(s: State, a: Action)
    requires Invariant(s) && Apply(s, a).Some? && (a.Activate?)
    ensures Invariant(Apply(s, a).value)
  {
  }

  lemma OwnKeeps(s: State, a: Action)
    requires Invariant(s) && Apply(s, a).Some? && (a.Own? || a.Fail?)
    ensures Invariant(Apply(s, a).value)
  {
  }

  lemma EnterKeeps(s: State, a: Action)
    requires Invariant(s) && Apply(s, a).Some? && (a.Enter?)
    ensures Invariant(Apply(s, a).value)
  {
  }

  lemma TunnelDownKeeps(s: State, id: nat)
    requires Invariant(s) && Apply(s, TunnelDown(id)).Some?
    ensures Invariant(Apply(s, TunnelDown(id)).value)
  {
  }

  lemma ForgetKeeps(s: State, id: nat)
    requires Invariant(s) && Apply(s, Forget(id)).Some?
    ensures Invariant(Apply(s, Forget(id)).value)
  {
  }

  lemma DropKeeps(s: State, a: Action)
    requires Invariant(s) && Apply(s, a).Some? && (a.Drop?)
    ensures Invariant(Apply(s, a).value)
  {
  }

  lemma StepKeeps(s: State, a: Action)
    requires Invariant(s) && Apply(s, a).Some?
    ensures Invariant(Apply(s, a).value)
  {
    hide Invariant;
    match a
    case Start(id, kind) => BeginKeeps(s, id, kind);
    case Serve(id) => AnswerKeeps(s, id);
    case Finish(id) => EndKeeps(s, id);
    case GiveUp(id) => LeaveKeeps(s, id);
    case Succeed(id) => LeaveKeeps(s, id);
    case StopFails(id) => LeaveKeeps(s, id);
    case Enter(_) => EnterKeeps(s, a);
    case TunnelDown(id) => TunnelDownKeeps(s, id);
    case Forget(id) => ForgetKeeps(s, id);
    case Drop(_) => DropKeeps(s, a);
    case Look(_, _) => LookKeeps(s, a);
    case Decide(_) => DecideKeeps(s, a);
    case Recheck(_) => RecheckKeeps(s, a);
    case Activate(_) => ActivateKeeps(s, a);
    case Own(_) => OwnKeeps(s, a);
    case Fail(_) => OwnKeeps(s, a);
  }

  lemma {:induction false} RunsKeep(actions: seq<Action>)
    requires After(actions).Some?
    ensures Invariant(After(actions).value)
  {
    if actions != [] {
      RunsKeep(actions[..|actions| - 1]);
      StepKeeps(After(actions[..|actions| - 1]).value, actions[|actions| - 1]);
    }
  }

  // ----- what the requests may rely on -----

  /** Once answered, a cancel stays answered. */
  lemma {:induction false} AnsweredStays(before: seq<Action>, later: seq<Action>, gen: nat)
    requires After(before + later).Some?
    ensures After(before).Some?
    ensures gen in After(before).value.answered ==> gen in After(before + later).value.answered
  {
    if later == [] {
      assert before + later == before;
    } else {
      var init := later[..|later| - 1];
      assert (before + later)[..|before + later| - 1] == before + init;
      AnsweredStays(before, init, gen);
    }
  }

  /**
   In every interleaving, from the moment a cancel or a disconnect is answered
   with success: either a newer request has been made, or no tunnel of the
   agent is active and none can be activated.
   */
  lemma CancelMeansStopped(before: seq<Action>, later: seq<Action>, gen: nat, id: nat)
    requires After(before + later).Some?
    requires After(before).Some? && gen in After(before).value.answered
    ensures var s := After(before + later).value;
            s.counter > gen || (s.active == {} && Apply(s, Activate(id)).None?)
  {
    hide Exclusive, TunnelsOk, Advance;
    RunsKeep(before + later);
    AnsweredStays(before, later, gen);
    var s := After(before + later).value;
    if s.counter == gen && id in s.tasks && Apply(s, Activate(id)).Some? {
      ActivatesFromActivating(s, id);
    }
  }

  /** In every run, each answer keeps its promise. */
  lemma RepliesArePromises(actions: seq<Action>, i: nat)
    requires After(actions).Some? && i < |After(actions).value.replies|
    ensures var r := After(actions).value.replies[i];
            && (r.task.Disconnect? || r.task.Logout? ==> r.active == {} && r.owned == None)
            && (r.task.Disconnect? ==> (r.ok <==> r.found.Some?))
            && (r.task.Cancel? && r.latest == r.task.gen ==> r.active == {} && r.owned == None)
            && (r.found.Some? ==> r.found.value !in r.active)
  {
    RunsKeep(actions);
  }

  /**
   A request other than a connect ends with its answer, or when taking the
   tunnel down fails. So a disconnect or a logout served while a tunnel is
   owned cannot end before that tunnel is down and forgotten.
   */
  lemma EndsWithAnswer(actions: seq<Action>, a: Action, id: nat)
    requires After(actions).Some? && Apply(After(actions).value, a).Some?
    requires id in After(actions).value.tasks && !After(actions).value.tasks[id].task.Connect?
    ensures var s, s' := After(actions).value, Apply(After(actions).value, a).value;
            var task, phase := s.tasks[id].task, s.tasks[id].phase;
            id !in s'.tasks ==>
              || a == StopFails(id)
              || (|s'.replies| == |s.replies| + 1 && s'.replies[|s.replies|].task == task
                  && (|| (a == Serve(id) && (s.owned == None || (task.Cancel? && s.counter != task.gen)))
                      || (a == Finish(id) && phase.Forgotten? && s.owned == None && phase.tunnel !in s.active)))
  {
    RunsKeep(actions);
  }

  /** Serving it with a tunnel owned leads to taking that tunnel down. */
  lemma ServedStops(s: State, id: nat)
    requires Apply(s, Serve(id)).Some? && s.owned.Some?
    requires s.tasks[id].task.Disconnect? || s.tasks[id].task.Logout? || s.tasks[id].task == Cancel(s.counter)
    ensures var s' := Apply(s, Serve(id)).value;
            && id in s'.tasks && s'.tasks[id].task == s.tasks[id].task
            && s'.tasks[id].phase == Stopping(s.owned.value, Request)
  {
  }

  /** A newer request was made before this connect passed its last check. */
  ghost predicate Overtaken(s: State, gen: nat) {
    && s.counter > gen && gen !in s.active
    && forall id :: id in s.tasks && s.tasks[id].task == Connect(gen) ==>
         var phase := s.tasks[id].phase;
         phase != Activating && phase != Activated
  }

  /** From then on, in every continuation, it activates no tunnel. */
  lemma {:induction false} OvertakenNeverActivates(before: seq<Action>, later: seq<Action>, gen: nat)
    requires After(before + later).Some?
    requires After(before).Some? && Overtaken(After(before).value, gen)
    ensures Overtaken(After(before + later).value, gen)
  {
    hide Overtaken, Apply;
    if later == [] {
      assert before + later == before;
    } else {
      var init, last := later[..|later| - 1], later[|later| - 1];
      assert (before + later)[..|before + later| - 1] == before + init;
      OvertakenNeverActivates(before, init, gen);
      OvertakenStep(After(before + init).value, last, gen);
    }
  }

  lemma OvertakenStep(s: State, a: Action, gen: nat)
    requires Overtaken(s, gen) && Apply(s, a).Some?
    ensures Overtaken(Apply(s, a).value, gen)
  {
  }

  /**
   Both checks let a connect go on exactly when no newer request was made, the
   first one only when nothing is active, or the tunnel the agent owns, which it
   then replaces. Every request but a logout overtakes the connects made before it.
   */
  lemma ChecksMean(s: State, id: nat, gen: nat)
    requires Invariant(s) && id in s.tasks && s.tasks[id].task == Connect(gen)
    ensures s.tasks[id].phase.Looked? ==>
              var seen := s.tasks[id].phase.seen;
              && Apply(s, Decide(id)).Some?
              && var s' := Apply(s, Decide(id)).value;
                 && (id in s'.tasks <==> s.counter == gen && (seen.Nothing? || (seen.Ours? && s.owned == Some(seen.tunnel))))
                 && (id in s'.tasks && seen.Nothing? ==> s'.tasks[id].phase == Ready)
                 && (id in s'.tasks && seen.Ours? ==> s'.tasks[id].phase == Stopping(seen.tunnel, Replace))
    ensures s.tasks[id].phase == Ready ==>
              && Apply(s, Recheck(id)).Some?
              && var s' := Apply(s, Recheck(id)).value;
                 && (id in s'.tasks <==> s.counter == gen)
                 && (id in s'.tasks ==> s'.tasks[id].phase == Activating)
    ensures forall other, kind :: other !in s.tasks ==>
              && Apply(s, Start(other, kind)).Some?
              && var s' := Apply(s, Start(other, kind)).value;
                 if kind == LogoutKind then s'.counter == s.counter else s'.counter > gen
  {
  }

  /**
   How a connect ends: at a check, with its tunnel up and owned, by giving up
   before it owns one or while it waits for it, or after taking a tunnel down.
   Once its tunnel has failed it takes that tunnel down; once it has taken down
   the one it replaces, it goes on if none is left.
   */
  lemma ConnectEnds(actions: seq<Action>, a: Action, id: nat)
    requires After(actions).Some? && Apply(After(actions).value, a).Some?
    requires id in After(actions).value.tasks && After(actions).value.tasks[id].task.Connect?
    ensures var s, s' := After(actions).value, Apply(After(actions).value, a).value;
            var gen, phase := s.tasks[id].task.gen, s.tasks[id].phase;
            && (id !in s'.tasks ==>
                  || (a == Decide(id) && phase.Looked?) || (a == Recheck(id) && phase == Ready)
                  || (a == Succeed(id) && s.owned == Some(gen) && s' == s.(tasks := s.tasks - {id}, holder := None))
                  || (a == GiveUp(id) && phase != Activated && !phase.Stopping? && !phase.Stopped? && !phase.Forgotten?)
                  || a == StopFails(id)
                  || (a == Finish(id) && phase.Forgotten? && s.owned == None && phase.tunnel !in s.active
                      && (phase.why == Replace ==> s.active != {})))
            && (a == Fail(id) ==> id in s'.tasks && s'.tasks[id].phase == Stopping(gen, Cleanup))
            && (a == Activate(id) ==> s'.active == {gen} && id in s'.tasks && s'.tasks[id].phase == Activated)
            && (a == Own(id) ==> s'.owned == Some(gen) && id in s'.tasks && s'.tasks[id].phase == Polling)
  {
    RunsKeep(actions);
  }

  lemma ActivatesFromActivating(s: State, id: nat)
    requires Apply(s, Activate(id)).Some?
    ensures id in s.tasks && s.tasks[id].task.Connect? && s.tasks[id].phase == Activating
  {
  }

  /** A cancel only ever takes down a tunnel activated by an attempt older than itself. */
  lemma CancelStrikesOlder(actions: seq<Action>, id: nat)
    requires After(actions).Some? && id in After(actions).value.tasks
    requires After(actions).value.tasks[id].task.Cancel? && After(actions).value.tasks[id].phase.Stopping?
    ensures var r := After(actions).value.tasks[id];
            r.phase.tunnel < r.task.gen && r.phase.tunnel in After(actions).value.connects
  {
    RunsKeep(actions);
  }

  /** The agent never has two tunnels active, and every one it has it can take down. */
  lemma OneTunnel(actions: seq<Action>, a: nat, b: nat)
    requires After(actions).Some?
    requires a in After(actions).value.active && b in After(actions).value.active
    ensures a == b
    ensures After(actions).value.owned == Some(a) || AboutToOwn(After(actions).value, a)
  {
    RunsKeep(actions);
    var s := After(actions).value;
    if AboutToOwn(s, a) {
      assert PhaseOk(s, s.tasks[s.holder.value]);
    }
    if AboutToOwn(s, b) {
      assert PhaseOk(s, s.tasks[s.holder.value]);
    }
  }

  /**
   The other half of the cancel's promise cannot be strengthened: a cancel
   overtaken by a newer request is answered while the tunnel is still active.
   */
  lemma OvertakenCancelLeavesTunnel() returns (run: seq<Action>)
    ensures After(run).Some? && 2 in After(run).value.answered && After(run).value.active == {1}
  {
    var s;
    run, s := Connected();
    run, s := Then(run, s, Start(1, CancelKind));
    run, s := Then(run, s, Start(2, DisconnectKind));
    run, s := Then(run, s, Enter(1));
    run, s := Then(run, s, Serve(1));
  }

  lemma Then(run: seq<Action>, s: State, a: Action) returns (run': seq<Action>, s': State)
    requires After(run) == Some(s) && Apply(s, a).Some?
    ensures s' == Apply(s, a).value && After(run') == Some(s')
  {
    run', s' := run + [a], Apply(s, a).value;
    assert run'[..|run'| - 1] == run;
  }

  /** A run up to the decision to activate. */
  lemma Decided() returns (run: seq<Action>, s: State)
    ensures After(run) == Some(s)
    ensures s == State(1, Some(0), None, {}, map[0 := Running(Connect(1), Ready)], {1}, {}, [])
  {
    run, s := [], INITIAL;
    run, s := Then(run, s, Start(0, ConnectKind));
    run, s := Then(run, s, Enter(0));
    run, s := Then(run, s, Look(0, Nothing));
    run, s := Then(run, s, Decide(0));
  }

  /** A run after which one tunnel is up and no task is left. */
  lemma Connected() returns (run: seq<Action>, s: State)
    ensures After(run) == Some(s) && s == State(1, None, Some(1), {1}, map[], {1}, {}, [])
  {
    run, s := Decided();
    run, s := Then(run, s, Recheck(0));
    run, s := Then(run, s, Activate(0));
    run, s := Then(run, s, Own(0));
    run, s := Then(run, s, Succeed(0));
  }
}

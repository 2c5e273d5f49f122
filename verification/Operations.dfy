/**
The operation registry: which operations run, which have finished lately, and
what a client can read off that journal. Times are left out, and identifiers
do not wrap around.
*/
module Operations {
  import opened Wrappers

  const RECENT_OPERATION_LIMIT := 16

  datatype Domain = AuthSession | TunnelConfiguration | Store | Support

  datatype Request =
    | Login | SubmitTwoFactor | AuthenticateKey | SubmitKeyPin | CancelKey | Logout | Refresh
    | Connect | Disconnect | Cancel | SetFeature | SetProtocol | SetDns | SetSplitTunneling
    | SubmitReport | Feedback | NetshieldStats
    | StoreWrite(name: string)
    | Read(name: string, stableSession: bool)

  datatype Stage = TunnelCancelling | KeyCancelling | At(name: string)
  datatype Status = Running | Succeeded | Cancelled | Failed

  datatype Record = Record(id: nat, initiator: string, domain: Domain, kind: Request, state: Status,
                           stage: Stage, cancelable: bool, error: Option<string>)

  datatype Registry = Registry(nextId: nat, active: seq<Record>, recent: seq<Record>)

  /** A request that steers a running operation instead of starting its own. */
  datatype Control = Control(target: Request, stage: Stage, cancelable: bool,
                             failureStage: Stage, failureCancelable: bool, requiresTarget: bool)

  datatype Spec = Spec(domain: Domain, stage: Stage, cancelable: bool, control: Option<Control>)

  datatype Lease = Lease(id: nat, ownsCompletion: bool, failureStage: Option<Stage>, failureCancelable: bool)

  datatype Reply = Granted(lease: Option<Lease>) | Conflict(with: Record) | NotActive

  datatype Outcome = Done | Error(code: string)

  function CancelControl(requiresTarget: bool): Control {
    Control(Connect, TunnelCancelling, false, At("tunnel.cancel_failed"), true, requiresTarget)
  }

  function SpecOf(request: Request): (spec: Option<Spec>)
    ensures spec.None? <==> request.Read?
  {
    match request
    case Login => Some(Spec(AuthSession, At("auth.submitting_credentials"), false, None))
    case SubmitTwoFactor => Some(Spec(AuthSession, At("auth.submitting_two_factor"), false, None))
    case AuthenticateKey => Some(Spec(AuthSession, At("auth.scanning_security_keys"), true, None))
    case SubmitKeyPin =>
      Some(Spec(AuthSession, At("auth.submitting_security_key_pin"), false,
                Some(Control(AuthenticateKey, At("auth.submitting_security_key_pin"), true,
                             At("auth.security_key_pin_failed"), true, true))))
    case CancelKey =>
      Some(Spec(AuthSession, KeyCancelling, false,
                Some(Control(AuthenticateKey, KeyCancelling, false,
                             At("auth.security_key_cancel_failed"), true, true))))
    case Logout => Some(Spec(AuthSession, At("auth.signing_out"), false, None))
    case Refresh => Some(Spec(AuthSession, At("auth.loading_account"), false, None))
    case Connect => Some(Spec(TunnelConfiguration, At("tunnel.preparing_connection"), true, None))
    case Disconnect =>
      Some(Spec(TunnelConfiguration, At("tunnel.disconnecting"), false, Some(CancelControl(false))))
    case Cancel => Some(Spec(TunnelConfiguration, TunnelCancelling, false, Some(CancelControl(false))))
    case SetFeature => Some(Spec(TunnelConfiguration, At("settings.applying_feature"), false, None))
    case SetProtocol => Some(Spec(TunnelConfiguration, At("settings.applying_protocol"), false, None))
    case SetDns => Some(Spec(TunnelConfiguration, At("settings.applying_dns"), false, None))
    case SetSplitTunneling => Some(Spec(TunnelConfiguration, At("settings.applying_split_tunneling"), false, None))
    case SubmitReport => Some(Spec(Support, At("support.submitting_report"), false, None))
    case Feedback => Some(Spec(Support, At("support.submitting_connection_feedback"), false, None))
    case NetshieldStats => Some(Spec(Support, At("support.requesting_netshield_statistics"), false, None))
    case StoreWrite(_) => Some(Spec(Store, At("store.saving"), false, None))
    case Read(_, _) => None
  }

  predicate DomainsConflict(left: Domain, right: Domain) {
    match (left, right)
    case (Store, Store) => true
    case (Store, _) => false
    case (_, Store) => false
    case (Support, TunnelConfiguration) => false
    case (TunnelConfiguration, Support) => false
    case _ => true
  }

  // ----- searching -----

  /** The position of the first record that `p` accepts, or the length. */
  function IndexOf(records: seq<Record>, p: Record -> bool): (i: nat)
    ensures i <= |records|
    ensures i < |records| ==> p(records[i])
    ensures forall j :: 0 <= j < i ==> !p(records[j])
  {
    if records == [] then 0
    else if p(records[0]) then 0
    else 1 + IndexOf(records[1..], p)
  }

  function ById(id: nat): Record -> bool { (r: Record) => r.id == id }
  function Conflicting(domain: Domain): Record -> bool { (r: Record) => DomainsConflict(domain, r.domain) }
  function Steered(domain: Domain, target: Request): Record -> bool {
    (r: Record) => r.domain == domain && r.kind == target && r.state == Running
  }
  function OfKind(request: Request): Record -> bool { (r: Record) => r.kind == request && r.state == Running }
  function RunningIn(domain: Domain): Record -> bool { (r: Record) => r.domain == domain && r.state == Running }
  function OfDomain(domain: Domain): Record -> bool { (r: Record) => r.domain == domain }

  // ----- the three operations on the registry -----

  function Begun(r: Registry, client: string, request: Request): (Registry, Reply) {
    match SpecOf(request)
    case None =>
      var i := IndexOf(r.active, OfDomain(AuthSession));
      if request.stableSession && i < |r.active| then (r, Conflict(r.active[i])) else (r, Granted(None))
    case Some(spec) =>
      var t := if spec.control.Some? then IndexOf(r.active, Steered(spec.domain, spec.control.value.target)) else |r.active|;
      var i := IndexOf(r.active, Conflicting(spec.domain));
      if t < |r.active| then
        var c := spec.control.value;
        var steered := r.active[t].(stage := c.stage, cancelable := c.cancelable, error := None);
        (r.(active := r.active[t := steered]),
         Granted(Some(Lease(steered.id, false, Some(c.failureStage), c.failureCancelable))))
      else if spec.control.Some? && spec.control.value.requiresTarget then (r, NotActive)
      else if i < |r.active| then (r, Conflict(r.active[i]))
      else
        (Registry(r.nextId + 1,
                  r.active + [Record(r.nextId, client, spec.domain, request, Running, spec.stage, spec.cancelable, None)],
                  r.recent),
         Granted(Some(Lease(r.nextId, true, None, false))))
  }

  predicate IsCancelledError(code: string) {
    code in {"cancelled", "operation_cancelled", "connection_cancelled", "fido2_cancelled"}
  }

  predicate Cancelling(stage: Stage) { stage == TunnelCancelling || stage == KeyCancelling }

  /** The terminal record of an operation. */
  function Terminal(op: Record, outcome: Outcome): Record {
    if Cancelling(op.stage) || (outcome.Error? && IsCancelledError(outcome.code)) then
      op.(state := Cancelled, stage := At("cancelled"), cancelable := false,
          error := if outcome.Error? then None else op.error)
    else if outcome.Done? then op.(state := Succeeded, stage := At("complete"), cancelable := false)
    else op.(state := Failed, stage := At("failed"), cancelable := false, error := Some(outcome.code))
  }

  function Truncate(records: seq<Record>): (t: seq<Record>)
    ensures |t| <= RECENT_OPERATION_LIMIT && t <= records
  {
    if |records| <= RECENT_OPERATION_LIMIT then records else records[..RECENT_OPERATION_LIMIT]
  }

  function Finished(r: Registry, lease: Option<Lease>, outcome: Outcome): Registry {
    if lease.None? then r
    else
      var i := IndexOf(r.active, ById(lease.value.id));
      if i == |r.active| then r
      else if !lease.value.ownsCompletion then
        if outcome.Done? then r
        else
          var stage := if lease.value.failureStage.Some? then lease.value.failureStage.value
                       else At("operation.control_failed");
          r.(active := r.active[i := r.active[i].(stage := stage, cancelable := lease.value.failureCancelable,
                                                  error := Some(outcome.code))])
      else
        Registry(r.nextId, r.active[..i] + r.active[i + 1..],
                 Truncate([Terminal(r.active[i], outcome)] + r.recent))
  }

  /** A stage name is a non-empty text of at most 128 bytes. */
  predicate Usable(stage: Stage) { stage.At? ==> 0 < |stage.name| <= 128 }

  /** A backend reports progress on the first running operation that `which` accepts. */
  function StageUpdated(r: Registry, which: Record -> bool, stage: Stage, cancelable: Option<bool>): Registry {
    var i := IndexOf(r.active, which);
    if i == |r.active| || !Usable(stage) then r
    else
      var op := r.active[i];
      r.(active := r.active[i := op.(stage := stage,
                                     cancelable := if cancelable.Some? then cancelable.value else op.cancelable)])
  }

  class OperationCoordinator {
    var nextId: nat
    var active: seq<Record>
    var recent: seq<Record>

    function State(): Registry
      reads this
    {
      Registry(nextId, active, recent)
    }

    constructor ()
      ensures State() == Registry(1, [], [])
    {
      nextId, active, recent := 1, [], [];
    }

    method Find(p: Record -> bool) returns (i: nat)
      ensures i == IndexOf(active, p)
    {
      i := 0;
      while i < |active| && !p(active[i])
        invariant i <= |active| && IndexOf(active, p) == i + IndexOf(active[i..], p)
      {
        assert active[i..][1..] == active[i + 1..];
        i := i + 1;
      }
    }

    method Begin(client: string, request: Request) returns (reply: Reply)
      modifies this
      ensures State() == Begun(old(State()), client, request).0 && reply == Begun(old(State()), client, request).1
    {
      hide SpecOf, DomainsConflict, IndexOf, Steered, Conflicting;
      match SpecOf(request)
      case None => reply := GuardRead(request);
      case Some(spec) =>
        match spec.control
        case None => reply := BeginOwn(client, request, spec);
        case Some(control) =>
          var t := Find(Steered(spec.domain, control.target));
          if t < |active| {
            var steered := active[t].(stage := control.stage, cancelable := control.cancelable, error := None);
            active := active[t := steered];
            reply := Granted(Some(Lease(steered.id, false, Some(control.failureStage), control.failureCancelable)));
          } else if control.requiresTarget {
            reply := NotActive;
          } else {
            reply := BeginOwn(client, request, spec);
          }
    }

    method GuardRead(request: Request) returns (reply: Reply)
      requires request.Read?
      ensures var i := IndexOf(active, OfDomain(AuthSession));
              reply == if request.stableSession && i < |active| then Conflict(active[i]) else Granted(None)
    {
      var i := Find(OfDomain(AuthSession));
      reply := if request.stableSession && i < |active| then Conflict(active[i]) else Granted(None);
    }

    method BeginOwn(client: string, request: Request, spec: Spec) returns (reply: Reply)
      modifies this
      ensures recent == old(recent)
      ensures var i := IndexOf(old(active), Conflicting(spec.domain));
              if i < |old(active)| then
                nextId == old(nextId) && active == old(active) && reply == Conflict(old(active)[i])
              else
                && nextId == old(nextId) + 1 && reply == Granted(Some(Lease(old(nextId), true, None, false)))
                && active == old(active) + [Record(old(nextId), client, spec.domain, request, Running, spec.stage,
                                                   spec.cancelable, None)]
    {
      var i := Find(Conflicting(spec.domain));
      if i < |active| {
        return Conflict(active[i]);
      }
      var id := nextId;
      nextId := nextId + 1;
      active := active + [Record(id, client, spec.domain, request, Running, spec.stage, spec.cancelable, None)];
      reply := Granted(Some(Lease(id, true, None, false)));
    }

    method Finish(lease: Option<Lease>, outcome: Outcome)
      modifies this
      ensures State() == Finished(old(State()), lease, outcome)
    {
      if lease.None? {
        return;
      }
      var i := Find(ById(lease.value.id));
      if i == |active| {
        return;
      }
      if !lease.value.ownsCompletion {
        if outcome.Error? {
          var stage := if lease.value.failureStage.Some? then lease.value.failureStage.value
                       else At("operation.control_failed");
          active := active[i := active[i].(stage := stage, cancelable := lease.value.failureCancelable,
                                           error := Some(outcome.code))];
        }
        return;
      }
      var op := active[i];
      active := active[..i] + active[i + 1..];
      recent := Truncate([Terminal(op, outcome)] + recent);
    }

    method UpdateStage(request: Request, stage: Stage, cancelable: Option<bool>)
      modifies this
      ensures State() == StageUpdated(old(State()), OfKind(request), stage, cancelable)
    {
      Update(OfKind(request), stage, cancelable);
    }

    method UpdateDomainStage(domain: Domain, stage: Stage, cancelable: Option<bool>)
      modifies this
      ensures State() == StageUpdated(old(State()), RunningIn(domain), stage, cancelable)
    {
      Update(RunningIn(domain), stage, cancelable);
    }

    method Update(which: Record -> bool, stage: Stage, cancelable: Option<bool>)
      modifies this
      ensures State() == StageUpdated(old(State()), which, stage, cancelable)
    {
      var i := Find(which);
      if i < |active| && Usable(stage) {
        var op := active[i];
        active := active[i := op.(stage := stage,
                                  cancelable := if cancelable.Some? then cancelable.value else op.cancelable)];
      }
    }
  }

  // ----- what every registry keeps -----

  ghost predicate DistinctIds(records: seq<Record>) {
    forall i, j :: 0 <= i < j < |records| ==> records[i].id != records[j].id
  }

  /** Active operations do not conflict, so no two are in the same domain. */
  ghost predicate Compatible(active: seq<Record>) {
    forall i, j :: 0 <= i < j < |active| ==> !DomainsConflict(active[i].domain, active[j].domain)
  }

  ghost predicate Valid(r: Registry) {
    && Compatible(r.active)
    && DistinctIds(r.active) && DistinctIds(r.recent)
    && (forall i, j :: 0 <= i < |r.active| && 0 <= j < |r.recent| ==> r.active[i].id != r.recent[j].id)
    && (forall i :: 0 <= i < |r.active| ==> r.active[i].state == Running && r.active[i].id < r.nextId)
    && (forall i :: 0 <= i < |r.recent| ==> r.recent[i].state != Running && r.recent[i].id < r.nextId)
    && |r.recent| <= RECENT_OPERATION_LIMIT
  }

  lemma ConflictIsSymmetric(a: Domain, b: Domain)
    ensures DomainsConflict(a, b) == DomainsConflict(b, a)
    ensures DomainsConflict(a, a)
    ensures DomainsConflict(AuthSession, TunnelConfiguration) && DomainsConflict(AuthSession, Support)
    ensures a != Store ==> !DomainsConflict(a, Store)
    ensures !DomainsConflict(Support, TunnelConfiguration)
  {
  }

  /** The domains that run beside each other: the store beside all others, support beside the tunnel. */
  predicate Beside(a: Domain, b: Domain) {
    a != b && (a == Store || b == Store || {a, b} == {Support, TunnelConfiguration})
  }

  lemma ConflictUnlessBeside(a: Domain, b: Domain)
    ensures DomainsConflict(a, b) <==> !Beside(a, b)
  {
  }

  /** The domain of a request that can run by itself. */
  function OwnDomain(request: Request): Option<Domain> {
    match request
    case StoreWrite(_) => Some(Store)
    case Login | SubmitTwoFactor | AuthenticateKey | Logout | Refresh => Some(AuthSession)
    case Connect | Disconnect | Cancel | SetFeature | SetProtocol | SetDns | SetSplitTunneling =>
      Some(TunnelConfiguration)
    case SubmitReport | Feedback | NetshieldStats => Some(Support)
    case CancelKey | SubmitKeyPin | Read(_, _) => None
  }

  lemma OwnSpec(request: Request)
    requires OwnDomain(request).Some?
    ensures SpecOf(request).Some? && SpecOf(request).value.domain == OwnDomain(request).value
    ensures Cancelling(SpecOf(request).value.stage) <==> request == Cancel
    ensures SpecOf(request).value.cancelable <==> request == Connect || request == AuthenticateKey
    ensures var control := SpecOf(request).value.control;
            if request.Disconnect? || request.Cancel? then control.Some? && control.value.target == Connect
                                                    && !control.value.requiresTarget
            else control.None?
  {
  }

  /** The registry with one more running operation. */
  ghost predicate Started(r: Registry, client: string, request: Request, domain: Domain, after: Registry) {
    && |after.active| == |r.active| + 1 && after.active[..|r.active|] == r.active && after.recent == r.recent
    && after.nextId == r.nextId + 1
    && var op := after.active[|r.active|];
       op.id == r.nextId && op.kind == request && op.initiator == client && op.domain == domain
       && op.state == Running && (Cancelling(op.stage) <==> request == Cancel) && op.error == None
       && (op.cancelable <==> request == Connect || request == AuthenticateKey)
  }

  /**
   A request that finds nothing to steer gets its own operation exactly when its domain
   runs beside that of every active one; otherwise it is refused for one that
   it does not run beside, and nothing changes.
   */
  lemma OwnOperationStarts(r: Registry, client: string, request: Request)
    requires OwnDomain(request).Some?
    requires request.Disconnect? || request.Cancel? ==>
               forall i :: 0 <= i < |r.active| ==> r.active[i].kind != Connect || r.active[i].state != Running
    ensures var (after, reply) := Begun(r, client, request);
            var domain := OwnDomain(request).value;
            if forall i :: 0 <= i < |r.active| ==> Beside(domain, r.active[i].domain) then
              reply == Granted(Some(Lease(r.nextId, true, None, false))) && Started(r, client, request, domain, after)
            else
              reply.Conflict? && reply.with in r.active && !Beside(domain, reply.with.domain) && after == r
  {
    hide SpecOf, DomainsConflict, IndexOf, Beside, OwnDomain, Cancelling;
    OwnSpec(request);
    var domain := OwnDomain(request).value;
    forall i | 0 <= i < |r.active|
      ensures Conflicting(domain)(r.active[i]) <==> !Beside(domain, r.active[i].domain)
    {
      ConflictUnlessBeside(domain, r.active[i].domain);
    }
  }

  /** A read is refused only for a session that is changing. */
  lemma ReadIsGuarded(r: Registry, client: string, name: string, stableSession: bool)
    ensures var (after, reply) := Begun(r, client, Read(name, stableSession));
            && after == r
            && if stableSession && (exists i :: 0 <= i < |r.active| && r.active[i].domain == AuthSession)
               then reply.Conflict? && reply.with in r.active && reply.with.domain == AuthSession
               else reply == Granted(None)
  {
    if i :| 0 <= i < |r.active| && r.active[i].domain == AuthSession {
      assert OfDomain(AuthSession)(r.active[i]);
    }
  }

  /** The operation a request controls, and whether it may also run by itself. */
  function Controls(request: Request): Option<(Domain, Request, Stage, bool)> {
    match request
    case Cancel => Some((TunnelConfiguration, Connect, TunnelCancelling, true))
    case Disconnect => Some((TunnelConfiguration, Connect, TunnelCancelling, true))
    case CancelKey => Some((AuthSession, AuthenticateKey, KeyCancelling, false))
    case SubmitKeyPin =>
      Some((AuthSession, AuthenticateKey, At("auth.submitting_security_key_pin"), false))
    case _ => None
  }

  lemma ControlSpec(request: Request)
    requires Controls(request).Some?
    ensures var (domain, target, stage, alone) := Controls(request).value;
            && SpecOf(request).Some? && SpecOf(request).value.domain == domain
            && SpecOf(request).value.control.Some?
            && var c := SpecOf(request).value.control.value;
               c.target == target && c.stage == stage && c.requiresTarget == !alone
               && !Cancelling(c.failureStage) && c.failureCancelable
               && (c.cancelable <==> request == SubmitKeyPin)
  {
  }

  /**
   A control request steers the operation it is for, if that runs: the
   operation keeps its identity and gets the stage, and the lease does not own
   its completion. A key request without one is refused.
   */
  lemma ControlSteers(r: Registry, client: string, request: Request)
    requires Valid(r) && Controls(request).Some?
    ensures var (after, reply) := Begun(r, client, request);
            var (domain, target, stage, alone) := Controls(request).value;
            && (forall j :: 0 <= j < |r.active| && r.active[j].domain == domain && r.active[j].kind == target ==>
                  && reply.Granted? && reply.lease.Some? && reply.lease.value.id == r.active[j].id
                  && !reply.lease.value.ownsCompletion
                  && |after.active| == |r.active| && after.recent == r.recent && after.nextId == r.nextId
                  && Same(after.active[j], r.active[j]) && after.active[j].stage == stage
                  && after.active[j].error == None && after.active[j].state == Running
                  && forall k :: 0 <= k < |r.active| && k != j ==> after.active[k] == r.active[k])
            && (!alone && (forall j :: 0 <= j < |r.active| ==> r.active[j].domain != domain || r.active[j].kind != target)
                ==> reply == NotActive && after == r)
  {
    hide SpecOf, IndexOf, Controls, Cancelling;
    ControlSpec(request);
    var (domain, target, stage, alone) := Controls(request).value;
    var t := IndexOf(r.active, Steered(domain, target));
    forall j | 0 <= j < |r.active| && r.active[j].domain == domain && r.active[j].kind == target
      ensures t == j
    {
      assert Steered(domain, target)(r.active[j]);
      assert DomainsConflict(domain, domain);
    }
  }

  lemma PushedKeeps(r: Registry, op: Record)
    requires Valid(r) && op.id == r.nextId && op.state == Running
    requires forall i :: 0 <= i < |r.active| ==> !DomainsConflict(op.domain, r.active[i].domain)
    ensures Valid(Registry(r.nextId + 1, r.active + [op], r.recent))
  {
    hide DomainsConflict;
    forall i | 0 <= i < |r.active|
      ensures !DomainsConflict(r.active[i].domain, op.domain)
    {
      ConflictIsSymmetric(op.domain, r.active[i].domain);
    }
  }

  lemma BegunKeeps(r: Registry, client: string, request: Request)
    requires Valid(r)
    ensures Valid(Begun(r, client, request).0)
  {
    hide SpecOf, DomainsConflict, OfDomain, Steered;
    if SpecOf(request).Some? {
      var spec := SpecOf(request).value;
      if IndexOf(r.active, Conflicting(spec.domain)) == |r.active| {
        assert forall i :: 0 <= i < |r.active| ==> !Conflicting(spec.domain)(r.active[i]);
        PushedKeeps(r, Record(r.nextId, client, spec.domain, request, Running, spec.stage, spec.cancelable, None));
      }
    }
  }

  lemma StageUpdatedKeeps(r: Registry, which: Record -> bool, stage: Stage, cancelable: Option<bool>)
    requires Valid(r)
    ensures Valid(StageUpdated(r, which, stage, cancelable))
  {
  }

  lemma CompletedKeeps(r: Registry, i: nat, outcome: Outcome)
    requires Valid(r) && i < |r.active|
    ensures Valid(Registry(r.nextId, r.active[..i] + r.active[i + 1..],
                           Truncate([Terminal(r.active[i], outcome)] + r.recent)))
  {
    var left: seq<Record> := r.active[..i] + r.active[i + 1..];
    var more: seq<Record> := [Terminal(r.active[i], outcome)] + r.recent;
    assert forall k :: 0 <= k < |left| ==> left[k] == r.active[if k < i then k else k + 1];
    assert forall k :: 0 <= k < |more| ==> more[k] == if k == 0 then Terminal(r.active[i], outcome) else r.recent[k - 1];
    assert forall k :: 0 <= k < |Truncate(more)| ==> Truncate(more)[k] == more[k];
  }

  lemma FinishedKeeps(r: Registry, lease: Option<Lease>, outcome: Outcome)
    requires Valid(r)
    ensures Valid(Finished(r, lease, outcome))
  {
    hide Truncate, Terminal;
    if lease.Some? {
      var i := IndexOf(r.active, ById(lease.value.id));
      if i < |r.active| && lease.value.ownsCompletion {
        CompletedKeeps(r, i, outcome);
      }
    }
  }

  datatype Event =
    | DoBegin(client: string, request: Request)
    | DoFinish(lease: Option<Lease>, outcome: Outcome)
    | DoStage(which: Record -> bool, stage: Stage, cancelable: Option<bool>)

  function Apply(r: Registry, e: Event): Registry {
    match e
    case DoBegin(client, request) => Begun(r, client, request).0
    case DoFinish(lease, outcome) => Finished(r, lease, outcome)
    case DoStage(which, stage, cancelable) => StageUpdated(r, which, stage, cancelable)
  }

  function Run(r: Registry, events: seq<Event>): Registry {
    if events == [] then r else Apply(Run(r, events[..|events| - 1]), events[|events| - 1])
  }

  /** Every reachable registry is valid. */
  lemma {:induction false} RunsAreValid(r: Registry, events: seq<Event>)
    requires Valid(r)
    ensures Valid(Run(r, events))
  {
    if events != [] {
      var init, e := events[..|events| - 1], events[|events| - 1];
      RunsAreValid(r, init);
      match e
      case DoBegin(client, request) => BegunKeeps(Run(r, init), client, request);
      case DoFinish(lease, outcome) => FinishedKeeps(Run(r, init), lease, outcome);
      case DoStage(which, stage, cancelable) => StageUpdatedKeeps(Run(r, init), which, stage, cancelable);
    }
  }

  // ----- completion -----

  /** The event takes an operation out of the active ones. */
  predicate Completes(r: Registry, e: Event) {
    && e.DoFinish? && e.lease.Some? && e.lease.value.ownsCompletion
    && IndexOf(r.active, ById(e.lease.value.id)) < |r.active|
  }

  predicate Same(a: Record, b: Record) {
    a.id == b.id && a.initiator == b.initiator && a.kind == b.kind && a.domain == b.domain
  }

  /** Only the completion of an operation moves records; a control lease never completes its target. */
  lemma OnlyCompletionMoves(r: Registry, e: Event)
    requires !Completes(r, e)
    ensures Apply(r, e).recent == r.recent && |Apply(r, e).active| >= |r.active|
    ensures forall i :: 0 <= i < |r.active| ==> Same(Apply(r, e).active[i], r.active[i])
  {
    hide SpecOf, DomainsConflict;
  }

  /** The operations in the journal, or gone from it, are never completed again. */
  lemma CompletesOnce(r: Registry, e: Event, id: nat)
    requires Valid(r) && id < r.nextId && forall i :: 0 <= i < |r.active| ==> r.active[i].id != id
    ensures forall i :: 0 <= i < |Apply(r, e).active| ==> Apply(r, e).active[i].id != id
    ensures Completes(r, e) ==> e.lease.value.id != id
    ensures id < Apply(r, e).nextId
  {
    hide SpecOf, DomainsConflict;
    if Completes(r, e) {
      var i := IndexOf(r.active, ById(e.lease.value.id));
      assert r.active[i].id == e.lease.value.id;
    }
  }

  /** How many operations an event sequence completes. */
  function Completions(r: Registry, events: seq<Event>): nat {
    if events == [] then 0
    else
      var init, e := events[..|events| - 1], events[|events| - 1];
      Completions(r, init) + if Completes(Run(r, init), e) then 1 else 0
  }

  /** A record stays in the journal, one place further for every later completion, until it falls out. */
  lemma {:induction false} JournalMoves(r: Registry, events: seq<Event>)
    requires Valid(r) && r.recent != [] && Completions(r, events) < RECENT_OPERATION_LIMIT
    ensures Completions(r, events) < |Run(r, events).recent|
    ensures Run(r, events).recent[Completions(r, events)] == r.recent[0]
  {
    hide SpecOf, DomainsConflict, Valid, Apply;
    if events != [] {
      var init, e := events[..|events| - 1], events[|events| - 1];
      JournalMoves(r, init);
      RunsAreValid(r, init);
      JournalStep(Run(r, init), e, Completions(r, init));
    }
  }

  lemma JournalStep(r: Registry, e: Event, k: nat)
    requires Valid(r) && k < |r.recent| && k + 1 < RECENT_OPERATION_LIMIT + (if Completes(r, e) then 0 else 1)
    ensures var k' := k + if Completes(r, e) then 1 else 0;
            k' < |Apply(r, e).recent| && Apply(r, e).recent[k'] == r.recent[k]
  {
    hide SpecOf, DomainsConflict;
    if Completes(r, e) {
      var r' := Apply(r, e);
      CompletionIs(r, IndexOf(r.active, ById(e.lease.value.id)), e.outcome, r'.active, r'.recent);
    } else {
      OnlyCompletionMoves(r, e);
    }
  }

  const CANCEL_CODES := {"cancelled", "operation_cancelled", "connection_cancelled", "fido2_cancelled"}

  /** How an operation has ended: cancelled when that was asked for or reported, else by the outcome. */
  ghost predicate EndedAs(op: Record, outcome: Outcome, end: Record) {
    var cancelled := op.stage == TunnelCancelling || op.stage == KeyCancelling
                     || (outcome.Error? && outcome.code in CANCEL_CODES);
    && Same(end, op) && !end.cancelable
    && (end.state == Cancelled <==> cancelled)
    && (end.state == Succeeded <==> !cancelled && outcome == Done)
    && (end.state == Failed <==> !cancelled && outcome.Error?)
    && end.error == (if outcome == Done then op.error else if cancelled then None else Some(outcome.code))
  }

  lemma CompletedEnds(r: Registry, op: Record, lease: Lease, outcome: Outcome)
    requires Valid(r) && op in r.active && lease.id == op.id && lease.ownsCompletion
    ensures var after := Apply(r, DoFinish(Some(lease), outcome));
            && Completes(r, DoFinish(Some(lease), outcome)) && after.recent != []
            && EndedAs(op, outcome, after.recent[0]) && forall o :: o in after.active ==> o.id != op.id
  {
    var i :| 0 <= i < |r.active| && r.active[i] == op;
    assert ById(op.id)(r.active[i]);
    var after := Apply(r, DoFinish(Some(lease), outcome));
    assert IndexOf(r.active, ById(op.id)) == i;
    CompletionIs(r, i, outcome, after.active, after.recent);
  }

  /**
   Completed by its owner, an operation stands in the journal until sixteen
   later completions: cancelled exactly when it was being cancelled or the
   error is a cancellation, otherwise succeeded or failed as its outcome says.
   */
  lemma CompletionStands(r: Registry, op: Record, lease: Lease, outcome: Outcome, events: seq<Event>)
    requires Valid(r) && op in r.active && lease.id == op.id && lease.ownsCompletion
    requires Completions(Run(r, [DoFinish(Some(lease), outcome)]), events) < RECENT_OPERATION_LIMIT
    ensures var later := Completions(Run(r, [DoFinish(Some(lease), outcome)]), events);
            var recent := Run(Run(r, [DoFinish(Some(lease), outcome)]), events).recent;
            later < |recent| && EndedAs(op, outcome, recent[later])
  {
    hide Valid, Completes, EndedAs, Completions, Apply;
    var e := DoFinish(Some(lease), outcome);
    OneEventRun(r, e);
    RunsAreValid(r, [e]);
    CompletedEnds(r, op, lease, outcome);
    JournalMoves(Apply(r, e), events);
  }

  lemma OneEventRun(r: Registry, e: Event)
    ensures Run(r, [e]) == Apply(r, e)
  {
    assert [e][..0] == [];
  }

  // ----- what auto-connect reads off the registry -----

  predicate Foreign(op: Record, me: string) {
    op.initiator != me && op.kind in {Connect, Cancel, Disconnect, Logout}
  }

  predicate Interrupts(op: Record, initial: set<nat>, me: string) {
    && op.id !in initial
    && ((op.kind == Connect && (op.stage == TunnelCancelling || op.state == Cancelled)) || Foreign(op, me))
  }

  predicate Interrupted(r: Registry, initial: set<nat>, me: string) {
    exists op :: op in r.active + r.recent && Interrupts(op, initial, me)
  }

  ghost predicate IsActive(r: Registry, op: Record) {
    exists i :: 0 <= i < |r.active| && Same(r.active[i], op)
  }

  /** How many operations completed after `op` had. */
  function Later(r: Registry, events: seq<Event>, op: Record): nat {
    if events == [] then 0
    else
      var init, e := events[..|events| - 1], events[|events| - 1];
      Later(r, init, op)
      + if Completes(Run(r, init), e) && IndexOf(Run(r, init).active, ById(op.id)) == |Run(r, init).active| then 1 else 0
  }

  /** Where an operation that began is found: active, or in the journal behind the later completions. */
  ghost predicate Placed(r: Registry, op: Record, later: nat) {
    if IsActive(r, op) then later == 0
    else
      && op.id < r.nextId
      && (forall i :: 0 <= i < |r.active| ==> r.active[i].id != op.id)
      && (if later < RECENT_OPERATION_LIMIT then later < |r.recent| && Same(r.recent[later], op)
          else forall i :: 0 <= i < |r.recent| ==> r.recent[i].id != op.id)
  }

  lemma {:induction false} PlacedAfter(r: Registry, events: seq<Event>, op: Record)
    requires Valid(r) && IsActive(r, op)
    ensures Placed(Run(r, events), op, Later(r, events, op))
  {
    hide SpecOf, DomainsConflict, Valid, Completes, Apply;
    if events != [] {
      var init, e := events[..|events| - 1], events[|events| - 1];
      PlacedAfter(r, init, op);
      RunsAreValid(r, init);
      PlacedStep(Run(r, init), e, op, Later(r, init, op));
    }
  }

  lemma PlacedStep(r: Registry, e: Event, op: Record, later: nat)
    requires Valid(r) && Placed(r, op, later)
    ensures Placed(Apply(r, e), op,
                   later + if Completes(r, e) && IndexOf(r.active, ById(op.id)) == |r.active| then 1 else 0)
  {
    hide SpecOf, DomainsConflict;
    if Completes(r, e) {
      CompletionPlaces(r, e, op, later);
    } else {
      OnlyCompletionMoves(r, e);
      if !IsActive(r, op) {
        CompletesOnce(r, e, op.id);
      }
    }
  }

  /** The registry after the operation at `i` completes. */
  lemma CompletionIs(r: Registry, i: nat, outcome: Outcome, left: seq<Record>, recent: seq<Record>)
    requires Valid(r) && i < |r.active| && left == r.active[..i] + r.active[i + 1..]
    requires recent == Truncate([Terminal(r.active[i], outcome)] + r.recent)
    ensures |left| == |r.active| - 1 && forall k :: 0 <= k < |left| ==> left[k] == r.active[if k < i then k else k + 1]
    ensures 0 < |recent| <= RECENT_OPERATION_LIMIT && |recent| >= if |r.recent| < 16 then |r.recent| + 1 else 16
    ensures Same(recent[0], r.active[i])
    ensures forall k :: 0 < k < |recent| ==> k - 1 < |r.recent| && recent[k] == r.recent[k - 1]
  {
  }

  lemma CompletionPlaces(r: Registry, e: Event, op: Record, later: nat)
    requires Valid(r) && Placed(r, op, later) && Completes(r, e)
    ensures Placed(Apply(r, e), op, later + if IndexOf(r.active, ById(op.id)) == |r.active| then 1 else 0)
  {
    var i := IndexOf(r.active, ById(e.lease.value.id));
    var r' := Apply(r, e);
    CompletionIs(r, i, e.outcome, r'.active, r'.recent);
    if IsActive(r, op) {
      var j :| 0 <= j < |r.active| && Same(r.active[j], op);
      ActiveCompletionPlaces(r, r', i, j, op);
    } else if later + 1 < RECENT_OPERATION_LIMIT {
      assert r'.recent[later + 1] == r.recent[later];
    }
  }

  lemma ActiveCompletionPlaces(r: Registry, r': Registry, i: nat, j: nat, op: Record)
    requires Valid(r) && i < |r.active| && j < |r.active| && Same(r.active[j], op)
    requires |r'.active| == |r.active| - 1 && r'.nextId == r.nextId
    requires forall k :: 0 <= k < |r'.active| ==> r'.active[k] == r.active[if k < i then k else k + 1]
    requires 0 < |r'.recent| && Same(r'.recent[0], r.active[i])
    ensures Placed(r', op, 0)
    ensures IndexOf(r.active, ById(op.id)) < |r.active|
  {
    assert ById(op.id)(r.active[j]);
    if j != i {
      assert Same(r'.active[if j < i then j else j - 1], op);
    }
  }

  /**
   Once another client's connect, cancel, disconnect or logout has begun an
   operation after the baseline, the sequence reads as interrupted for as long
   as fewer than sixteen later operations have completed.
   */
  lemma InterruptionPersists(r: Registry, events: seq<Event>, op: Record, initial: set<nat>, me: string)
    requires Valid(r) && IsActive(r, op) && op.id !in initial && Foreign(op, me)
    requires Later(r, events, op) < RECENT_OPERATION_LIMIT
    ensures Interrupted(Run(r, events), initial, me)
  {
    PlacedAfter(r, events, op);
    var s := Run(r, events);
    if IsActive(s, op) {
      var i :| 0 <= i < |s.active| && Same(s.active[i], op);
      assert s.active[i] in s.active + s.recent;
    } else {
      assert s.recent[Later(r, events, op)] in s.active + s.recent;
    }
  }

  /** After sixteen later completions the journal has forgotten the operation. */
  lemma InterruptionExpires(r: Registry, events: seq<Event>, op: Record)
    requires Valid(r) && IsActive(r, op) && Later(r, events, op) >= RECENT_OPERATION_LIMIT
    ensures forall o :: o in Run(r, events).active + Run(r, events).recent ==> o.id != op.id
  {
    PlacedAfter(r, events, op);
  }

  // ----- cancels that steer a running connect -----

  /** A connect that reads as cancelled. */
  predicate Shows(op: Record) { op.stage == TunnelCancelling || op.state == Cancelled }

  ghost predicate Shown(r: Registry, id: nat) {
    || (exists i :: 0 <= i < |r.active| && r.active[i].id == id && Shows(r.active[i]))
    || (exists i :: 0 <= i < |r.recent| && r.recent[i].id == id && Shows(r.recent[i]))
  }

  /** The first active operation `p` accepts is the one with this identifier. */
  predicate Hits(r: Registry, p: Record -> bool, id: nat) {
    IndexOf(r.active, p) < |r.active| && r.active[IndexOf(r.active, p)].id == id
  }

  function FailureStage(lease: Lease): Stage {
    if lease.failureStage.Some? then lease.failureStage.value else At("operation.control_failed")
  }

  /** The event puts the connect into cancelling, or completes it as cancelled. */
  predicate Cancels(r: Registry, e: Event, id: nat) {
    match e
    case DoBegin(_, request) =>
      (request == Cancel || request == Disconnect) && Hits(r, Steered(TunnelConfiguration, Connect), id)
    case DoStage(which, stage, _) => stage == TunnelCancelling && Hits(r, which, id)
    case DoFinish(lease, outcome) =>
      && lease.Some? && lease.value.id == id && Hits(r, ById(id), id)
      && if lease.value.ownsCompletion
         then Cancelling(r.active[IndexOf(r.active, ById(id))].stage)
              || (outcome.Error? && IsCancelledError(outcome.code))
         else outcome.Error? && FailureStage(lease.value) == TunnelCancelling
  }

  /** The event gives the connect, while it runs, a stage that is no cancelling. */
  predicate Restages(r: Registry, e: Event, id: nat) {
    match e
    case DoBegin(_, _) => false
    case DoStage(which, stage, _) => stage != TunnelCancelling && Usable(stage) && Hits(r, which, id)
    case DoFinish(lease, outcome) =>
      && lease.Some? && lease.value.id == id && Hits(r, ById(id), id)
      && !lease.value.ownsCompletion && outcome.Error? && FailureStage(lease.value) != TunnelCancelling
  }

  /** Of the events that decide about the cancel of a connect, the last one cancelled it. */
  ghost predicate CancelStands(r: Registry, events: seq<Event>, id: nat) {
    if events == [] then Shown(r, id)
    else
      var init, e := events[..|events| - 1], events[|events| - 1];
      Cancels(Run(r, init), e, id) || (!Restages(Run(r, init), e, id) && CancelStands(r, init, id))
  }

  /** One step: what a connect in the registry shows changes only by the events named. */
  lemma ShownStep(r: Registry, e: Event, op: Record, later: nat)
    requires Valid(r) && Placed(r, op, later) && op.kind == Connect
    requires later + (if Completes(r, e) && IndexOf(r.active, ById(op.id)) == |r.active| then 1 else 0)
             < RECENT_OPERATION_LIMIT
    ensures Shown(Apply(r, e), op.id)
       <==> Cancels(r, e, op.id) || (!Restages(r, e, op.id) && Shown(r, op.id))
  {
    hide SpecOf, DomainsConflict;
    if IsActive(r, op) {
      var j :| 0 <= j < |r.active| && Same(r.active[j], op);
      match e
      case DoBegin(client, request) => BeginShows(r, client, request, j);
      case DoStage(which, stage, cancelable) => StageShows(r, which, stage, cancelable, j);
      case DoFinish(lease, outcome) => FinishShows(r, lease, outcome, j);
    } else {
      JournalShows(r, e, op, later);
    }
  }

  /** What an active operation shows. */
  lemma ActiveShows(r: Registry, j: nat)
    requires Valid(r) && j < |r.active|
    ensures Shown(r, r.active[j].id) <==> Shows(r.active[j])
  {
    assert forall i :: 0 <= i < |r.active| && i != j ==> r.active[i].id != r.active[j].id;
  }

  lemma BeginShows(r: Registry, client: string, request: Request, j: nat)
    requires Valid(r) && j < |r.active| && r.active[j].kind == Connect
    ensures var e, id := DoBegin(client, request), r.active[j].id;
            Shown(Apply(r, e), id) <==> Cancels(r, e, id) || (!Restages(r, e, id) && Shown(r, id))
  {
    hide SpecOf, DomainsConflict, IndexOf, Shown;
    var r' := Begun(r, client, request).0;
    BegunKeeps(r, client, request);
    ActiveShows(r, j);
    SteeringConnects(request);
    ActiveShows(r', j);
  }

  /** Only a cancel or a disconnect steers a connect. */
  lemma SteeringConnects(request: Request)
    ensures SpecOf(request).Some? && SpecOf(request).value.control.Some? ==>
              var spec := SpecOf(request).value;
              if request == Cancel || request == Disconnect
              then spec.domain == TunnelConfiguration && spec.control.value.target == Connect
                   && spec.control.value.stage == TunnelCancelling
              else spec.control.value.target != Connect
    ensures request == Cancel || request == Disconnect ==>
              SpecOf(request).Some? && SpecOf(request).value.control.Some?
  {
  }

  lemma StageShows(r: Registry, which: Record -> bool, stage: Stage, cancelable: Option<bool>, j: nat)
    requires Valid(r) && j < |r.active| && r.active[j].kind == Connect
    ensures var e, id := DoStage(which, stage, cancelable), r.active[j].id;
            Shown(Apply(r, e), id) <==> Cancels(r, e, id) || (!Restages(r, e, id) && Shown(r, id))
  {
    hide IndexOf, Shown;
    var r' := StageUpdated(r, which, stage, cancelable);
    StageUpdatedKeeps(r, which, stage, cancelable);
    ActiveShows(r, j);
    ActiveShows(r', j);
  }

  lemma FinishShows(r: Registry, lease: Option<Lease>, outcome: Outcome, j: nat)
    requires Valid(r) && j < |r.active| && r.active[j].kind == Connect
    ensures var e, id := DoFinish(lease, outcome), r.active[j].id;
            Shown(Apply(r, e), id) <==> Cancels(r, e, id) || (!Restages(r, e, id) && Shown(r, id))
  {
    hide IndexOf, Truncate, Terminal, Shown;
    var id, r' := r.active[j].id, Finished(r, lease, outcome);
    FinishedKeeps(r, lease, outcome);
    ActiveShows(r, j);
    if lease.None? || IndexOf(r.active, ById(lease.value.id)) == |r.active| {
      assert lease.Some? ==> !ById(lease.value.id)(r.active[j]);
    } else if !lease.value.ownsCompletion {
      ActiveShows(r', j);
    } else {
      CompletionShows(r, lease.value, outcome, j);
    }
  }

  lemma CompletionShows(r: Registry, lease: Lease, outcome: Outcome, j: nat)
    requires Valid(r) && j < |r.active| && lease.ownsCompletion && IndexOf(r.active, ById(lease.id)) < |r.active|
    ensures var id := r.active[j].id;
            Shown(Finished(r, Some(lease), outcome), id) <==>
              if lease.id == id
              then Cancelling(r.active[IndexOf(r.active, ById(id))].stage)
                   || (outcome.Error? && IsCancelledError(outcome.code))
              else Shows(r.active[j])
  {
    var i, id := IndexOf(r.active, ById(lease.id)), r.active[j].id;
    var r' := Finished(r, Some(lease), outcome);
    hide IndexOf, Truncate;
    FinishedKeeps(r, Some(lease), outcome);
    CompletionIs(r, i, outcome, r'.active, r'.recent);
    assert r'.recent[0] == Terminal(r.active[i], outcome);
    if lease.id == id {
      assert i == j;
      JournalHas(r', 0, id);
    } else {
      ActiveShows(r', if j < i then j else j - 1);
    }
  }

  /** What an operation in the journal shows. */
  lemma JournalHas(r: Registry, k: nat, id: nat)
    requires Valid(r) && k < |r.recent| && r.recent[k].id == id
    ensures Shown(r, id) <==> Shows(r.recent[k])
  {
    assert forall i :: 0 <= i < |r.recent| && i != k ==> r.recent[i].id != id;
  }

  lemma JournalShows(r: Registry, e: Event, op: Record, later: nat)
    requires Valid(r) && Placed(r, op, later) && !IsActive(r, op)
    requires later + (if Completes(r, e) then 1 else 0) < RECENT_OPERATION_LIMIT
    ensures !Cancels(r, e, op.id) && !Restages(r, e, op.id)
    ensures Shown(Apply(r, e), op.id) <==> Shown(r, op.id)
  {
    hide SpecOf, DomainsConflict, IndexOf, Shown, Shows, Terminal, Truncate;
    var r' := Apply(r, e);
    assert r' == Run(r, [e]) by {
      assert [e][..0] == [];
    }
    RunsAreValid(r, [e]);
    JournalHas(r, later, op.id);
    if Completes(r, e) {
      CompletionIs(r, IndexOf(r.active, ById(e.lease.value.id)), e.outcome, r'.active, r'.recent);
      JournalHas(r', later + 1, op.id);
    } else {
      OnlyCompletionMoves(r, e);
      JournalHas(r', later, op.id);
    }
  }

  /**
   While fewer than sixteen later operations have completed, a connect reads as
   cancelled exactly when, of the events that decide about it, the last one
   cancelled it. A cancel of another client steers the connect and has no
   record of its own, so this is all that tells of it.
   */
  lemma {:induction false} CancelShows(r: Registry, events: seq<Event>, op: Record)
    requires Valid(r) && IsActive(r, op) && op.kind == Connect && Later(r, events, op) < RECENT_OPERATION_LIMIT
    ensures Shown(Run(r, events), op.id) <==> CancelStands(r, events, op.id)
  {
    hide Apply, Valid, Completes, Cancels, Restages, Shown;
    if events != [] {
      var init, e := events[..|events| - 1], events[|events| - 1];
      CancelShows(r, init, op);
      RunsAreValid(r, init);
      PlacedAfter(r, init, op);
      ShownStep(Run(r, init), e, op, Later(r, init, op));
    }
  }

  /** The connect at `op` itself reads as an interruption. */
  ghost predicate InterruptedBy(r: Registry, id: nat, initial: set<nat>, me: string) {
    exists op :: op in r.active + r.recent && op.id == id && Interrupts(op, initial, me)
  }

  lemma {:induction false} CancelKept(r: Registry, events: seq<Event>, id: nat)
    requires Shown(r, id)
    requires forall k :: 0 <= k < |events| ==> !Restages(Run(r, events[..k]), events[k], id)
    ensures CancelStands(r, events, id)
  {
    if events != [] {
      var init := events[..|events| - 1];
      assert forall k :: 0 <= k < |init| ==> init[..k] == events[..k];
      CancelKept(r, init, id);
    }
  }

  /**
   A cancel or disconnect of another client that steers the sequence's own
   connect reads as an interruption for as long as no stage is reported over
   it and fewer than sixteen later operations have completed.
   */
  lemma SteeredCancelPersists(r: Registry, events: seq<Event>, op: Record, initial: set<nat>, me: string)
    requires Valid(r) && op in r.active && op.kind == Connect && op.stage == TunnelCancelling && op.id !in initial
    requires Later(r, events, op) < RECENT_OPERATION_LIMIT
    requires forall k :: 0 <= k < |events| ==> !Restages(Run(r, events[..k]), events[k], op.id)
    ensures Interrupted(Run(r, events), initial, me) && InterruptedBy(Run(r, events), op.id, initial, me)
  {
    hide Restages, Run, Later, Valid;
    var i :| 0 <= i < |r.active| && r.active[i] == op;
    assert IsActive(r, op);
    assert Shown(r, op.id);
    CancelKept(r, events, op.id);
    CancelShows(r, events, op);
    PlacedAfter(r, events, op);
    KindOf(r, events, op);
    ShownInterrupts(Run(r, events), op, initial, me);
  }

  /** The identifier of an operation keeps naming it. */
  lemma KindOf(r: Registry, events: seq<Event>, op: Record)
    requires Valid(r) && IsActive(r, op) && Later(r, events, op) < RECENT_OPERATION_LIMIT
    ensures forall o :: o in Run(r, events).active + Run(r, events).recent && o.id == op.id ==> Same(o, op)
  {
    PlacedAfter(r, events, op);
    RunsAreValid(r, events);
    var s := Run(r, events);
    hide Run, Later;
    forall o | o in s.active + s.recent && o.id == op.id
      ensures Same(o, op)
    {
      if o in s.active {
        var i :| 0 <= i < |s.active| && s.active[i] == o;
      } else {
        var i :| 0 <= i < |s.recent| && s.recent[i] == o;
      }
    }
  }

  lemma ShownInterrupts(r: Registry, op: Record, initial: set<nat>, me: string)
    requires forall o :: o in r.active + r.recent && o.id == op.id ==> Same(o, op)
    requires op.kind == Connect && op.id !in initial
    ensures Shown(r, op.id) ==> InterruptedBy(r, op.id, initial, me) && Interrupted(r, initial, me)
    ensures op.initiator == me && InterruptedBy(r, op.id, initial, me) ==> Shown(r, op.id)
  {
    if Shown(r, op.id) {
      if i :| 0 <= i < |r.active| && r.active[i].id == op.id && Shows(r.active[i]) {
        assert r.active[i] in r.active + r.recent;
        assert Interrupts(r.active[i], initial, me);
      } else {
        var i :| 0 <= i < |r.recent| && r.recent[i].id == op.id && Shows(r.recent[i]);
        assert r.recent[i] in r.active + r.recent;
        assert Interrupts(r.recent[i], initial, me);
      }
    }
    if op.initiator == me && InterruptedBy(r, op.id, initial, me) {
      var o :| o in r.active + r.recent && o.id == op.id && Interrupts(o, initial, me);
      assert Same(o, op);
      if o in r.active {
        var i :| 0 <= i < |r.active| && r.active[i] == o;
      } else {
        var i :| 0 <= i < |r.recent| && r.recent[i] == o;
      }
    }
  }

  lemma {:induction false} CancelLost(r: Registry, events: seq<Event>, id: nat, k: nat)
    requires k < |events| && Restages(Run(r, events[..k]), events[k], id)
    requires forall j :: k <= j < |events| ==> !Cancels(Run(r, events[..j]), events[j], id)
    ensures !CancelStands(r, events, id)
  {
    var init := events[..|events| - 1];
    if k < |events| - 1 {
      assert forall j :: 0 <= j <= |init| ==> init[..j] == events[..j];
      CancelLost(r, init, id, k);
    }
  }

  /**
   The other way round: once a stage is reported over the cancel, the sequence's
   own connect tells of no interruption any more, unless it is cancelled again
   or ends as cancelled.
   */
  lemma RestagedConnectForgets(r: Registry, events: seq<Event>, op: Record, initial: set<nat>, me: string, k: nat)
    requires Valid(r) && IsActive(r, op) && op.kind == Connect && op.initiator == me && op.id !in initial
    requires Later(r, events, op) < RECENT_OPERATION_LIMIT
    requires k < |events| && Restages(Run(r, events[..k]), events[k], op.id)
    requires forall j :: k <= j < |events| ==> !Cancels(Run(r, events[..j]), events[j], op.id)
    ensures !InterruptedBy(Run(r, events), op.id, initial, me)
  {
    hide Cancels, Restages, Run, Later, Valid;
    CancelLost(r, events, op.id, k);
    CancelShows(r, events, op);
    KindOf(r, events, op);
    ShownInterrupts(Run(r, events), op, initial, me);
  }

  /** The operation a granted request runs as, or steers. */
  ghost predicate RunsAs(r: Registry, reply: Reply, op: Record) {
    reply.Granted? && reply.lease.Some? && op in r.active && op.id == reply.lease.value.id
  }

  /** What a connect, cancel, disconnect or logout that is granted leaves active. */
  lemma GrantedRequest(r: Registry, client: string, request: Request, op: Record)
    requires Valid(r) && request in {Connect, Cancel, Disconnect, Logout}
    requires RunsAs(Begun(r, client, request).0, Begun(r, client, request).1, op)
    ensures if Begun(r, client, request).1.lease.value.ownsCompletion
            then op.initiator == client && op.kind == request
            else op.kind == Connect && op.stage == TunnelCancelling
  {
    hide DomainsConflict;
    var r' := Begun(r, client, request).0;
    BegunKeeps(r, client, request);
    var k :| 0 <= k < |r'.active| && r'.active[k] == op;
  }

  /**
   Whatever another client asks for, connect, cancel, disconnect or logout: once
   it is granted after the baseline, the sequence reads as interrupted until
   sixteen later operations have completed. A request that steers a running
   connect needs that no stage is reported over it; that this condition cannot
   be dropped is `RestagedConnectForgets`.
   */
  lemma RequestInterrupts(r: Registry, client: string, request: Request, events: seq<Event>, op: Record,
                          initial: set<nat>, me: string)
    requires Valid(r) && client != me && request in {Connect, Cancel, Disconnect, Logout}
    requires RunsAs(Begun(r, client, request).0, Begun(r, client, request).1, op) && op.id !in initial
    requires Later(Begun(r, client, request).0, events, op) < RECENT_OPERATION_LIMIT
    requires !Begun(r, client, request).1.lease.value.ownsCompletion ==>
               forall k :: 0 <= k < |events| ==>
                 !Restages(Run(Begun(r, client, request).0, events[..k]), events[k], op.id)
    ensures Interrupted(Run(Begun(r, client, request).0, events), initial, me)
  {
    hide Begun, Run, Later, Restages, Valid, Interrupted;
    var r', reply := Begun(r, client, request).0, Begun(r, client, request).1;
    GrantedRequest(r, client, request, op);
    BegunKeeps(r, client, request);
    var k :| 0 <= k < |r'.active| && r'.active[k] == op;
    assert IsActive(r', op);
    if reply.lease.value.ownsCompletion {
      InterruptionPersists(r', events, op, initial, me);
    } else {
      SteeredCancelPersists(r', events, op, initial, me);
    }
  }

  const CONNECTING := Record(1, "agent-autoconnect", TunnelConfiguration, Connect, Running,
                             At("tunnel.preparing_connection"), true, None)

  lemma ConnectBegins()
    ensures Begun(Registry(1, [], []), "agent-autoconnect", Connect).0 == Registry(2, [CONNECTING], [])
  {
  }

  /** Another client's cancel steers the running connect, which then reads as interrupted. */
  lemma CancelSteers()
    ensures var r := Begun(Registry(2, [CONNECTING], []), "shell", Cancel).0;
            && r == Registry(2, [CONNECTING.(stage := TunnelCancelling, cancelable := false)], [])
            && Interrupted(r, {}, "agent-autoconnect")
  {
    hide DomainsConflict;
    var r := Begun(Registry(2, [CONNECTING], []), "shell", Cancel).0;
    assert Steered(TunnelConfiguration, Connect)(CONNECTING);
    assert r.active == [CONNECTING.(stage := TunnelCancelling, cancelable := false)];
    assert r.active[0] in r.active + r.recent && Interrupts(r.active[0], {}, "agent-autoconnect");
  }

  /** A stage the backend reports after that cancel hides it, even once the connect has finished. */
  lemma ReportedStageHidesCancel()
    ensures var r := Begun(Begun(Registry(1, [], []), "agent-autoconnect", Connect).0, "shell", Cancel).0;
            var reported := StageUpdated(r, OfKind(Connect), At("tunnel.connecting"), Some(true));
            var finished := Finished(reported, Some(Lease(1, true, None, false)), Done);
            Interrupted(r, {}, "agent-autoconnect") && !Interrupted(finished, {}, "agent-autoconnect")
  {
    hide SpecOf, DomainsConflict, Begun;
    ConnectBegins();
    CancelSteers();
    var r := Registry(2, [CONNECTING.(stage := TunnelCancelling, cancelable := false)], []);
    var reported := StageUpdated(r, OfKind(Connect), At("tunnel.connecting"), Some(true));
    assert reported.active == [CONNECTING.(stage := At("tunnel.connecting"))];
    var finished := Finished(reported, Some(Lease(1, true, None, false)), Done);
    assert finished.active == [] && finished.recent == [Terminal(reported.active[0], Done)];
  }
}

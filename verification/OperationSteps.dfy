/**
The steps of the operation registry that neither start nor complete an
operation: control requests that fail or succeed, and reported stages. Each of
them changes one running operation, and nothing but what it shows.
*/
module OperationSteps {
  import opened Operations
  import opened Wrappers

  /** Only the operation at `j` changes, and it stays the same running operation. */
  ghost predicate OnlyAt(r: Registry, after: Registry, j: nat) {
    && j < |r.active| && |after.active| == |r.active| && after.recent == r.recent && after.nextId == r.nextId
    && Same(after.active[j], r.active[j]) && after.active[j].state == r.active[j].state
    && forall k :: 0 <= k < |r.active| && k != j ==> after.active[k] == r.active[k]
  }

  lemma FirstIs(records: seq<Record>, p: Record -> bool, j: nat)
    requires j < |records| && p(records[j]) && forall k :: 0 <= k < |records| && p(records[k]) ==> k == j
    ensures IndexOf(records, p) == j
  {
  }

  /**
   A control request that ends well leaves the registry as it is. One that
   fails shows its error on the operation it steered, at the stage of its
   lease; when that operation has ended meanwhile, nowhere.
   */
  lemma ControlEnds(r: Registry, lease: Lease, outcome: Outcome)
    requires Valid(r) && !lease.ownsCompletion
    ensures outcome.Done? ==> Finished(r, Some(lease), outcome) == r
    ensures (forall j :: 0 <= j < |r.active| ==> r.active[j].id != lease.id) ==> Finished(r, Some(lease), outcome) == r
    ensures outcome.Error? ==>
              forall j :: 0 <= j < |r.active| && r.active[j].id == lease.id ==>
                var after := Finished(r, Some(lease), outcome);
                && OnlyAt(r, after, j) && after.active[j].error == Some(outcome.code)
                && after.active[j].cancelable == lease.failureCancelable
                && after.active[j].stage == FailureStage(lease)
  {
    hide IndexOf, DomainsConflict;
    forall j | 0 <= j < |r.active| && r.active[j].id == lease.id
      ensures IndexOf(r.active, ById(lease.id)) == j
    {
      FirstIs(r.active, ById(lease.id), j);
    }
  }

  /** What a steered operation shows, and what its lease says about failing: no failure looks like a cancel. */
  lemma SteeredShows(r: Registry, client: string, request: Request, j: nat)
    requires Valid(r) && Controls(request).Some? && j < |r.active|
    requires r.active[j].domain == Controls(request).value.0 && r.active[j].kind == Controls(request).value.1
    ensures var (after, reply) := Begun(r, client, request);
            && OnlyAt(r, after, j) && (after.active[j].cancelable <==> request == SubmitKeyPin)
            && reply.Granted? && reply.lease.Some?
            && !Cancelling(FailureStage(reply.lease.value)) && reply.lease.value.failureCancelable
  {
    hide SpecOf, IndexOf, Controls, DomainsConflict;
    ControlSpec(request);
    var (domain, target, stage, alone) := Controls(request).value;
    OneOfDomain(r, j);
    FirstIs(r.active, Steered(domain, target), j);
  }

  /** No two active operations are of the same domain. */
  lemma OneOfDomain(r: Registry, j: nat)
    requires Valid(r) && j < |r.active|
    ensures forall k :: 0 <= k < |r.active| && r.active[k].domain == r.active[j].domain ==> k == j
  {
    hide DomainsConflict;
    forall k | 0 <= k < |r.active| && r.active[k].domain == r.active[j].domain
      ensures k == j
    {
      SameConflicts(r.active[j].domain);
    }
  }

  lemma SameConflicts(domain: Domain)
    ensures DomainsConflict(domain, domain)
  {
  }

  /**
   A reported stage with a usable name reaches the running operation it is
   meant for, with its cancelability if one is given. An unusable name, or a
   stage for an operation that does not run, changes nothing.
   */
  lemma StageReaches(r: Registry, which: Record -> bool, stage: Stage, cancelable: Option<bool>, j: nat)
    requires j < |r.active| && which(r.active[j])
    requires forall k :: 0 <= k < |r.active| && which(r.active[k]) ==> k == j
    ensures var after := StageUpdated(r, which, stage, cancelable);
            if stage.At? && (stage.name == "" || |stage.name| > 128) then after == r
            else
              && OnlyAt(r, after, j) && after.active[j].stage == stage && after.active[j].error == r.active[j].error
              && after.active[j].cancelable == match cancelable case Some(b) => b case None => r.active[j].cancelable
  {
    FirstIs(r.active, which, j);
  }

  lemma StageOfNone(r: Registry, which: Record -> bool, stage: Stage, cancelable: Option<bool>)
    requires forall k :: 0 <= k < |r.active| ==> !which(r.active[k])
    ensures StageUpdated(r, which, stage, cancelable) == r
  {
  }

  /** In every reachable registry the operation meant is one: by its domain, or as the first of its kind. */
  lemma DomainStageReaches(events: seq<Event>, domain: Domain, stage: Stage, cancelable: Option<bool>, j: nat)
    requires j < |Run(Registry(1, [], []), events).active| && Run(Registry(1, [], []), events).active[j].domain == domain
    ensures var r := Run(Registry(1, [], []), events);
            var after := StageUpdated(r, RunningIn(domain), stage, cancelable);
            stage.At? && 0 < |stage.name| <= 128 ==> OnlyAt(r, after, j) && after.active[j].stage == stage
  {
    hide Run, StageUpdated;
    var r := Run(Registry(1, [], []), events);
    assert Valid(Registry(1, [], []));
    RunsAreValid(Registry(1, [], []), events);
    OneOfDomain(r, j);
    StageReaches(r, RunningIn(domain), stage, cancelable, j);
  }
}

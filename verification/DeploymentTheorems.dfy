/** The promises of the deployment plan protocol, over every run from durable state: interleaved
    requests, retries, and crashes at any point. */
module DeploymentTheorems {
  import opened Options
  import opened RequestIdentity
  import opened DeploymentProtocol
  import opened DeploymentSafety

  // ---------- at most one job ----------

  /** The ledger never holds two jobs for one plan and destination, nor two for one request. */
  lemma AtMostOneJob(start: System, steps: seq<Step>, i: nat, j: nat)
    requires Started(start)
    requires i < j < |Run(start, steps).ledger|
    ensures var ledger := Run(start, steps).ledger; !Clash(ledger[i], ledger[j]) && ledger[i].requestId != ledger[j].requestId
  {
    StartedIsInv(start);
    RunKeepsInv(start, steps);
  }

  lemma StepKeepsLedger(s: System, step: Step)
    ensures s.ledger <= Do(s, step).ledger
  {}

  lemma {:induction false} RunKeepsLedger(s: System, steps: seq<Step>)
    ensures s.ledger <= Run(s, steps).ledger
    decreases |steps|
  {
    if steps != [] {
      StepKeepsLedger(s, steps[0]);
      RunKeepsLedger(Do(s, steps[0]), steps[1..]);
    }
  }

  // ---------- replays ----------

  lemma IndexFinds(ledger: seq<Job>, job: Job)
    requires LedgerOk(ledger) && job in ledger && job.deployment.Some?
    ensures IndexOfJob(ledger, job.requestId, job.deployment.value.planId) == Some(job)
    decreases |ledger|
  {}

  lemma SameSelectionOverlaps(a: seq<Id>, b: seq<Id>)
    requires SameSelection(a, b) && b != []
    ensures Overlaps(a, b)
  {
    assert b[0] in multiset(b) && b[0] in multiset(a);
    assert b[0] in a;
  }

  /** Repeating the request of a stored job, for the same destinations, in any later state in which the
      plan is free: the same job is returned just when the identity is written as it is stored; written
      with capitals or surrounding space it is refused. Either way no second job is checked in. */
  lemma ReplayReturnsSameJob(start: System, steps: seq<Step>, job: Job, request: Request)
    requires Started(start)
    requires job in Run(start, steps).ledger && job.deployment.Some?
    requires Canonical(request.requestId) == Some(job.requestId)
    requires multiset(job.deployment.value.targets) == multiset(request.targetIds)
    requires var s, planId := Run(start, steps), job.deployment.value.planId;
             planId !in s.busy && Lookup(s.plans, planId).Some? && SelectsFrom(View(Lookup(s.plans, planId).value), request.targetIds)
    ensures var answer := DeployAnswer(Run(start, steps), job.deployment.value.planId, request);
            if request.requestId == job.requestId then answer == Replayed(job) else answer == Refused
  {
    var s, planId := Run(start, steps), job.deployment.value.planId;
    StartedIsInv(start);
    RunKeepsInv(start, steps);
    IndexFinds(s.ledger, job);
    if request.requestId != job.requestId {
      assert IndexOfJob(s.ledger, request.requestId, planId).None?;
      SameSelectionOverlaps(job.deployment.value.targets, request.targetIds);
      assert Covers(job, planId, request.targetIds);
    }
  }

  /** So a replay does not always return its job: every stored identity has another spelling, which is refused. */
  lemma OtherSpellingIsRefused(start: System, steps: seq<Step>, job: Job, request: Request)
    requires Started(start)
    requires job in Run(start, steps).ledger && job.deployment.Some?
    requires request.requestId == " " + job.requestId
    requires multiset(job.deployment.value.targets) == multiset(request.targetIds)
    requires var s, planId := Run(start, steps), job.deployment.value.planId;
             planId !in s.busy && Lookup(s.plans, planId).Some? && SelectsFrom(View(Lookup(s.plans, planId).value), request.targetIds)
    ensures Canonical(request.requestId) == Some(job.requestId)
    ensures DeployAnswer(Run(start, steps), job.deployment.value.planId, request) == Refused
  {
    StartedIsInv(start);
    RunKeepsInv(start, steps);
    assert Canonical(job.requestId) == Some(job.requestId);
    assert request.requestId[1..] == job.requestId && IsSpace(request.requestId[0]);
    ReplayReturnsSameJob(start, steps, job, request);
  }

  /** The same request for other destinations, or more or fewer of them, is refused. */
  lemma OtherSelectionIsRefused(start: System, steps: seq<Step>, job: Job, request: Request)
    requires Started(start)
    requires job in Run(start, steps).ledger && job.deployment.Some? && request.requestId == job.requestId
    requires multiset(job.deployment.value.targets) != multiset(request.targetIds)
    ensures DeployAnswer(Run(start, steps), job.deployment.value.planId, request) == Refused
  {
    StartedIsInv(start);
    RunKeepsInv(start, steps);
    IndexFinds(Run(start, steps).ledger, job);
  }

  // ---------- what was dispatched had been approved ----------

  /** The dispatching step added this deployment for a request that had been checked. */
  ghost predicate Dispatches(s: System, step: Step, deployment: Deployment) {
    |Do(s, step).ledger| > |s.ledger| && Do(s, step).ledger[|s.ledger|].deployment == Some(deployment)
  }

  /** The stored plan was ready, at the caller's revision, for every destination of the deployment, and the
      deployment carries exactly the evidence that was stored and that was found again just now. */
  ghost predicate ApprovedEvidence(stored: Plan, inspected: Plan, request: Request, deployment: Deployment) {
    && stored.revision == request.revision
    && stored.evidenceVersion == EVIDENCE_VERSION
    && (stored.readinessRun.Some? ==> stored.readinessRun.value.status == Complete)
    && (stored.packaged ==> request.confirmed)
    && deployment.evidence == stored.evidence == inspected.evidence
    && (forall t :: t in deployment.targets <==>
          t in request.targetIds && exists i :: 0 <= i < |stored.destinations| && stored.destinations[i].targetId == t)
    && deployment.modelHashes.Keys == (set t | t in request.targetIds)
    && deployment.fingerprints.Keys == (if stored.packaged then set t | t in request.targetIds else {})
    && forall t :: t in request.targetIds ==>
         var was, now := FindTarget(stored.targets, t), FindTarget(inspected.targets, t);
         && was.Some? && was.value.status == Ready && was.value.deploymentJob.None?
         && now.Some? && now.value.status == Ready
         && was.value.modelHash == now.value.modelHash == Some(deployment.modelHashes[t])
         && (stored.packaged ==> was.value.fingerprint == now.value.fingerprint == Some(deployment.fingerprints[t]))
  }

  lemma {:induction false} FindMapped(targets: seq<Target>, f: Target -> Target, id: Id)
    requires forall t :: f(t).id == t.id
    ensures FindTarget(MapTargets(targets, f), id) ==
            match FindTarget(targets, id)
            case None => None
            case Some(t) => Some(f(t))
    decreases |targets|
  {
    if targets != [] {
      FindMapped(targets[1..], f, id);
      assert MapTargets(targets, f)[1..] == MapTargets(targets[1..], f);
    }
  }

  /** A plan with a ready destination is seen as it is stored. */
  lemma ReadyIsAsStored(stored: Plan, t: Id)
    requires FindTarget(View(stored).targets, t).Some? && FindTarget(View(stored).targets, t).value.status == Ready
    ensures View(stored) == stored && (stored.readinessRun.Some? ==> stored.readinessRun.value.status == Complete)
  {}

  lemma DispatchWasApproved(start: System, steps: seq<Step>, step: Step, deployment: Deployment)
    requires Started(start)
    requires Dispatches(Run(start, steps), step, deployment)
    ensures var s := Run(start, steps);
            && step.DeployInspected? && step.op in s.operations && s.operations[step.op].Deploying?
            && Lookup(s.plans, deployment.planId).Some?
            && ApprovedEvidence(Lookup(s.plans, deployment.planId).value, step.inspected, s.operations[step.op].request, deployment)
  {
    var s := Run(start, steps);
    StartedIsInv(start);
    RunKeepsInv(start, steps);
    OnlyDispatchAddsDeployment(s, step, deployment);
    DispatchIsApproved(s, step.op, step.inspected, step.newJobId, deployment);
  }

  lemma OnlyDispatchAddsDeployment(s: System, step: Step, deployment: Deployment)
    requires Dispatches(s, step, deployment)
    ensures step.DeployInspected? && step.op in s.operations && s.operations[step.op].Deploying?
  {}

  lemma DispatchIsApproved(s: System, op: nat, inspected: Plan, newJobId: Id, deployment: Deployment)
    requires Inv(s) && op in s.operations && s.operations[op].Deploying?
    requires Dispatches(s, DeployInspected(op, inspected, newJobId), deployment)
    ensures Lookup(s.plans, deployment.planId).Some?
    ensures ApprovedEvidence(Lookup(s.plans, deployment.planId).value, inspected, s.operations[op].request, deployment)
  {
    hide *;
    var Deploying(plan, request) := s.operations[op];
    DeployingIsStored(s, op);
    DispatchRecords(s, op, inspected, newJobId, deployment);
    RecordedAsApproved(plan, inspected, request);
  }

  /** The plan a deployment waits with is the stored one, and its request was approved. */
  lemma DeployingIsStored(s: System, op: nat)
    requires Inv(s) && op in s.operations && s.operations[op].Deploying?
    ensures var Deploying(plan, request) := s.operations[op];
            && Lookup(s.plans, plan.id) == Some(plan) && Approved(plan, request)
            && (plan.readinessRun.Some? ==> plan.readinessRun.value.status == Complete)
  {
    assert OperationOk(s.plans, s.ledger, s.operations[op]);
    hide Inv;
    var Deploying(plan, request) := s.operations[op];
    ReadyIsAsStored(Lookup(s.plans, plan.id).value, request.targetIds[0]);
  }

  lemma DispatchRecords(s: System, op: nat, inspected: Plan, newJobId: Id, deployment: Deployment)
    requires op in s.operations && s.operations[op].Deploying?
    requires Dispatches(s, DeployInspected(op, inspected, newJobId), deployment)
    ensures var Deploying(plan, request) := s.operations[op];
            && Unchanged(plan, inspected, request.targetIds) && Recordable(plan, inspected, request.targetIds)
            && deployment == Record(plan, inspected, request.targetIds) && deployment.planId == plan.id
  {
    hide Unchanged, Recordable, Canonical, Inspects, Withdraw, Assign, Save;
  }

  lemma RecordedAsApproved(plan: Plan, inspected: Plan, request: Request)
    requires Approved(plan, request) && (plan.readinessRun.Some? ==> plan.readinessRun.value.status == Complete)
    requires Unchanged(plan, inspected, request.targetIds) && Recordable(plan, inspected, request.targetIds)
    ensures ApprovedEvidence(plan, inspected, request, Record(plan, inspected, request.targetIds))
  {
    forall t
      ensures t in SelectedIds(plan.destinations, request.targetIds) <==>
              t in request.targetIds && exists i :: 0 <= i < |plan.destinations| && plan.destinations[i].targetId == t
    {
      SelectedExactly(plan.destinations, request.targetIds, t);
    }
    hide SelectedIds;
  }

  lemma {:induction false} SelectedExactly(destinations: seq<Destination>, targetIds: seq<Id>, t: Id)
    ensures t in SelectedIds(destinations, targetIds) <==>
            t in targetIds && exists i :: 0 <= i < |destinations| && destinations[i].targetId == t
  {
    if destinations != [] {
      SelectedExactly(destinations[1..], targetIds, t);
      assert forall i :: 0 < i < |destinations| ==> destinations[1..][i - 1] == destinations[i];
    }
  }
}

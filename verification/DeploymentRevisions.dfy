/** How stored plans change from step to step: saves are serial, revisions only go up, and a recheck
    revokes every earlier approval. */
module DeploymentRevisions {
  import opened Options
  import opened RequestIdentity
  import opened DeploymentProtocol
  import opened DeploymentSafety
  import opened DeploymentTheorems

  /** The plan that a step is about. */
  ghost function PlanOf(s: System, step: Step): Option<Id> {
    match step
    case CreateFinish(op, inspected, runId) => if op in s.operations && s.operations[op].Creating? then Some(s.operations[op].draft.id) else None
    case RecheckStart(_, planId, _) => Some(planId)
    case RecheckFinish(op, _) => if op in s.operations then Some(s.operations[op].Lock()) else None
    case RecheckFail(op) => if op in s.operations then Some(s.operations[op].Lock()) else None
    case Update(planId, _, _, _) => Some(planId)
    case Deploy(_, planId, _) => Some(planId)
    case DeployInspected(op, _, _) => if op in s.operations then Some(s.operations[op].Lock()) else None
    case DeploySavePlan(op) => if op in s.operations then Some(s.operations[op].Lock()) else None
    case TopicRepairFinish(op, _, _) => if op in s.operations then Some(s.operations[op].Lock()) else None
    case RepairLink(op, _, _) => if op in s.operations then Some(s.operations[op].Lock()) else None
    case LinkRepair(planId, _, _) => Some(planId)
    case _ => None
  }

  ghost predicate IsReady(plan: Plan, t: Id) {
    FindTarget(plan.targets, t).Some? && FindTarget(plan.targets, t).value.status == Ready
  }

  /** The hashes that the evidence of a destination is compared by. */
  function HashesOf(targets: seq<Target>, t: Id): Option<(Option<Hash>, Option<Hash>)> {
    var target := FindTarget(targets, t);
    if target.None? then None else Some((target.value.modelHash, target.value.fingerprint))
  }

  ghost predicate NewlyReady(was: Plan, now: Plan) {
    exists t :: IsReady(now, t) && !IsReady(was, t)
  }

  ghost predicate HashesDiffer(was: Plan, now: Plan) {
    exists t :: HashesOf(was.targets, t) != HashesOf(now.targets, t)
  }

  /** The next version of a plan: its revision never goes back, and goes up whenever its choices, its evidence or the
      hashes of a destination change or a destination becomes ready. */
  ghost predicate Advances(was: Plan, now: Plan) {
    && was.id == now.id && was.requestId == now.requestId
    && was.revision <= now.revision
    && (was.destinations != now.destinations || was.evidence != now.evidence || NewlyReady(was, now) || HashesDiffer(was, now)
        ==> was.revision < now.revision)
  }

  /** Every step leaves every plan but its own untouched, and advances its own. */
  ghost predicate StoreAdvances(s: System, t: System, own: Option<Id>) {
    forall id :: Lookup(s.plans, id).Some? ==>
      && Lookup(t.plans, id).Some?
      && (own != Some(id) ==> Lookup(t.plans, id) == Lookup(s.plans, id))
      && Advances(Lookup(s.plans, id).value, Lookup(t.plans, id).value)
  }

  lemma SavedAdvances(s: System, t: System, plan: Plan, own: Option<Id>)
    requires t.plans == s.plans || (Save(s.plans, plan).Some? && t.plans == Save(s.plans, plan).value && own == Some(plan.id))
    requires t.plans != s.plans && Lookup(s.plans, plan.id).Some? ==> Advances(Lookup(s.plans, plan.id).value, plan)
    ensures StoreAdvances(s, t, own)
  {
    forall id | Lookup(s.plans, id).Some?
      ensures Lookup(t.plans, id).Some? && (own != Some(id) ==> Lookup(t.plans, id) == Lookup(s.plans, id))
              && Advances(Lookup(s.plans, id).value, Lookup(t.plans, id).value)
    {
      if t.plans != s.plans {
        SaveAt(s.plans, plan, id);
      }
    }
  }

  /** Assigning jobs, or asking for rechecks, makes no destination ready and changes no hash. */
  lemma MappedStays(targets: seq<Target>, f: Target -> Target, t: Id)
    requires forall x :: f(x).id == x.id && (f(x).status == Ready ==> x.status == Ready)
    requires forall x :: f(x).modelHash == x.modelHash && f(x).fingerprint == x.fingerprint
    ensures var again := FindTarget(MapTargets(targets, f), t);
            again.Some? && again.value.status == Ready ==> FindTarget(targets, t).Some? && FindTarget(targets, t).value.status == Ready
    ensures HashesOf(MapTargets(targets, f), t) == HashesOf(targets, t)
  {
    FindMapped(targets, f, t);
    hide MapTargets;
  }

  /** A version with the same choices and evidence whose targets were only mapped in this way. */
  lemma MappedAdvances(was: Plan, now: Plan, f: Target -> Target)
    requires forall x :: f(x).id == x.id && (f(x).status == Ready ==> x.status == Ready)
    requires forall x :: f(x).modelHash == x.modelHash && f(x).fingerprint == x.fingerprint
    requires now.id == was.id && now.requestId == was.requestId && now.revision == was.revision
    requires now.destinations == was.destinations && now.evidence == was.evidence && now.targets == MapTargets(was.targets, f)
    ensures Advances(was, now)
  {
    hide MapTargets, FindTarget, HashesOf;
    forall t
      ensures IsReady(now, t) ==> IsReady(was, t)
      ensures HashesOf(was.targets, t) == HashesOf(now.targets, t)
    {
      MappedStays(was.targets, f, t);
    }
  }

  lemma StaysAdvances(was: Plan, now: Plan)
    requires now.id == was.id && now.requestId == was.requestId && now.revision == was.revision
    requires now.destinations == was.destinations && now.evidence == was.evidence && now.targets == was.targets
    ensures Advances(was, now)
  {}

  lemma AdvancesTwice(a: Plan, b: Plan, c: Plan)
    requires Advances(a, b) && Advances(b, c)
    ensures Advances(a, c)
  {
    hide HashesOf;
  }

  lemma ViewAdvances(stored: Plan)
    ensures Advances(stored, View(stored))
  {
    if View(stored) == stored {
      StaysAdvances(stored, stored);
    } else {
      MappedAdvances(stored, View(stored), (t: Target) => t.(status := NeedsRecheck));
    }
  }

  lemma AssignAdvances(stored: Plan, targetIds: seq<Id>, jobId: Id)
    ensures Advances(stored, Assign(View(stored), targetIds, jobId))
  {
    ViewAdvances(stored);
    var f := (x: Target) => if x.id in targetIds then x.(deploymentJob := Some(jobId)) else x;
    assert Assign(View(stored), targetIds, jobId).targets == MapTargets(View(stored).targets, f);
    hide View, MapTargets, Advances;
    MappedAdvances(View(stored), Assign(View(stored), targetIds, jobId), f);
    AdvancesTwice(stored, View(stored), Assign(View(stored), targetIds, jobId));
  }

  lemma OwnedStepAdvances(s: System, step: Step)
    requires Inv(s) && EndsOperation(step)
    ensures StoreAdvances(s, Do(s, step), PlanOf(s, step))
  {
    OwnedStepSaves(s, step);
    if SavedBy(s, step).Some? {
      var plan := SavedBy(s, step).value;
      assert OperationOk(s.plans, s.ledger, s.operations[step.op]);
      SavedAdvancesIt(s, step);
      assert Lookup(s.plans, plan.id).Some? ==> PlanOf(s, step) == Some(plan.id) by {
        SavedIsOwned(s, step);
      }
      hide Inv, OperationOk, StoreAdvances, Save, Advances, SavedBy, Do;
      if Lookup(s.plans, plan.id).Some? {
        SavedAdvances(s, Do(s, step), plan, PlanOf(s, step));
      } else {
        NewPlanAdvances(s, Do(s, step), plan, PlanOf(s, step));
      }
    } else {
      hide StoreAdvances, Advances, Do;
      UnchangedAdvances(s, Do(s, step), PlanOf(s, step));
    }
  }

  lemma NewPlanAdvances(s: System, t: System, plan: Plan, own: Option<Id>)
    requires Lookup(s.plans, plan.id).None?
    requires t.plans == s.plans || (Save(s.plans, plan).Some? && t.plans == Save(s.plans, plan).value)
    ensures StoreAdvances(s, t, own)
  {
    forall id | Lookup(s.plans, id).Some?
      ensures Lookup(t.plans, id) == Lookup(s.plans, id) && Advances(Lookup(s.plans, id).value, Lookup(s.plans, id).value)
    {
      StaysAdvances(Lookup(s.plans, id).value, Lookup(s.plans, id).value);
      if t.plans != s.plans {
        SaveAt(s.plans, plan, id);
      }
    }
  }

  lemma SavedAdvancesIt(s: System, step: Step)
    requires EndsOperation(step) && SavedBy(s, step).Some? && step.op in s.operations
    requires OperationOk(s.plans, s.ledger, s.operations[step.op])
    ensures var plan := SavedBy(s, step).value;
            Lookup(s.plans, plan.id).Some? ==> Advances(Lookup(s.plans, plan.id).value, plan)
  {
    var plan := SavedBy(s, step).value;
    hide Approved, Covers, HashesOf;
    if step.RecheckFail? {
      StaysAdvances(s.operations[step.op].pending, plan);
    }
  }

  lemma DeployInspectedAdvances(s: System, op: nat, inspected: Plan, newJobId: Id)
    requires Inv(s) && op in s.operations && s.operations[op].Deploying?
    ensures StoreAdvances(s, DoDeployInspected(s, op, inspected, newJobId), Some(s.operations[op].Lock()))
  {
    var Deploying(plan, request) := s.operations[op];
    assert OperationOk(s.plans, s.ledger, s.operations[op]);
    hide Inv, StoreAdvances, OperationOk, Save;
    SavedAdvances(s, DoDeployInspected(s, op, inspected, newJobId), Withdraw(inspected, request.targetIds), Some(plan.id));
  }

  lemma FreeStepAdvances(s: System, t: System, plan: Plan)
    requires t == s || t == SaveNow(s, plan) || (t.plans == s.plans)
    requires Lookup(s.plans, plan.id).Some? ==> Advances(Lookup(s.plans, plan.id).value, plan)
    ensures StoreAdvances(s, t, Some(plan.id))
  {
    SavedAdvances(s, t, plan, Some(plan.id));
  }

  lemma LinkAdvances(s: System, planId: Id, targetId: Id, jobId: Id)
    ensures StoreAdvances(s, DoLink(s, planId, targetId, jobId), Some(planId))
  {
    if Lookup(s.plans, planId).Some? {
      FreeStepAdvances(s, DoLink(s, planId, targetId, jobId), LinkedPlan(View(Lookup(s.plans, planId).value), targetId, jobId));
    }
  }

  lemma DeployAdvances(s: System, op: nat, planId: Id, request: Request)
    ensures StoreAdvances(s, DoDeploy(s, op, planId, request), Some(planId))
  {
    var answer := DeployAnswer(s, planId, request);
    if answer.Replayed? {
      AssignAdvances(Lookup(s.plans, planId).value, request.targetIds, answer.job.id);
      FreeStepAdvances(s, DoDeploy(s, op, planId, request), Assign(View(Lookup(s.plans, planId).value), request.targetIds, answer.job.id));
    }
  }

  lemma UpdateAdvances(s: System, planId: Id, revision: nat, targetId: Id, choices: Hash)
    ensures StoreAdvances(s, DoUpdate(s, planId, revision, targetId, choices), Some(planId))
  {
    if Lookup(s.plans, planId).Some? {
      var plan := View(Lookup(s.plans, planId).value);
      FreeStepAdvances(s, DoUpdate(s, planId, revision, targetId, choices),
        plan.(destinations := ReplaceChoices(plan.destinations, targetId, choices), revision := plan.revision + 1,
              targets := MapTargets(plan.targets, (t: Target) => if t.id == targetId then t.(status := NeedsRecheck) else t)));
    }
  }

  lemma RecheckStartAdvances(s: System, op: nat, planId: Id, runId: Id)
    ensures StoreAdvances(s, DoRecheckStart(s, op, planId, runId), Some(planId))
  {
    if Lookup(s.plans, planId).Some? && op !in s.operations && planId !in s.busy {
      var pending := PendingRecheck(Lookup(s.plans, planId).value, runId);
      SaveAt(s.plans, pending, planId);
      SavedAdvances(s, DoRecheckStart(s, op, planId, runId), pending, Some(planId));
    }
  }

  lemma UnchangedAdvances(s: System, t: System, own: Option<Id>)
    requires t.plans == s.plans
    ensures StoreAdvances(s, t, own)
  {}

  lemma CreateStartKeepsPlans(s: System, op: nat, requestId: string, newId: Id, destinations: seq<Destination>)
    ensures DoCreateStart(s, op, requestId, newId, destinations).plans == s.plans
  {}

  lemma TopicRepairStartKeepsPlans(s: System, op: nat, planId: Id, revision: nat, targetId: Id)
    ensures DoTopicRepairStart(s, op, planId, revision, targetId).plans == s.plans
  {}

  lemma FinishKeepsPlans(s: System, op: nat)
    requires op in s.operations
    ensures Finish(s, op).plans == s.plans
  {}

  lemma StepAdvances(s: System, step: Step)
    requires Inv(s)
    ensures StoreAdvances(s, Do(s, step), PlanOf(s, step))
  {
    hide Inv, StoreAdvances, DoRecheckStart, DoUpdate, DoDeploy, DoDeployInspected, DoLink, SaveAndFinish, Finish;
    var t := Do(s, step);
    if t.plans == s.plans {
      UnchangedAdvances(s, t, PlanOf(s, step));
    } else {
      match step
      case RecheckStart(op, planId, runId) => RecheckStartAdvances(s, op, planId, runId);
      case Update(planId, revision, targetId, choices) => UpdateAdvances(s, planId, revision, targetId, choices);
      case Deploy(op, planId, request) => DeployAdvances(s, op, planId, request);
      case DeployInspected(op, inspected, newJobId) => DeployInspectedAdvances(s, op, inspected, newJobId);
      case RepairLink(op, targetId, jobId) => LinkAdvances(s, s.operations[op].planId, targetId, jobId);
      case LinkRepair(planId, targetId, jobId) => LinkAdvances(s, planId, targetId, jobId);
      case CreateFinish(op, _, _) => OwnedStepAdvances(s, step);
      case CreateStart(op, requestId, newId, destinations) => CreateStartKeepsPlans(s, op, requestId, newId, destinations);
      case TopicRepairStart(op, planId, revision, targetId) => TopicRepairStartKeepsPlans(s, op, planId, revision, targetId);
      case Abandon(op) => FinishKeepsPlans(s, op);
      case RecheckFinish(op, _) => OwnedStepAdvances(s, step);
      case RecheckFail(op) => OwnedStepAdvances(s, step);
      case DeploySavePlan(op) => OwnedStepAdvances(s, step);
      case TopicRepairFinish(op, _, _) => OwnedStepAdvances(s, step);
      case _ =>
    }
  }

  lemma {:induction false} RunAdvances(s: System, steps: seq<Step>, id: Id)
    requires Inv(s) && Lookup(s.plans, id).Some?
    ensures Lookup(Run(s, steps).plans, id).Some?
    ensures Lookup(s.plans, id).value.revision <= Lookup(Run(s, steps).plans, id).value.revision
    decreases |steps|
  {
    if steps != [] {
      StepKeepsInv(s, steps[0]);
      StepAdvances(s, steps[0]);
      RunAdvances(Do(s, steps[0]), steps[1..], id);
    }
  }

  /** Once a recheck of a plan has begun, no request approved at that revision or before is ever
      dispatched, whatever happens in between, including a crash during the recheck. */
  lemma RecheckRevokes(start: System, before: seq<Step>, recheck: Step, after: seq<Step>, step: Step, deployment: Deployment)
    requires Started(start) && recheck.RecheckStart?
    requires var s := Run(start, before); Do(s, recheck).plans != s.plans
    requires Dispatches(Run(Do(Run(start, before), recheck), after), step, deployment) && deployment.planId == recheck.planId
    ensures var s, last := Run(start, before), Run(Do(Run(start, before), recheck), after);
            && Lookup(s.plans, recheck.planId).Some?
            && step.DeployInspected? && step.op in last.operations && last.operations[step.op].Deploying?
            && last.operations[step.op].request.revision > Lookup(s.plans, recheck.planId).value.revision
  {
    var s := Run(start, before);
    StartedIsInv(start);
    RunKeepsInv(start, before);
    StepKeepsInv(s, recheck);
    var next := Do(s, recheck);
    RunKeepsInv(next, after);
    RecheckRaises(s, recheck);
    RunAdvances(next, after, recheck.planId);
    var last := Run(next, after);
    OnlyDispatchAddsDeployment(last, step, deployment);
    DispatchIsApproved(last, step.op, step.inspected, step.newJobId, deployment);
  }

  lemma RecheckRaises(s: System, recheck: Step)
    requires recheck.RecheckStart? && Do(s, recheck).plans != s.plans
    ensures Lookup(s.plans, recheck.planId).Some? && Lookup(Do(s, recheck).plans, recheck.planId).Some?
    ensures Lookup(Do(s, recheck).plans, recheck.planId).value.revision == Lookup(s.plans, recheck.planId).value.revision + 1
  {
    var pending := PendingRecheck(Lookup(s.plans, recheck.planId).value, recheck.runId);
    SaveAt(s.plans, pending, recheck.planId);
  }

  /** While an operation waits, the version it remembers is the one stored: its save comes next. */
  lemma WaitingOperationsAreCurrent(start: System, steps: seq<Step>, op: nat)
    requires Started(start) && op in Run(start, steps).operations
    ensures var s := Run(start, steps);
            match s.operations[op]
            case Creating(draft) => Lookup(s.plans, draft.id).None?
            case Rechecking(pending) => Lookup(s.plans, pending.id) == Some(pending)
            case Deploying(plan, _) => Current(s.plans, plan)
            case Saving(job, refreshed, _) =>
              job in s.ledger && Lookup(s.plans, refreshed.id).Some? && Lookup(s.plans, refreshed.id).value.revision + 1 == refreshed.revision
            case TopicRepairing(plan, _) => Current(s.plans, plan)
            case RepairSubmitting(planId) => Lookup(s.plans, planId).Some?
    ensures var s := Run(start, steps);
            s.operations[op].Lock() in s.busy
            && forall o :: o in s.operations && o != op ==> s.operations[o].Lock() != s.operations[op].Lock()
  {
    StartedIsInv(start);
    RunKeepsInv(start, steps);
    var s := Run(start, steps);
    assert OperationOk(s.plans, s.ledger, s.operations[op]);
  }
}

/** Over every run: choices that were updated are not deployed before an inspection has seen them. */
module DeploymentChoices {
  import opened Options
  import opened DeploymentProtocol
  import opened DeploymentSafety
  import opened DeploymentTheorems
  import opened DeploymentRevisions
  import opened DeploymentEffects

  /** From one state to another every plan is kept, and none gains a ready destination. */
  ghost predicate NoneBecomesReady(s: System, t: System) {
    forall id :: Lookup(s.plans, id).Some? ==>
      Lookup(t.plans, id).Some? && !NewlyReady(Lookup(s.plans, id).value, Lookup(t.plans, id).value)
  }

  lemma MappedNotReady(was: Plan, now: Plan, f: Target -> Target)
    requires forall x :: f(x).id == x.id && (f(x).status == Ready ==> x.status == Ready)
    requires now.targets == MapTargets(was.targets, f)
    ensures !NewlyReady(was, now)
  {
    hide MapTargets, FindTarget;
    forall t | IsReady(now, t)
      ensures IsReady(was, t)
    {
      FindMapped(was.targets, f, t);
    }
  }

  lemma SameNotReady(was: Plan, now: Plan)
    requires now.targets == was.targets
    ensures !NewlyReady(was, now)
  {}

  lemma ViewNotReady(stored: Plan)
    ensures !NewlyReady(stored, View(stored))
  {
    if View(stored) == stored {
      SameNotReady(stored, stored);
    } else {
      MappedNotReady(stored, View(stored), (t: Target) => t.(status := NeedsRecheck));
    }
  }

  /** What is made of a plan as it is shown. */
  lemma ShownNotReady(stored: Plan, now: Plan, f: Target -> Target)
    requires forall x :: f(x).id == x.id && (f(x).status == Ready ==> x.status == Ready)
    requires now.targets == MapTargets(View(stored).targets, f)
    ensures !NewlyReady(stored, now)
  {
    hide View, MapTargets, IsReady;
    ViewNotReady(stored);
    MappedNotReady(View(stored), now, f);
  }

  lemma SaveMakesNoneReady(s: System, t: System, plan: Plan)
    requires t.plans == s.plans || (Save(s.plans, plan).Some? && t.plans == Save(s.plans, plan).value)
    requires Lookup(s.plans, plan.id).Some? ==> !NewlyReady(Lookup(s.plans, plan.id).value, plan)
    ensures NoneBecomesReady(s, t)
  {
    hide IsReady, Save;
    forall id | Lookup(s.plans, id).Some?
      ensures Lookup(t.plans, id).Some? && !NewlyReady(Lookup(s.plans, id).value, Lookup(t.plans, id).value)
    {
      SameNotReady(Lookup(s.plans, id).value, Lookup(s.plans, id).value);
      SaveAt(s.plans, plan, id);
    }
  }

  lemma SamePlansNoneReady(s: System, t: System)
    requires t.plans == s.plans
    ensures NoneBecomesReady(s, t)
  {
    hide IsReady;
    forall id | Lookup(s.plans, id).Some?
      ensures !NewlyReady(Lookup(s.plans, id).value, Lookup(s.plans, id).value)
    {
      SameNotReady(Lookup(s.plans, id).value, Lookup(s.plans, id).value);
    }
  }

  /** These steps store what an inspection has found. */
  predicate StoresInspection(step: Step) {
    step.RecheckFinish? || step.DeployInspected? || step.DeploySavePlan?
  }

  lemma UpdateMakesNoneReady(s: System, planId: Id, revision: nat, targetId: Id, choices: Hash)
    ensures NoneBecomesReady(s, Do(s, Update(planId, revision, targetId, choices)))
  {
    hide Do, NoneBecomesReady, View, IsReady, SaveNow;
    UpdateIsTaken(s, planId, revision, targetId, choices);
    if TakesUpdate(s, planId, revision, targetId, choices) {
      var stored := Lookup(s.plans, planId).value;
      var plan := UpdatedPlan(View(stored), targetId, choices);
      ShownNotReady(stored, plan, (t: Target) => if t.id == targetId then t.(status := NeedsRecheck) else t);
      ViewKeepsId(stored);
      SaveNowMakesNoneReady(s, plan);
    } else {
      SamePlansNoneReady(s, s);
    }
  }

  lemma SaveNowMakesNoneReady(s: System, plan: Plan)
    requires Lookup(s.plans, plan.id).Some? ==> !NewlyReady(Lookup(s.plans, plan.id).value, plan)
    ensures NoneBecomesReady(s, SaveNow(s, plan))
  {
    hide NoneBecomesReady, IsReady, Save;
    SaveMakesNoneReady(s, SaveNow(s, plan), plan);
  }

  lemma LinkMakesNoneReady(s: System, planId: Id, targetId: Id, jobId: Id)
    ensures NoneBecomesReady(s, DoLink(s, planId, targetId, jobId))
  {
    hide NoneBecomesReady, View, IsReady, SaveNow, FindTarget;
    if DoLink(s, planId, targetId, jobId) == s {
      SamePlansNoneReady(s, s);
    } else {
      var stored := Lookup(s.plans, planId).value;
      var plan := LinkedPlan(View(stored), targetId, jobId);
      ShownNotReady(stored, plan, (t: Target) => if t.id == targetId then t.(repairJob := Some(jobId), status := NeedsRecheck) else t);
      ViewKeepsId(stored);
      SaveNowMakesNoneReady(s, plan);
    }
  }

  lemma DeployMakesNoneReady(s: System, op: nat, planId: Id, request: Request)
    ensures NoneBecomesReady(s, DoDeploy(s, op, planId, request))
  {
    hide NoneBecomesReady, View, IsReady, SaveNow, DeployAnswer;
    var answer := DeployAnswer(s, planId, request);
    if answer.Replayed? && Lookup(s.plans, planId).Some? {
      var stored := Lookup(s.plans, planId).value;
      var plan := Assign(View(stored), request.targetIds, answer.job.id);
      ShownNotReady(stored, plan, (t: Target) => if t.id in request.targetIds then t.(deploymentJob := Some(answer.job.id)) else t);
      ViewKeepsId(stored);
      SaveNowMakesNoneReady(s, plan);
    } else if answer.Replayed? {
      ReplayIsStored(s, planId, request);
    } else {
      SamePlansNoneReady(s, DoDeploy(s, op, planId, request));
    }
  }

  lemma ReplayIsStored(s: System, planId: Id, request: Request)
    requires DeployAnswer(s, planId, request).Replayed?
    ensures Lookup(s.plans, planId).Some?
  {}

  lemma RecheckStartMakesNoneReady(s: System, op: nat, planId: Id, runId: Id)
    ensures NoneBecomesReady(s, DoRecheckStart(s, op, planId, runId))
  {
    hide NoneBecomesReady, View, IsReady, Save;
    if TakesRecheck(s, op, planId) {
      var stored := Lookup(s.plans, planId).value;
      var plan := PendingRecheck(stored, runId);
      ShownNotReady(stored, plan, (t: Target) => t.(status := NeedsRecheck));
      ViewKeepsId(stored);
      SaveMakesNoneReady(s, DoRecheckStart(s, op, planId, runId), plan);
    } else {
      SamePlansNoneReady(s, s);
    }
  }

  lemma OwnedMakesNoneReady(s: System, step: Step)
    requires Inv(s) && EndsOperation(step) && !StoresInspection(step)
    ensures NoneBecomesReady(s, Do(s, step))
  {
    OwnedStepSaves(s, step);
    if SavedBy(s, step).Some? {
      var plan := SavedBy(s, step).value;
      OwnedPlanNotReady(s, step);
      hide Inv, SavedBy, Do, NoneBecomesReady, IsReady, Save;
      SaveMakesNoneReady(s, Do(s, step), plan);
    } else {
      hide Inv, SavedBy, Do, NoneBecomesReady;
      SamePlansNoneReady(s, Do(s, step));
    }
  }

  lemma OwnedPlanNotReady(s: System, step: Step)
    requires Inv(s) && EndsOperation(step) && !StoresInspection(step) && SavedBy(s, step).Some?
    ensures var plan := SavedBy(s, step).value;
            Lookup(s.plans, plan.id).Some? ==> !NewlyReady(Lookup(s.plans, plan.id).value, plan)
  {
    var plan := SavedBy(s, step).value;
    assert OperationOk(s.plans, s.ledger, s.operations[step.op]);
    hide Inv, View, NewlyReady, FindTarget, Approved;
    if step.RecheckFail? {
      SameNotReady(s.operations[step.op].pending, plan);
    } else if step.TopicRepairFinish? {
      var TopicRepairing(shown, targetId) := s.operations[step.op];
      ShownNotReady(Lookup(s.plans, shown.id).value, plan,
                    (t: Target) => if t.id == targetId then t.(repairJob := Some(step.jobId), status := NeedsRecheck) else t);
    }
  }

  /** A destination becomes ready only when an inspection is stored. */
  lemma OnlyInspectionMakesReady(s: System, step: Step)
    requires Inv(s) && !StoresInspection(step)
    ensures NoneBecomesReady(s, Do(s, step))
  {
    hide Inv, NoneBecomesReady, DoRecheckStart, DoUpdate, DoDeploy, DoLink, SaveAndFinish, Finish, Inspects, StillPending, WithRunStatus,
         LinkedPlan, ReplaceChoices;
    if EndsOperation(step) {
      OwnedMakesNoneReady(s, step);
    } else if step.RecheckStart? {
      RecheckStartMakesNoneReady(s, step.op, step.planId, step.runId);
    } else if step.Update? {
      UpdateMakesNoneReady(s, step.planId, step.revision, step.targetId, step.choices);
    } else if step.Deploy? {
      DeployMakesNoneReady(s, step.op, step.planId, step.request);
    } else if step.RepairLink? && Do(s, step) != s {
      LinkMakesNoneReady(s, s.operations[step.op].planId, step.targetId, step.jobId);
    } else if step.LinkRepair? && Do(s, step) != s {
      LinkMakesNoneReady(s, step.planId, step.targetId, step.jobId);
    } else {
      OthersKeepPlans(s, step);
      SamePlansNoneReady(s, Do(s, step));
    }
  }

  lemma OthersKeepPlans(s: System, step: Step)
    requires !StoresInspection(step) && !EndsOperation(step) && !step.RecheckStart? && !step.Update? && !step.Deploy?
    requires step.RepairLink? || step.LinkRepair? ==> Do(s, step) == s
    ensures Do(s, step).plans == s.plans
  {
    hide DoLink;
  }

  // ---------- over runs ----------

  ghost predicate ReadyIn(s: System, planId: Id, t: Id) {
    Lookup(s.plans, planId).Some? && IsReady(Lookup(s.plans, planId).value, t)
  }

  /** This step stores an inspection that found the destination ready. */
  ghost predicate FindsReady(s: System, step: Step, planId: Id, t: Id) {
    StoresInspection(step) && !ReadyIn(s, planId, t) && ReadyIn(Do(s, step), planId, t)
  }

  lemma {:induction false} ReadyWasFound(s: System, steps: seq<Step>, planId: Id, t: Id) returns (k: nat)
    requires Inv(s) && Lookup(s.plans, planId).Some? && !ReadyIn(s, planId, t) && ReadyIn(Run(s, steps), planId, t)
    ensures k < |steps| && FindsReady(Run(s, steps[..k]), steps[k], planId, t)
    decreases |steps|
  {
    hide Inv, Do, IsReady;
    assert steps != [];
    var next := Do(s, steps[0]);
    StepKeepsInv(s, steps[0]);
    PlanStays(s, steps[0], planId);
    assert steps[..0] == [] && Run(s, steps[..0]) == s;
    if ReadyIn(next, planId, t) {
      k := 0;
      if !StoresInspection(steps[0]) {
        OnlyInspectionMakesReady(s, steps[0]);
      }
    } else {
      var j := ReadyWasFound(next, steps[1..], planId, t);
      k := j + 1;
      assert steps[..k][0] == steps[0] && steps[..k][1..] == steps[1..][..j];
    }
  }

  lemma PlanStays(s: System, step: Step, planId: Id)
    requires Inv(s) && Lookup(s.plans, planId).Some?
    ensures Lookup(Do(s, step).plans, planId).Some?
  {
    hide Inv, Do, Advances;
    StepAdvances(s, step);
  }

  /** While a plan is updated no operation on it waits: whatever ends later began after the update. */
  lemma UpdateIsAlone(start: System, before: seq<Step>, update: Step)
    requires Started(start) && update.Update? && Do(Run(start, before), update) != Run(start, before)
    ensures var s := Run(start, before); forall op :: op in s.operations ==> s.operations[op].Lock() != update.planId
  {
    var s := Run(start, before);
    hide Do, Run;
    StartedIsInv(start);
    RunKeepsInv(start, before);
    UpdateIsTaken(s, update.planId, update.revision, update.targetId, update.choices);
    hide SaveNow, UpdatedPlan, View, TargetsBecome, OperationOk, UniqueIds, OneRequestEach, LedgerOk, Drafts;
  }

  lemma UpdatedIsNotReady(s: System, update: Step)
    requires update.Update? && Do(s, update) != s
    ensures Lookup(Do(s, update).plans, update.planId).Some? && !ReadyIn(Do(s, update), update.planId, update.targetId)
  {
    hide Do, View;
    UpdateEffect(s, update.planId, update.revision, update.targetId, update.choices);
    var was, now := View(Lookup(s.plans, update.planId).value), Lookup(Do(s, update).plans, update.planId).value;
    var found := FindTarget(now.targets, update.targetId);
    if found.Some? {
      var i :| 0 <= i < |now.targets| && now.targets[i] == found.value;
      assert was.targets[i].id == update.targetId;
    }
  }

  /** No destination is dispatched whose choices were updated, unless an inspection stored since then found it ready. */
  lemma UpdatedIsInspectedAgain(start: System, before: seq<Step>, update: Step, after: seq<Step>, step: Step, deployment: Deployment)
    returns (k: nat)
    requires Started(start) && update.Update? && Do(Run(start, before), update) != Run(start, before)
    requires Dispatches(Run(Do(Run(start, before), update), after), step, deployment)
    requires deployment.planId == update.planId && update.targetId in deployment.targets
    ensures k < |after|
    ensures FindsReady(Run(Do(Run(start, before), update), after[..k]), after[k], update.planId, update.targetId)
  {
    hide Do, Run, Inv, ReadyIn, FindsReady, ApprovedEvidence, Dispatches;
    var s := Run(start, before);
    var next := Do(s, update);
    StartedIsInv(start);
    RunKeepsInv(start, before);
    StepKeepsInv(s, update);
    RunKeepsInv(next, after);
    UpdatedIsNotReady(s, update);
    DispatchedIsReady(Run(next, after), step, deployment, update.targetId);
    k := ReadyWasFound(next, after, update.planId, update.targetId);
  }

  lemma DispatchedIsReady(s: System, step: Step, deployment: Deployment, t: Id)
    requires Inv(s) && Dispatches(s, step, deployment) && t in deployment.targets
    ensures ReadyIn(s, deployment.planId, t)
  {
    hide Do, Run, Inv, Dispatches;
    OnlyDispatchAddsDeployment(s, step, deployment);
    DispatchIsApproved(s, step.op, step.inspected, step.newJobId, deployment);
  }
}

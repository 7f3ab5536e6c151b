/** What each step leaves in the stored plan, target by target, and what that means for the choices of a destination. */
module DeploymentEffects {
  import opened Options
  import opened RequestIdentity
  import opened DeploymentProtocol
  import opened DeploymentSafety
  import opened DeploymentTheorems
  import opened DeploymentRevisions

  /** Target by target, `now` is `was` with these few fields changed where the id is among these. */
  ghost predicate TargetsBecome(was: seq<Target>, now: seq<Target>, becomes: (Target, Target) -> bool) {
    |now| == |was| && forall i :: 0 <= i < |was| ==> becomes(was[i], now[i])
  }

  /** Nothing is said of the plan but of its revision, destinations and targets. */
  predicate SameBesides(was: Plan, now: Plan) {
    now == was.(revision := now.revision, destinations := now.destinations, targets := now.targets)
  }

  // ---------- what readers see ----------

  /** Readers see every target as it is stored, or every target in need of a recheck: that exactly for a run that has not
      completed or evidence of another version. */
  lemma ShownTargets(stored: Plan)
    ensures SameBesides(stored, View(stored)) && View(stored).destinations == stored.destinations && View(stored).revision == stored.revision
    ensures if (stored.readinessRun.Some? && stored.readinessRun.value.status != Complete) || stored.evidenceVersion != 6
            then TargetsBecome(stored.targets, View(stored).targets, (a: Target, b: Target) => b == a.(status := NeedsRecheck))
            else View(stored).targets == stored.targets
  {}

  // ---------- an update of choices ----------

  /** An update is taken exactly for the revision shown, for a destination without any job, and when the choices differ. */
  ghost predicate TakesUpdate(s: System, planId: Id, revision: nat, targetId: Id, choices: Hash) {
    && Lookup(s.plans, planId).Some? && planId !in s.busy
    && var plan := View(Lookup(s.plans, planId).value);
       && plan.revision == revision
       && FindTarget(plan.targets, targetId).Some?
       && FindTarget(plan.targets, targetId).value.deploymentJob.None? && FindTarget(plan.targets, targetId).value.repairJob.None?
       && (forall j :: j in s.ledger && j.deployment.Some? && j.deployment.value.planId == planId ==> targetId !in j.deployment.value.targets)
       && exists i :: 0 <= i < |plan.destinations| && plan.destinations[i].targetId == targetId && plan.destinations[i].choices != choices
  }

  lemma {:induction false} DestinationFound(destinations: seq<Destination>, id: Id)
    ensures FindDestination(destinations, id).Some? <==> exists i :: 0 <= i < |destinations| && destinations[i].targetId == id
  {
    if destinations != [] && destinations[0].targetId != id {
      DestinationFound(destinations[1..], id);
      assert forall i :: 0 < i < |destinations| ==> destinations[1..][i - 1] == destinations[i];
    }
  }

  lemma CoversOne(j: Job, planId: Id, targetId: Id)
    ensures Covers(j, planId, [targetId])
            <==> j.deployment.Some? && j.deployment.value.planId == planId && targetId in j.deployment.value.targets
  {
    assert targetId in [targetId];
  }

  lemma SavedIsFound(s: System, plan: Plan)
    requires Lookup(s.plans, plan.id).Some?
    ensures Lookup(SaveNow(s, plan).plans, plan.id) == Some(plan)
    ensures SaveNow(s, plan).ledger == s.ledger && SaveNow(s, plan).operations == s.operations && SaveNow(s, plan).busy == s.busy
    ensures forall id :: id != plan.id ==> Lookup(SaveNow(s, plan).plans, id) == Lookup(s.plans, id)
  {
    hide Save;
    forall id
      ensures Lookup(SaveNow(s, plan).plans, id) == if id == plan.id then Some(plan) else Lookup(s.plans, id)
    {
      SaveAt(s.plans, plan, id);
    }
  }

  ghost function UpdatedPlan(plan: Plan, targetId: Id, choices: Hash): Plan {
    plan.(destinations := ReplaceChoices(plan.destinations, targetId, choices), revision := plan.revision + 1,
          targets := MapTargets(plan.targets, (t: Target) => if t.id == targetId then t.(status := NeedsRecheck) else t))
  }

  lemma UpdateIsTaken(s: System, planId: Id, revision: nat, targetId: Id, choices: Hash)
    ensures Do(s, Update(planId, revision, targetId, choices))
            == if TakesUpdate(s, planId, revision, targetId, choices)
               then SaveNow(s, UpdatedPlan(View(Lookup(s.plans, planId).value), targetId, choices)) else s
  {
    hide FindDestination, ReplaceChoices, Covers, View, SaveNow, FindTarget;
    if Lookup(s.plans, planId).Some? {
      var plan := View(Lookup(s.plans, planId).value);
      DestinationFound(plan.destinations, targetId);
      forall j | j in s.ledger
        ensures Covers(j, planId, [targetId]) <==> j.deployment.Some? && j.deployment.value.planId == planId && targetId in j.deployment.value.targets
      {
        CoversOne(j, planId, targetId);
      }
      ReplacedDiffers(plan.destinations, targetId, choices);
    }
  }

  /** The plan after an update of one destination. */
  ghost predicate ChoicesUpdated(was: Plan, now: Plan, targetId: Id, choices: Hash) {
    && SameBesides(was, now) && now.revision == was.revision + 1
    && |now.destinations| == |was.destinations|
    && (forall i :: 0 <= i < |was.destinations| ==>
          now.destinations[i] == if was.destinations[i].targetId == targetId then Destination(targetId, choices) else was.destinations[i])
    && TargetsBecome(was.targets, now.targets,
                     (a: Target, b: Target) => b == if a.id == targetId then a.(status := NeedsRecheck) else a)
  }

  lemma UpdatedPlanIs(plan: Plan, targetId: Id, choices: Hash)
    ensures ChoicesUpdated(plan, UpdatedPlan(plan, targetId, choices), targetId, choices)
  {
    ReplacedDiffers(plan.destinations, targetId, choices);
  }

  /** Only this plan was stored anew. */
  ghost predicate StoresOnly(s: System, t: System, planId: Id) {
    && t == s.(plans := t.plans) && Lookup(t.plans, planId).Some?
    && forall id :: id != planId ==> Lookup(t.plans, id) == Lookup(s.plans, id)
  }

  /** An update that is taken gives the destination the choices and the need of a recheck, raises the revision, and leaves
      every other destination and target as it was shown; one that is not taken changes nothing. */
  lemma UpdateEffect(s: System, planId: Id, revision: nat, targetId: Id, choices: Hash)
    ensures var t := Do(s, Update(planId, revision, targetId, choices));
            if !TakesUpdate(s, planId, revision, targetId, choices) then t == s
            else StoresOnly(s, t, planId)
                 && ChoicesUpdated(View(Lookup(s.plans, planId).value), Lookup(t.plans, planId).value, targetId, choices)
  {
    hide Do, View, UpdatedPlan, ChoicesUpdated, SaveNow;
    UpdateIsTaken(s, planId, revision, targetId, choices);
    if TakesUpdate(s, planId, revision, targetId, choices) {
      var plan := View(Lookup(s.plans, planId).value);
      UpdatedPlanIs(plan, targetId, choices);
      ViewKeepsId(Lookup(s.plans, planId).value);
      UpdatedKeepsId(plan, targetId, choices);
      SavedIsFound(s, UpdatedPlan(plan, targetId, choices));
    }
  }

  lemma UpdatedKeepsId(plan: Plan, targetId: Id, choices: Hash)
    ensures UpdatedPlan(plan, targetId, choices).id == plan.id
  {}

  lemma ViewKeepsId(plan: Plan)
    ensures View(plan).id == plan.id
  {}

  lemma ReplacedDiffers(destinations: seq<Destination>, targetId: Id, choices: Hash)
    ensures var r := ReplaceChoices(destinations, targetId, choices);
            && |r| == |destinations|
            && (forall i :: 0 <= i < |r| ==> r[i] == if destinations[i].targetId == targetId then Destination(targetId, choices) else destinations[i])
            && (r != destinations <==> exists i :: 0 <= i < |destinations| && destinations[i].targetId == targetId && destinations[i].choices != choices)
  {
    var r := ReplaceChoices(destinations, targetId, choices);
    if r != destinations {
      var i :| 0 <= i < |destinations| && r[i] != destinations[i];
    }
  }

  // ---------- rechecks ----------

  ghost predicate TakesRecheck(s: System, op: nat, planId: Id) {
    Lookup(s.plans, planId).Some? && op !in s.operations && planId !in s.busy
  }

  /** Every destination is in need of a recheck, in a new revision, and a run has begun. */
  ghost predicate RecheckBegun(was: Plan, now: Plan, runId: Id) {
    && now == was.(revision := was.revision + 1, targets := now.targets, readinessRun := Some(ReadinessRun(runId, Running)))
    && TargetsBecome(was.targets, now.targets, (a: Target, b: Target) => b == a.(status := NeedsRecheck))
  }

  lemma PendingIsBegun(stored: Plan, runId: Id)
    ensures RecheckBegun(stored, PendingRecheck(stored, runId), runId)
  {}

  /** A recheck that is taken stores that at once, and holds the plan. */
  lemma RecheckStartEffect(s: System, op: nat, planId: Id, runId: Id)
    ensures var t := Do(s, RecheckStart(op, planId, runId));
            if !TakesRecheck(s, op, planId) then t == s
            else
              && Lookup(t.plans, planId).Some? && RecheckBegun(Lookup(s.plans, planId).value, Lookup(t.plans, planId).value, runId)
              && (forall id :: id != planId ==> Lookup(t.plans, id) == Lookup(s.plans, id))
              && t == System(t.plans, s.ledger, s.busy + {planId}, s.operations[op := Rechecking(Lookup(t.plans, planId).value)])
  {
    hide SaveNow, PendingRecheck, RecheckBegun;
    if TakesRecheck(s, op, planId) {
      var stored := Lookup(s.plans, planId).value;
      PendingIsBegun(stored, runId);
      BegunKeepsId(stored, PendingRecheck(stored, runId), runId);
      SavedIsFound(s, PendingRecheck(stored, runId));
    }
  }

  lemma BegunKeepsId(was: Plan, now: Plan, runId: Id)
    requires RecheckBegun(was, now, runId)
    ensures now.id == was.id
  {}

  /** The operation is over and its lock is free; otherwise only this plan was stored anew. */
  ghost predicate EndsWith(s: System, t: System, op: nat, plan: Plan)
    requires op in s.operations
  {
    && Lookup(t.plans, plan.id) == Some(plan)
    && (forall id :: id != plan.id ==> Lookup(t.plans, id) == Lookup(s.plans, id))
    && t == System(t.plans, s.ledger, s.busy - {s.operations[op].Lock()}, s.operations - {op})
  }

  lemma SavesAndEnds(s: System, op: nat, plan: Plan)
    requires op in s.operations && Lookup(s.plans, plan.id).Some?
    ensures EndsWith(s, SaveAndFinish(s, op, plan), op, plan)
  {
    hide Save;
    forall id
      ensures Lookup(SaveAndFinish(s, op, plan).plans, id) == if id == plan.id then Some(plan) else Lookup(s.plans, id)
    {
      SaveAt(s.plans, plan, id);
    }
  }

  /** In every run, what a recheck found is stored as it was found, with its run completed; a recheck that fails leaves the
      plan as the recheck began it, with its run stopped. */
  lemma RecheckEndEffect(start: System, steps: seq<Step>, op: nat, inspected: Plan)
    requires Started(start)
    requires var s := Run(start, steps); op in s.operations && s.operations[op].Rechecking? && Inspects(s.operations[op].pending, inspected)
    ensures var s := Run(start, steps);
            var run := s.operations[op].pending.readinessRun;
            && run.Some?
            && EndsWith(s, Do(s, RecheckFinish(op, inspected)), op, inspected.(readinessRun := Some(ReadinessRun(run.value.id, Complete))))
            && EndsWith(s, Do(s, RecheckFail(op)), op, s.operations[op].pending.(readinessRun := Some(ReadinessRun(run.value.id, Stopped))))
  {
    hide *;
    var s := Run(start, steps);
    StartedIsInv(start);
    RunKeepsInv(start, steps);
    var pending := s.operations[op].pending;
    PendingIsStored(s, op);
    RecheckStep(s, op, inspected);
    SavesAndEnds(s, op, inspected.(readinessRun := Some(ReadinessRun(pending.readinessRun.value.id, Complete))));
    SavesAndEnds(s, op, pending.(readinessRun := Some(ReadinessRun(pending.readinessRun.value.id, Stopped))));
  }

  lemma PendingIsStored(s: System, op: nat)
    requires Inv(s) && op in s.operations && s.operations[op].Rechecking?
    ensures var pending := s.operations[op].pending; Lookup(s.plans, pending.id) == Some(pending) && pending.readinessRun.Some?
  {
    assert OperationOk(s.plans, s.ledger, s.operations[op]);
    hide Inv;
  }

  lemma RecheckStep(s: System, op: nat, inspected: Plan)
    requires op in s.operations && s.operations[op].Rechecking? && Inspects(s.operations[op].pending, inspected)
    requires var pending := s.operations[op].pending; Lookup(s.plans, pending.id) == Some(pending) && pending.readinessRun.Some?
    ensures var pending := s.operations[op].pending;
            && inspected.id == pending.id
            && Do(s, RecheckFinish(op, inspected))
               == SaveAndFinish(s, op, inspected.(readinessRun := Some(ReadinessRun(pending.readinessRun.value.id, Complete))))
            && Do(s, RecheckFail(op))
               == SaveAndFinish(s, op, pending.(readinessRun := Some(ReadinessRun(pending.readinessRun.value.id, Stopped))))
  {
    hide SaveAndFinish, Finish;
  }

  // ---------- deployment requests ----------

  /** A new request goes to inspection exactly when the plan is free, the destinations are different ones of the plan, no
      job has this request or any of them, and all of them are shown ready, without a job, at the revision approved. */
  lemma CheckedExactly(s: System, planId: Id, request: Request)
    ensures DeployAnswer(s, planId, request).Checked? <==>
            && Lookup(s.plans, planId).Some? && planId !in s.busy
            && var plan := View(Lookup(s.plans, planId).value);
               && request.targetIds != [] && (forall i, j :: 0 <= i < j < |request.targetIds| ==> request.targetIds[i] != request.targetIds[j])
               && (forall j :: j in s.ledger && j.deployment.Some? && j.deployment.value.planId == planId ==>
                     j.requestId != request.requestId && forall t :: t in request.targetIds ==> t !in j.deployment.value.targets)
               && plan.revision == request.revision && plan.evidenceVersion == 6 && (plan.packaged ==> request.confirmed)
               && forall t :: t in request.targetIds ==>
                    && FindTarget(plan.targets, t).Some? && FindTarget(plan.targets, t).value.status == Ready
                    && FindTarget(plan.targets, t).value.deploymentJob.None?
  {
    hide View, FindTarget;
    if Lookup(s.plans, planId).Some? && planId !in s.busy {
      NoJobOf(s.ledger, request.requestId, planId);
      forall j
        ensures Covers(j, planId, request.targetIds) <==>
                j.deployment.Some? && j.deployment.value.planId == planId && exists t :: t in request.targetIds && t in j.deployment.value.targets
      {}
      hide Covers, IndexOfJob;
    }
  }

  lemma {:induction false} NoJobOf(ledger: seq<Job>, requestId: string, planId: Id)
    ensures IndexOfJob(ledger, requestId, planId).None? <==>
            forall j :: j in ledger && j.deployment.Some? && j.deployment.value.planId == planId ==> j.requestId != requestId
  {}

  ghost predicate AssignsJob(was: Plan, now: Plan, targetIds: seq<Id>, jobId: Id) {
    && now == was.(targets := now.targets)
    && TargetsBecome(was.targets, now.targets, (a: Target, b: Target) => b == if a.id in targetIds then a.(deploymentJob := Some(jobId)) else a)
  }

  lemma AssignIs(plan: Plan, targetIds: seq<Id>, jobId: Id)
    ensures AssignsJob(plan, Assign(plan, targetIds, jobId), targetIds, jobId)
  {}

  /** A request is refused without a trace, or replayed: the plan then names the job of the same request at its
      destinations; or it waits for an inspection and holds the plan. */
  lemma DeployEffect(s: System, op: nat, planId: Id, request: Request)
    ensures var t, answer := Do(s, Deploy(op, planId, request)), DeployAnswer(s, planId, request);
            match answer
            case Refused => t == s
            case Replayed(job) =>
              && job in s.ledger && job.requestId == request.requestId && job.deployment.Some? && job.deployment.value.planId == planId
              && multiset(job.deployment.value.targets) == multiset(request.targetIds)
              && StoresOnly(s, t, planId)
              && AssignsJob(View(Lookup(s.plans, planId).value), Lookup(t.plans, planId).value, request.targetIds, job.id)
            case Checked =>
              if op in s.operations then t == s
              else t == s.(busy := s.busy + {planId}, operations := s.operations[op := Deploying(View(Lookup(s.plans, planId).value), request)])
  {
    hide View, Assign, AssignsJob, SaveNow, Approved, Covers, SelectsFrom;
    var answer := DeployAnswer(s, planId, request);
    if !answer.Refused? {
      var plan := View(Lookup(s.plans, planId).value);
      ViewKeepsId(Lookup(s.plans, planId).value);
      if answer.Replayed? {
        AssignIs(plan, request.targetIds, answer.job.id);
        AssignKeepsId(plan, request.targetIds, answer.job.id);
        SavedIsFound(s, Assign(plan, request.targetIds, answer.job.id));
      }
    }
  }

  lemma AssignKeepsId(plan: Plan, targetIds: seq<Id>, jobId: Id)
    ensures Assign(plan, targetIds, jobId).id == plan.id
  {}

  /** The evidence found again for the selected destinations is that of the plan, and there is all a record needs. */
  ghost predicate FoundAgain(plan: Plan, inspected: Plan, targetIds: seq<Id>) {
    && inspected.evidence.sources == plan.evidence.sources && inspected.evidence.sourceModels == plan.evidence.sourceModels
    && inspected.evidence.workbooks == plan.evidence.workbooks
    && forall t :: t in targetIds ==>
         && FindTarget(plan.targets, t).Some? && FindTarget(inspected.targets, t).Some?
         && var was, now := FindTarget(plan.targets, t).value, FindTarget(inspected.targets, t).value;
            now.status == Ready && was.modelHash == now.modelHash && was.fingerprint == now.fingerprint
  }

  ghost predicate HasRecord(plan: Plan, inspected: Plan, targetIds: seq<Id>) {
    forall t :: t in targetIds ==>
      && FindTarget(inspected.targets, t).Some? && FindTarget(inspected.targets, t).value.modelHash.Some?
      && (plan.packaged ==> FindTarget(inspected.targets, t).value.fingerprint.Some?)
  }

  /** Selected destinations that were found ready are held back. */
  ghost predicate HoldsBack(was: Plan, now: Plan, targetIds: seq<Id>) {
    && now == was.(targets := now.targets)
    && TargetsBecome(was.targets, now.targets,
                     (a: Target, b: Target) => b == if a.id in targetIds && a.status == Ready then a.(status := NeedsRecheck) else a)
  }

  lemma WithdrawIs(plan: Plan, targetIds: seq<Id>)
    ensures HoldsBack(plan, Withdraw(plan, targetIds), targetIds) && Withdraw(plan, targetIds).id == plan.id
  {}

  lemma UnchangedIs(plan: Plan, inspected: Plan, targetIds: seq<Id>)
    ensures Unchanged(plan, inspected, targetIds) <==> FoundAgain(plan, inspected, targetIds)
    ensures Recordable(plan, inspected, targetIds) <==> HasRecord(plan, inspected, targetIds)
  {
    hide FindTarget;
  }

  /** No job of the ledger has this identity, of a request or of a job. */
  ghost predicate Unused(ledger: seq<Job>, requestId: string, jobId: Id) {
    forall j :: j in ledger ==> j.requestId != requestId && j.id != jobId
  }

  /** After the inspection of a deployment request: when the evidence differs, the refreshed plan is stored, the selected
      destinations held back, and there is no job; otherwise there is one new job for a complete record and a request not
      used before, and what is stored next names it at the selected destinations. */
  lemma InspectionEffect(s: System, op: nat, inspected: Plan, newJobId: Id)
    requires Inv(s) && op in s.operations && s.operations[op].Deploying? && Inspects(s.operations[op].plan, inspected)
    ensures var Deploying(plan, request) := s.operations[op];
            var t, id := Do(s, DeployInspected(op, inspected, newJobId)), Canonical(request.requestId);
            if !FoundAgain(plan, inspected, request.targetIds) then
              var stored := Lookup(t.plans, plan.id);
              stored.Some? && HoldsBack(inspected, stored.value, request.targetIds) && EndsWith(s, t, op, stored.value)
            else if !HasRecord(plan, inspected, request.targetIds) || id.None? || !Unused(s.ledger, id.value, newJobId) then
              t == s.(busy := s.busy - {plan.id}, operations := s.operations - {op})
            else
              && t == s.(ledger := t.ledger, operations := t.operations) && |t.ledger| == |s.ledger| + 1
              && var job := t.ledger[|s.ledger|];
                 && t.ledger == s.ledger + [job] && job.id == newJobId && job.requestId == id.value && job.deployment.Some?
                 && job.deployment.value.planId == plan.id
                 && exists refreshed :: AssignsJob(inspected, refreshed, request.targetIds, newJobId)
                      && t.operations == s.operations[op := Saving(job, refreshed, request)]
  {
    hide *;
    var Deploying(plan, request) := s.operations[op];
    WaitingIsStored(s, op);
    UnchangedIs(plan, inspected, request.targetIds);
    InspectedStep(s, op, inspected, newJobId);
    if !Unchanged(plan, inspected, request.targetIds) {
      WithdrawIs(inspected, request.targetIds);
      SavesAndEnds(s, op, Withdraw(inspected, request.targetIds));
      EndsMeans(s, SaveAndFinish(s, op, Withdraw(inspected, request.targetIds)), op, Withdraw(inspected, request.targetIds));
    } else {
      AssignIs(inspected, request.targetIds, newJobId);
    }
  }

  lemma WaitingIsStored(s: System, op: nat)
    requires Inv(s) && op in s.operations && s.operations[op].Deploying?
    ensures Lookup(s.plans, s.operations[op].plan.id).Some?
  {
    assert OperationOk(s.plans, s.ledger, s.operations[op]);
    hide Inv, View, Approved;
  }

  /** The step by its three ways to end. */
  lemma InspectedStep(s: System, op: nat, inspected: Plan, newJobId: Id)
    requires op in s.operations && s.operations[op].Deploying? && Inspects(s.operations[op].plan, inspected)
    ensures inspected.id == s.operations[op].plan.id
    ensures var Deploying(plan, request) := s.operations[op];
            var t, id := Do(s, DeployInspected(op, inspected, newJobId)), Canonical(request.requestId);
            if !Unchanged(plan, inspected, request.targetIds) then t == SaveAndFinish(s, op, Withdraw(inspected, request.targetIds))
            else if !Recordable(plan, inspected, request.targetIds) || id.None? || !Unused(s.ledger, id.value, newJobId) then
              t == s.(busy := s.busy - {plan.id}, operations := s.operations - {op})
            else
              var job := Job(newJobId, id.value, Some(Record(plan, inspected, request.targetIds)));
              && job.deployment.value.planId == plan.id
              && t == s.(ledger := s.ledger + [job],
                         operations := s.operations[op := Saving(job, Assign(inspected, request.targetIds, newJobId), request)])
  {
    hide Unchanged, Recordable, Withdraw, Assign, SaveAndFinish, Canonical;
  }

  lemma EndsMeans(s: System, t: System, op: nat, plan: Plan)
    requires op in s.operations && EndsWith(s, t, op, plan)
    ensures Lookup(t.plans, plan.id) == Some(plan)
  {}

  /** What was dispatched is stored, and the plan is free again. */
  lemma DispatchIsStored(s: System, op: nat)
    requires Inv(s) && op in s.operations && s.operations[op].Saving?
    ensures EndsWith(s, Do(s, DeploySavePlan(op)), op, s.operations[op].refreshed)
  {
    hide Inv, SaveAndFinish, EndsWith, Finish;
    SavingIsStored(s, op);
    SavesAndEnds(s, op, s.operations[op].refreshed);
  }

  lemma SavingIsStored(s: System, op: nat)
    requires Inv(s) && op in s.operations && s.operations[op].Saving?
    ensures Lookup(s.plans, s.operations[op].refreshed.id).Some?
  {
    assert OperationOk(s.plans, s.ledger, s.operations[op]);
    hide Inv;
  }

  // ---------- repairs ----------

  /** The destination names the repair job and needs a recheck, in a new revision. */
  ghost predicate LinksRepair(was: Plan, now: Plan, targetId: Id, jobId: Id) {
    && SameBesides(was, now) && now.revision == was.revision + 1 && now.destinations == was.destinations
    && TargetsBecome(was.targets, now.targets,
                     (a: Target, b: Target) => b == if a.id == targetId then a.(repairJob := Some(jobId), status := NeedsRecheck) else a)
  }

  lemma LinkedPlanIs(plan: Plan, targetId: Id, jobId: Id)
    ensures LinksRepair(plan, LinkedPlan(plan, targetId, jobId), targetId, jobId) && LinkedPlan(plan, targetId, jobId).id == plan.id
  {}

  /** A repair is linked to a destination of a free plan that has none yet. */
  lemma LinkEffect(s: System, planId: Id, targetId: Id, jobId: Id)
    ensures var t := Do(s, LinkRepair(planId, targetId, jobId));
            if planId in s.busy || Lookup(s.plans, planId).None? || FindTarget(Lookup(s.plans, planId).value.targets, targetId).None?
               || FindTarget(Lookup(s.plans, planId).value.targets, targetId).value.repairJob.Some?
            then t == s
            else StoresOnly(s, t, planId) && LinksRepair(View(Lookup(s.plans, planId).value), Lookup(t.plans, planId).value, targetId, jobId)
  {
    hide View, LinkedPlan, LinksRepair, SaveNow;
    if Lookup(s.plans, planId).Some? {
      var plan := View(Lookup(s.plans, planId).value);
      ViewKeepsId(Lookup(s.plans, planId).value);
      LinkedPlanIs(plan, targetId, jobId);
      SavedIsFound(s, LinkedPlan(plan, targetId, jobId));
    }
  }

  /** A topic repair that succeeds replaces the choices of its destination as well. */
  lemma TopicRepairEffect(s: System, op: nat, jobId: Id, choices: Hash)
    requires Inv(s) && op in s.operations && s.operations[op].TopicRepairing?
    ensures var TopicRepairing(plan, targetId) := s.operations[op];
            var t := Do(s, TopicRepairFinish(op, jobId, choices));
            exists chosen, linked :: EndsWith(s, t, op, linked) && LinksRepair(chosen, linked, targetId, jobId)
              && chosen == plan.(destinations := chosen.destinations) && |chosen.destinations| == |plan.destinations|
              && forall i :: 0 <= i < |plan.destinations| ==>
                   chosen.destinations[i] == if plan.destinations[i].targetId == targetId then Destination(targetId, choices) else plan.destinations[i]
  {
    hide *;
    var TopicRepairing(plan, targetId) := s.operations[op];
    RepairIsStored(s, op);
    RepairStep(s, op, jobId, choices);
    var chosen := plan.(destinations := ReplaceChoices(plan.destinations, targetId, choices));
    ReplacedDiffers(plan.destinations, targetId, choices);
    LinkedPlanIs(chosen, targetId, jobId);
    SavesAndEnds(s, op, LinkedPlan(chosen, targetId, jobId));
  }

  lemma RepairIsStored(s: System, op: nat)
    requires Inv(s) && op in s.operations && s.operations[op].TopicRepairing?
    ensures Lookup(s.plans, s.operations[op].plan.id).Some?
  {
    assert OperationOk(s.plans, s.ledger, s.operations[op]);
    hide Inv, View;
  }

  lemma RepairStep(s: System, op: nat, jobId: Id, choices: Hash)
    requires op in s.operations && s.operations[op].TopicRepairing?
    ensures var TopicRepairing(plan, targetId) := s.operations[op];
            Do(s, TopicRepairFinish(op, jobId, choices))
            == SaveAndFinish(s, op, LinkedPlan(plan.(destinations := ReplaceChoices(plan.destinations, targetId, choices)), targetId, jobId))
  {
    hide SaveAndFinish, LinkedPlan, ReplaceChoices;
  }

  // ---------- new plans ----------

  /** A plan is begun for a request that no stored plan has, under an identity of its own. */
  lemma CreateStartEffect(s: System, op: nat, requestId: string, newId: Id, destinations: seq<Destination>)
    ensures var t, id := Do(s, CreateStart(op, requestId, newId, destinations)), Canonical(requestId);
            if id.None? || (exists p :: p in s.plans && p.requestId == id.value) || Lookup(s.plans, newId).Some?
               || (exists o :: o in s.operations && s.operations[o].Creating? && s.operations[o].draft.id == newId)
               || op in s.operations || id.value in s.busy
            then t == s
            else
              && t == s.(busy := s.busy + {id.value}, operations := t.operations) && op in t.operations && t.operations[op].Creating?
              && t.operations == s.operations[op := t.operations[op]]
              && var draft := t.operations[op].draft;
                 draft.id == newId && draft.requestId == id.value && draft.destinations == destinations && draft.targets == []
  {}

  /** A new plan is stored as it was inspected, with its run completed, while there is room for it. */
  lemma CreateFinishEffect(s: System, op: nat, inspected: Plan, runId: Id)
    requires Inv(s) && op in s.operations && s.operations[op].Creating? && Inspects(s.operations[op].draft, inspected)
    ensures var t := Do(s, CreateFinish(op, inspected, runId));
            && t.ledger == s.ledger && t.busy == s.busy - {s.operations[op].Lock()} && t.operations == s.operations - {op}
            && if |s.plans| >= 500 then t.plans == s.plans
               else t.plans == s.plans + [inspected.(readinessRun := Some(ReadinessRun(runId, RunStatus.Complete)))]
  {
    assert OperationOk(s.plans, s.ledger, s.operations[op]);
    hide Inv;
  }

  // ---------- the other operations ----------

  /** A repair of topics waits for the destination that was shown at this revision without any job, and holds its plan. */
  lemma TopicRepairStartEffect(s: System, op: nat, planId: Id, revision: nat, targetId: Id)
    ensures var t, stored := Do(s, TopicRepairStart(op, planId, revision, targetId)), Lookup(s.plans, planId);
            if && stored.Some? && stored.value.revision == revision && op !in s.operations && planId !in s.busy
               && FindTarget(View(stored.value).targets, targetId).Some?
               && FindTarget(View(stored.value).targets, targetId).value.deploymentJob.None?
               && FindTarget(View(stored.value).targets, targetId).value.repairJob.None?
            then t == s.(busy := s.busy + {planId}, operations := s.operations[op := TopicRepairing(View(stored.value), targetId)])
            else t == s
  {
    hide FindTarget, NeedRecheck;
  }

  /** Another repair waits for any stored plan, and holds it. */
  lemma RepairStartEffect(s: System, op: nat, planId: Id)
    ensures Do(s, RepairStart(op, planId))
            == if Lookup(s.plans, planId).Some? && op !in s.operations && planId !in s.busy
               then s.(busy := s.busy + {planId}, operations := s.operations[op := RepairSubmitting(planId)]) else s
  {}

  /** An operation that gives up leaves its plan to others and stores nothing; a recheck does not give up without a record. */
  lemma AbandonEffect(s: System, op: nat)
    ensures Do(s, Abandon(op))
            == if op in s.operations && !s.operations[op].Rechecking?
               then s.(busy := s.busy - {s.operations[op].Lock()}, operations := s.operations - {op}) else s
  {}

  /** A job of another kind is recorded once a request. */
  lemma DirectJobEffect(s: System, newJobId: Id, requestId: string)
    ensures var t, id := Do(s, DirectJob(newJobId, requestId)), Canonical(requestId);
            if id.Some? && (forall j :: j in s.ledger ==> j.requestId != id.value && j.id != newJobId)
            then t == s.(ledger := s.ledger + [Job(newJobId, id.value, None)])
            else t == s
  {}

  /** A crash loses what waits, and nothing that is stored. */
  lemma CrashEffect(s: System)
    ensures Do(s, Crash) == System(s.plans, s.ledger, {}, map[])
  {}
}

/** What every run of the deployment plan protocol keeps. */
module DeploymentSafety {
  import opened Options
  import opened RequestIdentity
  import opened DeploymentProtocol

  // ---------- the invariant ----------

  ghost predicate UniqueIds(plans: seq<Plan>) {
    forall i, j :: 0 <= i < j < |plans| ==> plans[i].id != plans[j].id
  }

  /** Two jobs deploy a common destination of the same plan. */
  ghost predicate Clash(a: Job, b: Job) {
    a.deployment.Some? && b.deployment.Some? && a.deployment.value.planId == b.deployment.value.planId
    && Overlaps(a.deployment.value.targets, b.deployment.value.targets)
  }

  ghost predicate LedgerOk(ledger: seq<Job>) {
    && (forall i, j :: 0 <= i < j < |ledger| ==> !Clash(ledger[i], ledger[j]) && ledger[i].requestId != ledger[j].requestId)
    && (forall i :: 0 <= i < |ledger| ==> Canonical(ledger[i].requestId) == Some(ledger[i].requestId))
  }

  ghost predicate Held(operations: map<nat, Operation>, lock: Id) {
    exists o :: o in operations && operations[o].Lock() == lock
  }

  /** Every waiting operation holds its own lock, and every lock is held by a waiting operation. */
  ghost predicate Locked(s: System) {
    && (forall o :: o in s.operations ==> s.operations[o].Lock() in s.busy)
    && (forall l :: l in s.busy ==> Held(s.operations, l))
    && (forall a, b :: a in s.operations && b in s.operations && a != b ==> s.operations[a].Lock() != s.operations[b].Lock())
  }

  /** A waiting operation remembers the stored plan as its readers see it; nobody has written it since. */
  ghost predicate Current(plans: seq<Plan>, plan: Plan) {
    Lookup(plans, plan.id).Some? && View(Lookup(plans, plan.id).value) == plan
  }

  ghost predicate OperationOk(plans: seq<Plan>, ledger: seq<Job>, operation: Operation) {
    match operation
    case Creating(draft) =>
      Lookup(plans, draft.id).None? && (forall p :: p in plans ==> p.requestId != draft.requestId)
    case Rechecking(pending) => Lookup(plans, pending.id) == Some(pending) && pending.readinessRun.Some? && pending.readinessRun.value.status == Running
    case Deploying(plan, request) =>
      Current(plans, plan) && Approved(plan, request) && forall j :: j in ledger ==> !Covers(j, plan.id, request.targetIds)
    case Saving(job, refreshed, request) =>
      job in ledger && Lookup(plans, refreshed.id).Some? && Lookup(plans, refreshed.id).value.revision + 1 == refreshed.revision
      && refreshed.requestId == Lookup(plans, refreshed.id).value.requestId
    case TopicRepairing(plan, targetId) => Current(plans, plan)
    case RepairSubmitting(planId) => Lookup(plans, planId).Some?
  }

  ghost predicate Drafts(s: System) {
    forall a, b :: a in s.operations && b in s.operations && a != b && s.operations[a].Creating? && s.operations[b].Creating? ==>
      s.operations[a].draft.id != s.operations[b].draft.id
  }

  ghost predicate OneRequestEach(plans: seq<Plan>) {
    forall i, j :: 0 <= i < j < |plans| ==> plans[i].requestId != plans[j].requestId
  }

  ghost predicate Inv(s: System) {
    && UniqueIds(s.plans) && OneRequestEach(s.plans) && LedgerOk(s.ledger) && Locked(s) && Drafts(s)
    && forall o :: o in s.operations ==> OperationOk(s.plans, s.ledger, s.operations[o])
  }

  /** A freshly started process: durable state only. */
  ghost predicate Started(s: System) {
    s.busy == {} && s.operations == map[] && UniqueIds(s.plans) && OneRequestEach(s.plans) && LedgerOk(s.ledger)
  }

  lemma StartedIsInv(s: System)
    requires Started(s)
    ensures Inv(s)
  {}

  // ---------- saving one plan ----------

  lemma {:induction false} ReplaceAt(plans: seq<Plan>, plan: Plan, id: Id)
    requires Lookup(plans, plan.id).Some?
    ensures Lookup(Replace(plans, plan), id) == if id == plan.id then Some(plan) else Lookup(plans, id)
    decreases |plans|
  {
    if plans[0].id != plan.id {
      ReplaceAt(plans[1..], plan, id);
      assert Replace(plans, plan)[1..] == Replace(plans[1..], plan);
    } else {
      assert Replace(plans, plan)[1..] == plans[1..];
    }
  }

  lemma {:induction false} AppendAt(plans: seq<Plan>, plan: Plan, id: Id)
    requires Lookup(plans, plan.id).None?
    ensures Lookup(plans + [plan], id) == if id == plan.id then Some(plan) else Lookup(plans, id)
    decreases |plans|
  {
    if plans != [] {
      assert (plans + [plan])[1..] == plans[1..] + [plan];
      AppendAt(plans[1..], plan, id);
    }
  }

  /** A save writes its own plan and nothing else. */
  lemma SaveAt(plans: seq<Plan>, plan: Plan, id: Id)
    ensures Save(plans, plan).Some? ==> Lookup(Save(plans, plan).value, id) == if id == plan.id then Some(plan) else Lookup(plans, id)
    ensures Lookup(plans, plan.id).Some? ==> Save(plans, plan).Some?
  {
    if Lookup(plans, plan.id).Some? {
      ReplaceAt(plans, plan, id);
    } else {
      AppendAt(plans, plan, id);
    }
  }

  lemma LookupMember(plans: seq<Plan>, i: nat)
    requires UniqueIds(plans) && i < |plans|
    ensures Lookup(plans, plans[i].id) == Some(plans[i])
    decreases |plans|
  {}

  lemma {:induction false} ReplaceMembers(plans: seq<Plan>, plan: Plan)
    requires UniqueIds(plans) && Lookup(plans, plan.id).Some?
    ensures |Replace(plans, plan)| == |plans|
    ensures forall i :: 0 <= i < |plans| ==> Replace(plans, plan)[i] == if plans[i].id == plan.id then plan else plans[i]
    decreases |plans|
  {
    if plans[0].id != plan.id {
      ReplaceMembers(plans[1..], plan);
    }
  }

  /** Saving keeps the plan store well formed, if the plan keeps its request or brings a new one. */
  lemma SaveKeepsStore(plans: seq<Plan>, plan: Plan)
    requires UniqueIds(plans) && OneRequestEach(plans) && Save(plans, plan).Some?
    requires if Lookup(plans, plan.id).Some? then Lookup(plans, plan.id).value.requestId == plan.requestId
             else forall p :: p in plans ==> p.requestId != plan.requestId
    ensures UniqueIds(Save(plans, plan).value) && OneRequestEach(Save(plans, plan).value)
    ensures forall p :: p in Save(plans, plan).value ==> p == plan || p in plans
  {
    if Lookup(plans, plan.id).Some? {
      ReplaceMembers(plans, plan);
      forall i | 0 <= i < |plans| && plans[i].id == plan.id
        ensures plans[i] == Lookup(plans, plan.id).value
      {
        LookupMember(plans, i);
      }
    }
  }

  // ---------- operations that a save does not concern ----------

  /** The operation is about another plan than this one. */
  ghost predicate Apart(operation: Operation, plan: Plan) {
    match operation
    case Creating(draft) => draft.id != plan.id && draft.requestId != plan.requestId
    case _ => operation.Lock() != plan.id
  }

  lemma SaveKeepsOperation(plans: seq<Plan>, ledger: seq<Job>, plan: Plan, operation: Operation)
    requires UniqueIds(plans) && OneRequestEach(plans)
    requires OperationOk(plans, ledger, operation) && Save(plans, plan).Some? && Apart(operation, plan)
    requires if Lookup(plans, plan.id).Some? then Lookup(plans, plan.id).value.requestId == plan.requestId
             else forall p :: p in plans ==> p.requestId != plan.requestId
    ensures OperationOk(Save(plans, plan).value, ledger, operation)
  {
    hide Save, Approved, Covers;
    SaveKeepsStore(plans, plan);
    match operation
    case Creating(draft) => SaveAt(plans, plan, draft.id);
    case Rechecking(pending) => SaveAt(plans, plan, pending.id);
    case Deploying(p, request) => SaveAt(plans, plan, p.id);
    case Saving(job, refreshed, request) => SaveAt(plans, plan, refreshed.id);
    case TopicRepairing(p, targetId) => SaveAt(plans, plan, p.id);
    case RepairSubmitting(planId) => SaveAt(plans, plan, planId);
  }

  /** A stored plan's new version is apart from every operation that does not hold its lock. */
  lemma StoredIsApart(s: System, o: nat, plan: Plan)
    requires Inv(s) && o in s.operations
    requires Lookup(s.plans, plan.id).Some? && Lookup(s.plans, plan.id).value.requestId == plan.requestId
    requires s.operations[o].Creating? || s.operations[o].Lock() != plan.id
    ensures Apart(s.operations[o], plan)
  {}

  lemma FinishKeepsLocks(s: System, op: nat)
    requires Locked(s) && op in s.operations
    ensures Locked(Finish(s, op))
  {
    var t := Finish(s, op);
    forall l | l in t.busy
      ensures Held(t.operations, l)
    {
      var o :| o in s.operations && s.operations[o].Lock() == l;
      assert o in t.operations;
    }
  }

  lemma FinishKeepsInv(s: System, op: nat)
    requires Inv(s) && op in s.operations
    ensures Inv(Finish(s, op))
  {
    FinishKeepsLocks(s, op);
    hide OperationOk, UniqueIds, OneRequestEach, LedgerOk, Locked;
  }

  lemma BeginKeepsLocks(s: System, op: nat, operation: Operation)
    requires Locked(s)
    ensures Locked(Begin(s, op, operation))
  {
    var t := Begin(s, op, operation);
    if t != s {
      forall l | l in t.busy
        ensures Held(t.operations, l)
      {
        if l == operation.Lock() {
          assert t.operations[op].Lock() == l;
        } else {
          var o :| o in s.operations && s.operations[o].Lock() == l;
          assert o in t.operations && t.operations[o].Lock() == l;
        }
      }
    }
  }

  lemma BeginKeepsInv(s: System, op: nat, operation: Operation)
    requires Inv(s)
    requires op !in s.operations && operation.Lock() !in s.busy ==> OperationOk(s.plans, s.ledger, operation)
    requires operation.Creating? ==>
               forall o :: o in s.operations && s.operations[o].Creating? ==> s.operations[o].draft.id != operation.draft.id
    ensures Inv(Begin(s, op, operation))
  {
    BeginKeepsLocks(s, op, operation);
    hide OperationOk, UniqueIds, OneRequestEach, LedgerOk, Locked;
  }

  /** The operation that holds a plan's lock saves the plan and gives the lock back. */
  lemma SaveOwnedKeepsInv(s: System, op: nat, plan: Plan)
    requires Inv(s) && op in s.operations
    requires if s.operations[op].Creating? then plan.id == s.operations[op].draft.id && plan.requestId == s.operations[op].draft.requestId
             else s.operations[op].Lock() == plan.id && Lookup(s.plans, plan.id).Some?
                  && Lookup(s.plans, plan.id).value.requestId == plan.requestId
    ensures Inv(SaveAndFinish(s, op, plan))
  {
    assert OperationOk(s.plans, s.ledger, s.operations[op]);
    FinishKeepsInv(s, op);
    if Save(s.plans, plan).Some? {
      var t := SaveAndFinish(s, op, plan);
      SaveKeepsStore(s.plans, plan);
      forall o | o in t.operations
        ensures OperationOk(t.plans, t.ledger, t.operations[o])
      {
        assert o != op;
        if !s.operations[op].Creating? {
          StoredIsApart(s, o, plan);
        } else {
          CreatedIsApart(s, op, o, plan);
        }
        SaveKeepsOperation(s.plans, s.ledger, plan, s.operations[o]);
      }
      hide OperationOk, UniqueIds, OneRequestEach, LedgerOk, Save;
      assert Locked(t) && Drafts(t) by {
        hide Locked;
        assert Locked(Finish(s, op));
      }
    }
  }

  lemma CreatedIsApart(s: System, op: nat, o: nat, plan: Plan)
    requires Inv(s) && op in s.operations && o in s.operations && o != op && s.operations[op].Creating?
    requires plan.id == s.operations[op].draft.id && plan.requestId == s.operations[op].draft.requestId
    ensures Apart(s.operations[o], plan)
  {}

  lemma PlansAreNoLock(s: System, plans: seq<Plan>)
    requires Locked(s) && Drafts(s)
    ensures Locked(s.(plans := plans)) && Drafts(s.(plans := plans))
  {}

  /** What may save a plan at once: nobody holds it, or only a waiting repair submission does. */
  ghost predicate MaySave(s: System, plan: Plan) {
    && Lookup(s.plans, plan.id).Some? && Lookup(s.plans, plan.id).value.requestId == plan.requestId
    && forall o :: o in s.operations && s.operations[o].Lock() == plan.id ==> s.operations[o].Creating? || s.operations[o].RepairSubmitting?
  }

  lemma SaveFreeKeepsOperation(s: System, plan: Plan, o: nat)
    requires Inv(s) && MaySave(s, plan) && o in s.operations
    ensures OperationOk(SaveNow(s, plan).plans, s.ledger, s.operations[o])
  {
    SaveAt(s.plans, plan, plan.id);
    assert OperationOk(s.plans, s.ledger, s.operations[o]);
    if !(s.operations[o].RepairSubmitting? && s.operations[o].planId == plan.id) {
      StoredIsApart(s, o, plan);
      hide Inv;
      SaveKeepsOperation(s.plans, s.ledger, plan, s.operations[o]);
    }
  }

  lemma SaveFreeKeepsInv(s: System, plan: Plan)
    requires Inv(s) && MaySave(s, plan)
    ensures Inv(SaveNow(s, plan))
  {
    SaveKeepsStore(s.plans, plan);
    var t := SaveNow(s, plan);
    hide UniqueIds, OneRequestEach, LedgerOk, Locked, Drafts, OperationOk, MaySave;
    forall o | o in t.operations
      ensures OperationOk(t.plans, t.ledger, t.operations[o])
    {
      SaveFreeKeepsOperation(s, plan, o);
    }
    PlansAreNoLock(s, t.plans);
  }

  // ---------- every step ----------

  lemma ViewKeeps(plan: Plan)
    ensures View(plan).id == plan.id && View(plan).revision == plan.revision && View(plan).requestId == plan.requestId
    ensures View(plan).evidence == plan.evidence && View(plan).destinations == plan.destinations
    ensures View(plan).evidenceVersion == plan.evidenceVersion && View(plan).readinessRun == plan.readinessRun
  {}

  lemma FreeHasNoHolder(s: System, planId: Id)
    requires Inv(s) && planId !in s.busy
    ensures forall o :: o in s.operations ==> s.operations[o].Lock() != planId
  {}

  lemma OnlyHolder(s: System, op: nat)
    requires Locked(s) && op in s.operations
    ensures forall o :: o in s.operations && s.operations[o].Lock() == s.operations[op].Lock() ==> o == op
  {}

  lemma RecheckStartKeepsInv(s: System, op: nat, planId: Id, runId: Id)
    requires Inv(s)
    ensures Inv(DoRecheckStart(s, op, planId, runId))
  {
    if Lookup(s.plans, planId).Some? && op !in s.operations && planId !in s.busy {
      var pending := PendingRecheck(Lookup(s.plans, planId).value, runId);
      SaveAt(s.plans, pending, planId);
      FreeHasNoHolder(s, planId);
      SaveFreeKeepsInv(s, pending);
      hide Inv, View, Save;
      assert SaveNow(s, pending).operations == s.operations;
      BeginKeepsInv(SaveNow(s, pending), op, Rechecking(pending));
    }
  }

  lemma CreateStartKeepsInv(s: System, op: nat, requestId: string, newId: Id, destinations: seq<Destination>)
    requires Inv(s)
    ensures Inv(DoCreateStart(s, op, requestId, newId, destinations))
  {
    var canonical := Canonical(requestId);
    if canonical.Some? && Lookup(s.plans, newId).None? && !(exists p :: p in s.plans && p.requestId == canonical.value)
       && !(exists o :: o in s.operations && s.operations[o].Creating? && s.operations[o].draft.id == newId) {
      BeginKeepsInv(s, op, Creating(Plan(newId, 0, canonical.value, destinations, Evidence("", "", ""), [], 0, true, None)));
    }
  }

  lemma UpdateKeepsInv(s: System, planId: Id, revision: nat, targetId: Id, choices: Hash)
    requires Inv(s)
    ensures Inv(DoUpdate(s, planId, revision, targetId, choices))
  {
    if Lookup(s.plans, planId).Some? && planId !in s.busy {
      var plan := View(Lookup(s.plans, planId).value);
      FreeHasNoHolder(s, planId);
      SaveFreeKeepsInv(s, plan.(destinations := ReplaceChoices(plan.destinations, targetId, choices), revision := plan.revision + 1,
                              targets := MapTargets(plan.targets, (t: Target) => if t.id == targetId then t.(status := NeedsRecheck) else t)));
      hide Inv, SaveNow;
    }
  }

  lemma LinkKeepsInv(s: System, planId: Id, targetId: Id, jobId: Id)
    requires Inv(s)
    requires forall o :: o in s.operations && s.operations[o].Lock() == planId ==> s.operations[o].RepairSubmitting?
    ensures Inv(DoLink(s, planId, targetId, jobId))
  {
    if Lookup(s.plans, planId).Some? {
      SaveFreeKeepsInv(s, LinkedPlan(View(Lookup(s.plans, planId).value), targetId, jobId));
      hide Inv, SaveNow;
    }
  }

  lemma DeployKeepsInv(s: System, op: nat, planId: Id, request: Request)
    requires Inv(s)
    ensures Inv(DoDeploy(s, op, planId, request))
  {
    var answer := DeployAnswer(s, planId, request);
    if answer.Replayed? {
      FreeHasNoHolder(s, planId);
      SaveFreeKeepsInv(s, Assign(View(Lookup(s.plans, planId).value), request.targetIds, answer.job.id));
      hide Inv, SaveNow;
    } else if answer.Checked? {
      BeginKeepsInv(s, op, Deploying(View(Lookup(s.plans, planId).value), request));
    }
  }

  lemma SelectedOnly(destinations: seq<Destination>, targetIds: seq<Id>, other: seq<Id>)
    requires Overlaps(other, SelectedIds(destinations, targetIds))
    ensures Overlaps(other, targetIds)
  {}

  /** A job is added only when no job of the plan covers its destinations and no job has its request. */
  lemma NewJobKeepsLedger(ledger: seq<Job>, job: Job, plan: Plan, inspected: Plan, targetIds: seq<Id>)
    requires LedgerOk(ledger) && Recordable(plan, inspected, targetIds)
    requires job.deployment == Some(Record(plan, inspected, targetIds))
    requires forall j :: j in ledger ==> !Covers(j, plan.id, targetIds) && j.requestId != job.requestId
    requires Canonical(job.requestId) == Some(job.requestId)
    ensures LedgerOk(ledger + [job])
  {
    forall i | 0 <= i < |ledger|
      ensures !Clash(ledger[i], job) && ledger[i].requestId != job.requestId
    {
      assert ledger[i] in ledger;
      if Clash(ledger[i], job) {
        SelectedOnly(plan.destinations, targetIds, ledger[i].deployment.value.targets);
      }
    }
  }

  /** A job for one plan leaves the operations on other plans as they were. */
  lemma NewJobKeepsOperation(plans: seq<Plan>, ledger: seq<Job>, job: Job, operation: Operation)
    requires OperationOk(plans, ledger, operation)
    requires job.deployment.Some? && operation.Deploying? ==> job.deployment.value.planId != operation.plan.id
    ensures OperationOk(plans, ledger + [job], operation)
  {}

  lemma SwapKeepsLocks(s: System, op: nat, next: Operation)
    requires Locked(s) && op in s.operations && next.Lock() == s.operations[op].Lock()
    ensures Locked(s.(operations := s.operations[op := next]))
  {
    var operations := s.operations[op := next];
    forall l | l in s.busy
      ensures Held(operations, l)
    {
      assert Held(s.operations, l);
      var o :| o in s.operations && s.operations[o].Lock() == l;
      assert o in operations && operations[o].Lock() == l;
    }
    forall o | o in operations
      ensures operations[o].Lock() == s.operations[o].Lock() && o in s.operations
    {}
  }

  /** The job that a waiting check may create. */
  predicate Creates(s: System, op: nat, inspected: Plan, job: Job) {
    && op in s.operations && s.operations[op].Deploying?
    && var plan, request := s.operations[op].plan, s.operations[op].request;
    && Inspects(plan, inspected) && Recordable(plan, inspected, request.targetIds)
    && job.deployment == Some(Record(plan, inspected, request.targetIds))
    && Canonical(job.requestId) == Some(job.requestId)
    && forall j :: j in s.ledger ==> j.requestId != job.requestId
  }

  lemma CreatedJobIsOk(s: System, op: nat, inspected: Plan, job: Job)
    requires LedgerOk(s.ledger) && Creates(s, op, inspected, job) && OperationOk(s.plans, s.ledger, s.operations[op])
    ensures var request := s.operations[op].request;
            LedgerOk(s.ledger + [job]) && OperationOk(s.plans, s.ledger + [job], Saving(job, Assign(inspected, request.targetIds, job.id), request))
    ensures job.deployment.value.planId == s.operations[op].plan.id
  {
    var Deploying(plan, request) := s.operations[op];
    NewJobKeepsLedger(s.ledger, job, plan, inspected, request.targetIds);
    ViewKeeps(Lookup(s.plans, plan.id).value);
  }

  /** Creating the job replaces a waiting check by a waiting save. */
  lemma DispatchKeepsInv(s: System, op: nat, inspected: Plan, job: Job)
    requires Inv(s) && Creates(s, op, inspected, job)
    ensures var request := s.operations[op].request;
            Inv(s.(ledger := s.ledger + [job], operations := s.operations[op := Saving(job, Assign(inspected, request.targetIds, job.id), request)]))
  {
    var Deploying(plan, request) := s.operations[op];
    var next := Saving(job, Assign(inspected, request.targetIds, job.id), request);
    var t := s.(ledger := s.ledger + [job], operations := s.operations[op := next]);
    hide OperationOk, Record, Recordable, Inspects, UniqueIds, OneRequestEach, LedgerOk, Assign;
    CreatedJobIsOk(s, op, inspected, job);
    hide Creates;
    OthersStayOk(s, op, job);
    DispatchKeepsLocks(s, op, next, t.ledger);
    hide Locked, Drafts;
  }

  lemma DispatchKeepsLocks(s: System, op: nat, next: Operation, ledger: seq<Job>)
    requires Locked(s) && Drafts(s) && op in s.operations && next.Lock() == s.operations[op].Lock() && !next.Creating?
    ensures Locked(s.(ledger := ledger, operations := s.operations[op := next]))
    ensures Drafts(s.(ledger := ledger, operations := s.operations[op := next]))
  {
    SwapKeepsLocks(s, op, next);
    assert Drafts(s.(operations := s.operations[op := next]));
    LedgerIsNoLock(s.(operations := s.operations[op := next]), ledger);
  }

  lemma OthersStayOk(s: System, op: nat, job: Job)
    requires Locked(s) && op in s.operations && s.operations[op].Deploying?
    requires forall o :: o in s.operations ==> OperationOk(s.plans, s.ledger, s.operations[o])
    requires job.deployment.Some? && job.deployment.value.planId == s.operations[op].plan.id
    ensures forall o :: o in s.operations && o != op ==> OperationOk(s.plans, s.ledger + [job], s.operations[o])
  {}

  lemma LedgerIsNoLock(s: System, ledger: seq<Job>)
    requires Locked(s)
    ensures Locked(s.(ledger := ledger))
  {}

  lemma DeployInspectedKeepsInv(s: System, op: nat, inspected: Plan, newJobId: Id)
    requires Inv(s) && op in s.operations && s.operations[op].Deploying?
    ensures Inv(DoDeployInspected(s, op, inspected, newJobId))
  {
    var Deploying(plan, request) := s.operations[op];
    assert OperationOk(s.plans, s.ledger, s.operations[op]);
    assert Lookup(s.plans, plan.id).value.requestId == plan.requestId by {
      ViewKeeps(Lookup(s.plans, plan.id).value);
    }
    CanonicalIsFixed(request.requestId);
    hide OperationOk, Inv, Finish, SaveAndFinish, Unchanged, Record, Canonical;
    FinishKeepsInv(s, op);
    if Inspects(plan, inspected) {
      if !Unchanged(plan, inspected, request.targetIds) {
        SaveOwnedKeepsInv(s, op, Withdraw(inspected, request.targetIds));
      } else if Recordable(plan, inspected, request.targetIds) && Canonical(request.requestId).Some?
                && !(exists j :: j in s.ledger && (j.requestId == Canonical(request.requestId).value || j.id == newJobId)) {
        DispatchKeepsInv(s, op, inspected, Job(newJobId, Canonical(request.requestId).value,
                                               Some(Record(plan, inspected, request.targetIds))));
      }
    }
  }

  lemma StepKeepsInv(s: System, step: Step)
    requires Inv(s)
    ensures Inv(Do(s, step))
  {
    hide Inv, DoRecheckStart, DoCreateStart, DoUpdate, DoDeploy, DoDeployInspected, DoLink, SaveAndFinish, Finish;
    match step
    case CreateStart(op, requestId, newId, destinations) => CreateStartKeepsInv(s, op, requestId, newId, destinations);
    case CreateFinish(op, inspected, runId) => OwnedStepKeepsInv(s, step);
    case RecheckStart(op, planId, runId) => RecheckStartKeepsInv(s, op, planId, runId);
    case RecheckFinish(op, inspected) => OwnedStepKeepsInv(s, step);
    case RecheckFail(op) => OwnedStepKeepsInv(s, step);
    case Update(planId, revision, targetId, choices) => UpdateKeepsInv(s, planId, revision, targetId, choices);
    case Deploy(op, planId, request) => DeployKeepsInv(s, op, planId, request);
    case DeployInspected(op, inspected, newJobId) =>
      if op in s.operations && s.operations[op].Deploying? {
        DeployInspectedKeepsInv(s, op, inspected, newJobId);
      }
    case DeploySavePlan(op) => OwnedStepKeepsInv(s, step);
    case TopicRepairStart(op, planId, revision, targetId) => TopicRepairStartKeepsInv(s, op, planId, revision, targetId);
    case TopicRepairFinish(op, jobId, choices) => OwnedStepKeepsInv(s, step);
    case RepairStart(op, planId) => RepairStartKeepsInv(s, op, planId);
    case RepairLink(op, targetId, jobId) => RepairLinkKeepsInv(s, op, targetId, jobId);
    case LinkRepair(planId, targetId, jobId) =>
      if planId !in s.busy {
        FreeHasNoHolder(s, planId);
        LinkKeepsInv(s, planId, targetId, jobId);
      }
    case Abandon(op) =>
      if op in s.operations {
        FinishKeepsInv(s, op);
      }
    case DirectJob(newJobId, requestId) => DirectJobKeepsInv(s, newJobId, requestId);
    case Crash => CrashKeepsInv(s);
  }

  /** The plan that a step saves in the name of the operation it ends, if it saves one. */
  ghost function SavedBy(s: System, step: Step): Option<Plan> {
    match step
    case CreateFinish(op, inspected, runId) =>
      if op in s.operations && s.operations[op].Creating? && Inspects(s.operations[op].draft, inspected)
      then Some(inspected.(readinessRun := Some(ReadinessRun(runId, Complete)))) else None
    case RecheckFinish(op, inspected) =>
      if op in s.operations && s.operations[op].Rechecking? && Inspects(s.operations[op].pending, inspected)
      then Some(WithRunStatus(inspected, Complete)) else None
    case RecheckFail(op) =>
      if op in s.operations && s.operations[op].Rechecking? then Some(WithRunStatus(s.operations[op].pending, Stopped)) else None
    case DeploySavePlan(op) =>
      if op in s.operations && s.operations[op].Saving? then Some(s.operations[op].refreshed) else None
    case TopicRepairFinish(op, jobId, choices) =>
      if op in s.operations && s.operations[op].TopicRepairing? then
        var TopicRepairing(plan, targetId) := s.operations[op];
        Some(LinkedPlan(plan.(destinations := ReplaceChoices(plan.destinations, targetId, choices)), targetId, jobId))
      else None
    case _ => None
  }

  ghost predicate EndsOperation(step: Step) {
    step.CreateFinish? || step.RecheckFinish? || step.RecheckFail? || step.DeploySavePlan? || step.TopicRepairFinish?
  }

  /** Such a step saves its plan and gives the lock back, gives the lock back only, or does nothing. */
  lemma OwnedStepSaves(s: System, step: Step)
    requires EndsOperation(step)
    ensures match SavedBy(s, step)
            case None => Do(s, step) == s
            case Some(plan) => step.op in s.operations && (Do(s, step) == SaveAndFinish(s, step.op, plan) || Do(s, step) == Finish(s, step.op))
  {
    hide Inspects, SaveAndFinish, Finish, StillPending, WithRunStatus, LinkedPlan, ReplaceChoices;
  }

  /** The plan is the one whose lock the operation holds. */
  lemma SavedIsOwned(s: System, step: Step)
    requires EndsOperation(step) && SavedBy(s, step).Some? && step.op in s.operations
    requires OperationOk(s.plans, s.ledger, s.operations[step.op])
    ensures var plan, operation := SavedBy(s, step).value, s.operations[step.op];
            if operation.Creating? then plan.id == operation.draft.id && plan.requestId == operation.draft.requestId
            else operation.Lock() == plan.id && Lookup(s.plans, plan.id).Some? && Lookup(s.plans, plan.id).value.requestId == plan.requestId
  {
    hide Approved, Covers;
  }

  lemma OwnedStepKeepsInv(s: System, step: Step)
    requires Inv(s) && EndsOperation(step)
    ensures Inv(Do(s, step))
  {
    OwnedStepSaves(s, step);
    if SavedBy(s, step).Some? {
      assert OperationOk(s.plans, s.ledger, s.operations[step.op]);
      SavedIsOwned(s, step);
      hide Inv, OperationOk, SaveAndFinish, Finish, Do;
      FinishKeepsInv(s, step.op);
      SaveOwnedKeepsInv(s, step.op, SavedBy(s, step).value);
    }
  }

  lemma TopicRepairStartKeepsInv(s: System, op: nat, planId: Id, revision: nat, targetId: Id)
    requires Inv(s)
    ensures Inv(DoTopicRepairStart(s, op, planId, revision, targetId))
  {
    if Lookup(s.plans, planId).Some? {
      BeginKeepsInv(s, op, TopicRepairing(View(Lookup(s.plans, planId).value), targetId));
    }
  }

  lemma RepairStartKeepsInv(s: System, op: nat, planId: Id)
    requires Inv(s)
    ensures Inv(Do(s, RepairStart(op, planId)))
  {
    hide Inv, Begin;
    if Lookup(s.plans, planId).Some? {
      BeginKeepsInv(s, op, RepairSubmitting(planId));
    }
  }

  lemma RepairLinkKeepsInv(s: System, op: nat, targetId: Id, jobId: Id)
    requires Inv(s)
    ensures Inv(Do(s, RepairLink(op, targetId, jobId)))
  {
    hide DoLink, DoCreateStart, DoRecheckStart, DoUpdate, DoDeploy, DoDeployInspected, DoTopicRepairStart, SaveAndFinish, Finish,
         Begin, Inspects, StillPending, WithRunStatus, LinkedPlan, ReplaceChoices, UniqueIds, OneRequestEach, LedgerOk, Drafts,
         OperationOk, Locked;
    if op in s.operations && s.operations[op].RepairSubmitting? {
      assert s.operations[op].Lock() == s.operations[op].planId;
      OnlyHolder(s, op);
      hide Inv;
      LinkKeepsInv(s, s.operations[op].planId, targetId, jobId);
    }
  }

  lemma DirectJobKeepsInv(s: System, newJobId: Id, requestId: string)
    requires Inv(s)
    ensures Inv(Do(s, DirectJob(newJobId, requestId)))
  {
    var t := Do(s, DirectJob(newJobId, requestId));
    CanonicalIsFixed(requestId);
    hide Canonical;
    if t != s {
      var job := Job(newJobId, Canonical(requestId).value, None);
      forall o | o in t.operations
        ensures OperationOk(t.plans, t.ledger, t.operations[o])
      {
        NewJobKeepsOperation(s.plans, s.ledger, job, s.operations[o]);
      }
    }
  }

  lemma CrashKeepsInv(s: System)
    requires Inv(s)
    ensures Inv(Do(s, Crash)) && Started(Do(s, Crash))
  {}

  lemma {:induction false} RunKeepsInv(s: System, steps: seq<Step>)
    requires Inv(s)
    ensures Inv(Run(s, steps))
    decreases |steps|
  {
    if steps != [] {
      StepKeepsInv(s, steps[0]);
      RunKeepsInv(Do(s, steps[0]), steps[1..]);
    }
  }
}

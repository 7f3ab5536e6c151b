/** The deployment plan protocol: a durable plan store and job ledger, an in-memory set of locks that a
    crash loses, and operations that wait between their atomic sections. */
module DeploymentProtocol {
  import opened Options
  import opened RequestIdentity

  type Id = string
  /** A hash of some evidence; evidence is compared by comparing hashes. */
  type Hash = string

  const EVIDENCE_VERSION: nat := 6
  const MAX_PLANS: nat := 500

  datatype Status = Ready | ModelChangesRequired | Unverified | NeedsRecheck

  datatype Target = Target(id: Id, status: Status, modelHash: Option<Hash>, fingerprint: Option<Hash>,
                           deploymentJob: Option<Id>, repairJob: Option<Id>)

  /** A destination of the intent; `choices` stands for everything that was chosen for it. */
  datatype Destination = Destination(targetId: Id, choices: Hash)

  datatype Evidence = Evidence(sources: Hash, sourceModels: Hash, workbooks: Hash)

  datatype RunStatus = Running | Complete | Stopped
  datatype ReadinessRun = ReadinessRun(id: Id, status: RunStatus)

  datatype Plan = Plan(id: Id, revision: nat, requestId: Id, destinations: seq<Destination>, evidence: Evidence,
                       targets: seq<Target>, evidenceVersion: nat, packaged: bool, readinessRun: Option<ReadinessRun>)

  /** What a job records about the reviewed deployment it carries out. */
  datatype Deployment = Deployment(planId: Id, targets: seq<Id>, evidence: Evidence,
                                   modelHashes: map<Id, Hash>, fingerprints: map<Id, Hash>)

  datatype Job = Job(id: Id, requestId: Id, deployment: Option<Deployment>)

  datatype Request = Request(revision: nat, targetIds: seq<Id>, requestId: string, confirmed: bool)

  /** An operation that holds a lock while it waits, with what it remembers. */
  datatype Operation =
    | Creating(draft: Plan)
    | Rechecking(pending: Plan)
    | Deploying(plan: Plan, request: Request)
    | Saving(job: Job, refreshed: Plan, request: Request)
    | TopicRepairing(plan: Plan, targetId: Id)
    | RepairSubmitting(planId: Id)
  {
    function Lock(): Id {
      match this
      case Creating(draft) => draft.requestId
      case Rechecking(pending) => pending.id
      case Deploying(plan, _) => plan.id
      case Saving(_, refreshed, _) => refreshed.id
      case TopicRepairing(plan, _) => plan.id
      case RepairSubmitting(planId) => planId
    }
  }

  datatype System = System(plans: seq<Plan>, ledger: seq<Job>, busy: set<Id>, operations: map<nat, Operation>)

  // ---------- the plan store ----------

  function Lookup(plans: seq<Plan>, id: Id): (r: Option<Plan>)
    ensures r.Some? ==> r.value in plans && r.value.id == id
    ensures r.None? ==> forall p :: p in plans ==> p.id != id
  {
    if plans == [] then None
    else if plans[0].id == id then Some(plans[0])
    else Lookup(plans[1..], id)
  }

  /** Replaces the stored plan, or appends a new one while there is room. */
  function Save(plans: seq<Plan>, plan: Plan): Option<seq<Plan>> {
    if Lookup(plans, plan.id).None? then (if |plans| >= MAX_PLANS then None else Some(plans + [plan]))
    else Some(Replace(plans, plan))
  }

  function Replace(plans: seq<Plan>, plan: Plan): (r: seq<Plan>)
    ensures |r| == |plans|
  {
    if plans == [] then []
    else if plans[0].id == plan.id then [plan] + plans[1..]
    else [plans[0]] + Replace(plans[1..], plan)
  }

  function FindTarget(targets: seq<Target>, id: Id): (r: Option<Target>)
    ensures r.Some? ==> r.value in targets && r.value.id == id
    ensures r.None? ==> forall t :: t in targets ==> t.id != id
  {
    if targets == [] then None else if targets[0].id == id then Some(targets[0]) else FindTarget(targets[1..], id)
  }

  function FindDestination(destinations: seq<Destination>, id: Id): (r: Option<Destination>)
  {
    if destinations == [] then None
    else if destinations[0].targetId == id then Some(destinations[0])
    else FindDestination(destinations[1..], id)
  }

  function MapTargets(targets: seq<Target>, f: Target -> Target): (r: seq<Target>)
    ensures |r| == |targets| && forall i :: 0 <= i < |r| ==> r[i] == f(targets[i])
  {
    seq(|targets|, i requires 0 <= i < |targets| => f(targets[i]))
  }

  function NeedRecheck(targets: seq<Target>): seq<Target> {
    MapTargets(targets, (t: Target) => t.(status := NeedsRecheck))
  }

  /** What readers of a plan see: without a completed readiness run, or on an old evidence version,
      no destination is ready. */
  function View(plan: Plan): Plan {
    if plan.readinessRun.Some? && plan.readinessRun.value.status != Complete then plan.(targets := NeedRecheck(plan.targets))
    else if plan.evidenceVersion != EVIDENCE_VERSION then plan.(targets := NeedRecheck(plan.targets))
    else plan
  }

  // ---------- what an inspection may return ----------

  function TargetIds(targets: seq<Target>): seq<Id> {
    seq(|targets|, i requires 0 <= i < |targets| => targets[i].id)
  }

  function DestinationIds(destinations: seq<Destination>): seq<Id> {
    seq(|destinations|, i requires 0 <= i < |destinations| => destinations[i].targetId)
  }

  /** An inspection reads other systems. It returns the next revision of the plan it was given, at the
      current evidence version, with one target for each destination; what it found there is arbitrary. */
  predicate Inspects(plan: Plan, result: Plan) {
    && result.id == plan.id && result.revision == plan.revision + 1 && result.requestId == plan.requestId
    && result.packaged == plan.packaged && result.readinessRun == plan.readinessRun
    && result.evidenceVersion == EVIDENCE_VERSION
    && DestinationIds(result.destinations) == DestinationIds(plan.destinations)
    && TargetIds(result.targets) == DestinationIds(result.destinations)
    && (forall t :: t in result.targets && FindTarget(plan.targets, t.id).Some? ==>
          t.deploymentJob == FindTarget(plan.targets, t.id).value.deploymentJob)
  }

  // ---------- deployment requests ----------

  function IndexOfJob(ledger: seq<Job>, requestId: string, planId: Id): (r: Option<Job>)
    ensures r.Some? ==> r.value in ledger && r.value.requestId == requestId && r.value.deployment.Some?
                        && r.value.deployment.value.planId == planId
    ensures r.None? ==> forall j :: j in ledger && j.requestId == requestId && j.deployment.Some? ==> j.deployment.value.planId != planId
  {
    if ledger == [] then None
    else if ledger[0].requestId == requestId && ledger[0].deployment.Some? && ledger[0].deployment.value.planId == planId then
      Some(ledger[0])
    else IndexOfJob(ledger[1..], requestId, planId)
  }

  predicate Overlaps(a: seq<Id>, b: seq<Id>) {
    exists t :: t in a && t in b
  }

  /** The job deploys one of these destinations of the plan. */
  predicate Covers(job: Job, planId: Id, targetIds: seq<Id>) {
    job.deployment.Some? && job.deployment.value.planId == planId && Overlaps(job.deployment.value.targets, targetIds)
  }

  predicate Distinct(ids: seq<Id>) {
    forall i, j :: 0 <= i < j < |ids| ==> ids[i] != ids[j]
  }

  predicate SelectsFrom(plan: Plan, targetIds: seq<Id>) {
    targetIds != [] && Distinct(targetIds) && forall t :: t in targetIds ==> FindTarget(plan.targets, t).Some?
  }

  predicate SameSelection(a: seq<Id>, b: seq<Id>) {
    multiset(a) == multiset(b)
  }

  /** The checks a new deployment passes before anything is read again. */
  predicate Approved(plan: Plan, request: Request) {
    && SelectsFrom(plan, request.targetIds)
    && plan.revision == request.revision
    && (plan.packaged ==> request.confirmed)
    && plan.evidenceVersion == EVIDENCE_VERSION
    && forall t :: t in request.targetIds ==>
         FindTarget(plan.targets, t).value.status == Ready && FindTarget(plan.targets, t).value.deploymentJob.None?
  }

  /** The evidence approved and the evidence read again are the same for these destinations. */
  predicate Unchanged(plan: Plan, inspected: Plan, targetIds: seq<Id>) {
    && plan.evidence == inspected.evidence
    && forall t :: t in targetIds ==>
         && FindTarget(plan.targets, t).Some? && FindTarget(inspected.targets, t).Some?
         && FindTarget(inspected.targets, t).value.status == Ready
         && FindTarget(plan.targets, t).value.modelHash == FindTarget(inspected.targets, t).value.modelHash
         && FindTarget(plan.targets, t).value.fingerprint == FindTarget(inspected.targets, t).value.fingerprint
  }

  function SelectedIds(destinations: seq<Destination>, targetIds: seq<Id>): (r: seq<Id>)
    ensures forall t :: t in r ==> t in targetIds
  {
    if destinations == [] then []
    else (if destinations[0].targetId in targetIds then [destinations[0].targetId] else []) + SelectedIds(destinations[1..], targetIds)
  }

  /** The evidence is complete enough for a deployment record: every hash it needs is there. */
  predicate Recordable(plan: Plan, inspected: Plan, targetIds: seq<Id>) {
    forall t :: t in targetIds ==>
      && FindTarget(inspected.targets, t).Some?
      && FindTarget(inspected.targets, t).value.modelHash.Some?
      && (plan.packaged ==> FindTarget(inspected.targets, t).value.fingerprint.Some?)
  }

  function Record(plan: Plan, inspected: Plan, targetIds: seq<Id>): Deployment
    requires Recordable(plan, inspected, targetIds)
  {
    Deployment(plan.id, SelectedIds(plan.destinations, targetIds), inspected.evidence,
               map t | t in targetIds :: FindTarget(inspected.targets, t).value.modelHash.value,
               if plan.packaged then map t | t in targetIds :: FindTarget(inspected.targets, t).value.fingerprint.value else map[])
  }

  function Assign(plan: Plan, targetIds: seq<Id>, jobId: Id): Plan {
    plan.(targets := MapTargets(plan.targets, (t: Target) => if t.id in targetIds then t.(deploymentJob := Some(jobId)) else t))
  }

  /** After a refused dispatch, the selected destinations must be rechecked. */
  function Withdraw(plan: Plan, targetIds: seq<Id>): Plan {
    plan.(targets := MapTargets(plan.targets,
      (t: Target) => if t.id in targetIds && t.status == Ready then t.(status := NeedsRecheck) else t))
  }

  // ---------- steps ----------

  datatype Step =
    | CreateStart(op: nat, requestId: string, newId: Id, destinations: seq<Destination>)
    | CreateFinish(op: nat, inspected: Plan, runId: Id)
    | RecheckStart(op: nat, planId: Id, runId: Id)
    | RecheckFinish(op: nat, inspected: Plan)
    | RecheckFail(op: nat)
    | Update(planId: Id, revision: nat, targetId: Id, choices: Hash)
    | Deploy(op: nat, planId: Id, request: Request)
    | DeployInspected(op: nat, inspected: Plan, newJobId: Id)
    | DeploySavePlan(op: nat)
    | TopicRepairStart(op: nat, planId: Id, revision: nat, targetId: Id)
    | TopicRepairFinish(op: nat, jobId: Id, choices: Hash)
    | RepairStart(op: nat, planId: Id)
    | RepairLink(op: nat, targetId: Id, jobId: Id)
    | LinkRepair(planId: Id, targetId: Id, jobId: Id)
    | Abandon(op: nat)
    | DirectJob(newJobId: Id, requestId: string)
    | Crash

  function Begin(s: System, op: nat, operation: Operation): System {
    if op in s.operations || operation.Lock() in s.busy then s
    else s.(busy := s.busy + {operation.Lock()}, operations := s.operations[op := operation])
  }

  function Finish(s: System, op: nat): System
    requires op in s.operations
  {
    s.(busy := s.busy - {s.operations[op].Lock()}, operations := s.operations - {op})
  }

  /** Saves the plan if it can be saved, and gives the lock back either way. */
  function SaveAndFinish(s: System, op: nat, plan: Plan): System
    requires op in s.operations
  {
    var saved := Save(s.plans, plan);
    Finish(if saved.Some? then s.(plans := saved.value) else s, op)
  }

  function SaveNow(s: System, plan: Plan): System {
    var saved := Save(s.plans, plan);
    if saved.Some? then s.(plans := saved.value) else s
  }

  function DoCreateStart(s: System, op: nat, requestId: string, newId: Id, destinations: seq<Destination>): System {
    var canonical := Canonical(requestId);
    if canonical.None? || (exists p :: p in s.plans && p.requestId == canonical.value) then s
    else if Lookup(s.plans, newId).Some? || (exists o :: o in s.operations && s.operations[o].Creating? && s.operations[o].draft.id == newId) then s
    else Begin(s, op, Creating(Plan(newId, 0, canonical.value, destinations, Evidence("", "", ""), [], 0, true, None)))
  }

  /** Starting a recheck revokes the old approval at once: the next revision, with nothing ready. */
  function PendingRecheck(stored: Plan, runId: Id): Plan {
    var previous := View(stored);
    previous.(revision := previous.revision + 1, targets := NeedRecheck(previous.targets),
              readinessRun := Some(ReadinessRun(runId, Running)))
  }

  function DoRecheckStart(s: System, op: nat, planId: Id, runId: Id): System {
    var stored := Lookup(s.plans, planId);
    if stored.None? || op in s.operations || planId in s.busy then s
    else
      var pending := PendingRecheck(stored.value, runId);
      Begin(SaveNow(s, pending), op, Rechecking(pending))
  }

  /** The plan has not been written since this recheck began. */
  predicate StillPending(s: System, pending: Plan) {
    var current := Lookup(s.plans, pending.id);
    current.Some? && current.value.revision == pending.revision && current.value.readinessRun.Some? && pending.readinessRun.Some?
    && current.value.readinessRun.value.id == pending.readinessRun.value.id
  }

  function WithRunStatus(plan: Plan, status: RunStatus): Plan {
    if plan.readinessRun.None? then plan else plan.(readinessRun := Some(plan.readinessRun.value.(status := status)))
  }

  function ReplaceChoices(destinations: seq<Destination>, targetId: Id, choices: Hash): seq<Destination> {
    seq(|destinations|, i requires 0 <= i < |destinations| =>
      if destinations[i].targetId == targetId then destinations[i].(choices := choices) else destinations[i])
  }

  function DoUpdate(s: System, planId: Id, revision: nat, targetId: Id, choices: Hash): System {
    var stored := Lookup(s.plans, planId);
    if stored.None? || planId in s.busy then s
    else
      var plan := View(stored.value);
      var target := FindTarget(plan.targets, targetId);
      if plan.revision != revision || target.None? || FindDestination(plan.destinations, targetId).None? then s
      else if target.value.deploymentJob.Some? || target.value.repairJob.Some? || (exists j :: j in s.ledger && Covers(j, planId, [targetId])) then s
      else
        var destinations := ReplaceChoices(plan.destinations, targetId, choices);
        if destinations == plan.destinations then s
        else SaveNow(s, plan.(destinations := destinations, revision := plan.revision + 1,
                              targets := MapTargets(plan.targets, (t: Target) => if t.id == targetId then t.(status := NeedsRecheck) else t)))
  }

  datatype Answer = Refused | Replayed(job: Job) | Checked

  /** How a deployment request is answered when the plan is free. */
  function DeployAnswer(s: System, planId: Id, request: Request): Answer {
    var stored := Lookup(s.plans, planId);
    if stored.None? || planId in s.busy || !SelectsFrom(View(stored.value), request.targetIds) then Refused
    else
      var existing := IndexOfJob(s.ledger, request.requestId, planId);
      if existing.Some? then
        if SameSelection(existing.value.deployment.value.targets, request.targetIds) then Replayed(existing.value) else Refused
      else if exists j :: j in s.ledger && Covers(j, planId, request.targetIds) then Refused
      else if !Approved(View(stored.value), request) then Refused
      else Checked
  }

  function DoDeploy(s: System, op: nat, planId: Id, request: Request): System {
    match DeployAnswer(s, planId, request)
    case Refused => s
    case Replayed(job) => SaveNow(s, Assign(View(Lookup(s.plans, planId).value), request.targetIds, job.id))
    case Checked => Begin(s, op, Deploying(View(Lookup(s.plans, planId).value), request))
  }

  function DoDeployInspected(s: System, op: nat, inspected: Plan, newJobId: Id): System
    requires op in s.operations && s.operations[op].Deploying?
  {
    var Deploying(plan, request) := s.operations[op];
    if !Inspects(plan, inspected) then s
    else if !Unchanged(plan, inspected, request.targetIds) then SaveAndFinish(s, op, Withdraw(inspected, request.targetIds))
    else if !Recordable(plan, inspected, request.targetIds) || Canonical(request.requestId).None? then Finish(s, op)
    else
      var requestId := Canonical(request.requestId).value;
      if exists j :: j in s.ledger && (j.requestId == requestId || j.id == newJobId) then Finish(s, op)
      else
        var job := Job(newJobId, requestId, Some(Record(plan, inspected, request.targetIds)));
        s.(ledger := s.ledger + [job],
           operations := s.operations[op := Saving(job, Assign(inspected, request.targetIds, newJobId), request)])
  }

  function LinkedPlan(plan: Plan, targetId: Id, jobId: Id): Plan {
    plan.(revision := plan.revision + 1,
          targets := MapTargets(plan.targets, (t: Target) => if t.id == targetId then t.(repairJob := Some(jobId), status := NeedsRecheck) else t))
  }

  /** Links a repair job that matches the destination; linking the same job again changes nothing. */
  function DoLink(s: System, planId: Id, targetId: Id, jobId: Id): System {
    var stored := Lookup(s.plans, planId);
    if stored.None? then s
    else
      var target := FindTarget(stored.value.targets, targetId);
      if target.None? || target.value.repairJob.Some? then s
      else SaveNow(s, LinkedPlan(View(stored.value), targetId, jobId))
  }

  function DoTopicRepairStart(s: System, op: nat, planId: Id, revision: nat, targetId: Id): System {
    var stored := Lookup(s.plans, planId);
    if stored.None? then s
    else
      var plan := View(stored.value);
      var target := FindTarget(plan.targets, targetId);
      if plan.revision != revision || target.None? || target.value.deploymentJob.Some? || target.value.repairJob.Some? then s
      else Begin(s, op, TopicRepairing(plan, targetId))
  }

  /** One atomic section. A step that is refused, or does not apply, leaves the system as it was. */
  function Do(s: System, step: Step): System {
    match step
    case CreateStart(op, requestId, newId, destinations) => DoCreateStart(s, op, requestId, newId, destinations)
    case CreateFinish(op, inspected, runId) =>
      if op !in s.operations || !s.operations[op].Creating? || !Inspects(s.operations[op].draft, inspected) then s
      else SaveAndFinish(s, op, inspected.(readinessRun := Some(ReadinessRun(runId, Complete))))
    case RecheckStart(op, planId, runId) => DoRecheckStart(s, op, planId, runId)
    case RecheckFinish(op, inspected) =>
      if op !in s.operations || !s.operations[op].Rechecking? || !Inspects(s.operations[op].pending, inspected) then s
      else if !StillPending(s, s.operations[op].pending) then Finish(s, op)
      else SaveAndFinish(s, op, WithRunStatus(inspected, Complete))
    case RecheckFail(op) =>
      if op !in s.operations || !s.operations[op].Rechecking? then s
      else if !StillPending(s, s.operations[op].pending) then Finish(s, op)
      else SaveAndFinish(s, op, WithRunStatus(s.operations[op].pending, Stopped))
    case Update(planId, revision, targetId, choices) => DoUpdate(s, planId, revision, targetId, choices)
    case Deploy(op, planId, request) => DoDeploy(s, op, planId, request)
    case DeployInspected(op, inspected, newJobId) =>
      if op !in s.operations || !s.operations[op].Deploying? then s else DoDeployInspected(s, op, inspected, newJobId)
    case DeploySavePlan(op) =>
      if op !in s.operations || !s.operations[op].Saving? then s else SaveAndFinish(s, op, s.operations[op].refreshed)
    case TopicRepairStart(op, planId, revision, targetId) => DoTopicRepairStart(s, op, planId, revision, targetId)
    case TopicRepairFinish(op, jobId, choices) =>
      if op !in s.operations || !s.operations[op].TopicRepairing? then s
      else
        var TopicRepairing(plan, targetId) := s.operations[op];
        SaveAndFinish(s, op, LinkedPlan(plan.(destinations := ReplaceChoices(plan.destinations, targetId, choices)), targetId, jobId))
    case RepairStart(op, planId) => if Lookup(s.plans, planId).None? then s else Begin(s, op, RepairSubmitting(planId))
    case RepairLink(op, targetId, jobId) =>
      if op !in s.operations || !s.operations[op].RepairSubmitting? then s else DoLink(s, s.operations[op].planId, targetId, jobId)
    case LinkRepair(planId, targetId, jobId) => if planId in s.busy then s else DoLink(s, planId, targetId, jobId)
    case Abandon(op) => if op !in s.operations || s.operations[op].Rechecking? then s else Finish(s, op)
    case DirectJob(newJobId, requestId) =>
      var canonical := Canonical(requestId);
      if canonical.None? || (exists j :: j in s.ledger && (j.requestId == canonical.value || j.id == newJobId)) then s
      else s.(ledger := s.ledger + [Job(newJobId, canonical.value, None)])
    case Crash => s.(busy := {}, operations := map[])
  }

  /** A run: atomic sections in any order. */
  function Run(s: System, steps: seq<Step>): System
    decreases |steps|
  {
    if steps == [] then s else Run(Do(s, steps[0]), steps[1..])
  }
}

/** Requests for readiness reports as they interleave: served from the cache, joined to a build under way, or
    starting one. A step is what happens between two awaits. */
module ReadinessRequests {
  import opened Options
  import opened ReadinessCache

  /** How a build ended: a new report, the entry it fell back to, or an error. */
  datatype Result = Building | Refreshed(report: Report) | FellBack(entry: Entry) | Threw

  /** A build, with the clock and the cache entry its leader saw at the start. */
  datatype Task = Task(key: string, now: int, freshMs: nat, staleMs: nat, existing: Option<Entry>, result: Result)

  /** What a request was given: an entry, or the result of a build it leads or joins. `now` is its own clock, and
      `existing` the entry that it found at its clock. */
  datatype Reply =
    | FromCache(key: string, now: int, entry: Entry)
    | FromTask(key: string, now: int, existing: Option<Entry>, task: nat)

  datatype State = State(cache: seq<Entry>, inFlight: map<string, nat>, tasks: seq<Task>, replies: seq<Reply>)

  const Initial := State([], map[], [], [])

  /** The time an entry is fresh and the time it may be used at all, the second at least the first. */
  datatype Step =
    | Ask(key: string, now: int, freshMs: nat, staleMs: nat)
    | Finish(task: nat, built: Option<Report>)
    | Leave(task: nat)

  predicate Enabled(s: State, step: Step) {
    match step
    case Ask(_, _, freshMs, staleMs) => freshMs <= staleMs
    case Finish(id, _) => id < |s.tasks| && s.tasks[id].result.Building?
    case Leave(id) => id < |s.tasks| && !s.tasks[id].result.Building?
  }

  function EntryOf(t: Task, report: Report): Entry {
    Entry(t.key, t.now + t.freshMs, t.now + t.staleMs, report.(servedFromCache := false))
  }

  /** The end of a build: None when it threw. */
  function ResultOf(t: Task, built: Option<Report>): Result {
    var usable := t.existing.Some? && t.now <= t.existing.value.staleUntil;
    match built
    case Some(report) =>
      if usable && ShouldUseStale(t.existing.value.report, report) then FellBack(t.existing.value) else Refreshed(report)
    case None => if usable then FellBack(t.existing.value) else Threw
  }

  function Do(s: State, step: Step): State
    requires Enabled(s, step)
  {
    match step
    case Ask(key, now, freshMs, staleMs) =>
      var cache := Pruned(s.cache, now);
      var existing := Find(cache, key);
      if existing.Some? && now <= existing.value.freshUntil then
        s.(cache := cache, replies := s.replies + [FromCache(key, now, existing.value)])
      else if key in s.inFlight then
        s.(cache := cache, replies := s.replies + [FromTask(key, now, existing, s.inFlight[key])])
      else
        State(cache, s.inFlight[key := |s.tasks|],
              s.tasks + [Task(key, now, freshMs, staleMs, existing, Building)],
              s.replies + [FromTask(key, now, existing, |s.tasks|)])
    case Finish(id, built) =>
      var t := s.tasks[id];
      var result := ResultOf(t, built);
      s.(tasks := s.tasks[id := t.(result := result)],
         cache := if result.Refreshed? then Stored(s.cache, EntryOf(t, result.report)) else s.cache)
    case Leave(id) =>
      var key := s.tasks[id].key;
      if key in s.inFlight && s.inFlight[key] == id then s.(inFlight := s.inFlight - {key}) else s
  }

  /** Whether the steps can be taken one after the other. */
  predicate CanRun(s: State, steps: seq<Step>)
    decreases |steps|, 0
  {
    steps == [] || (CanRun(s, steps[..|steps| - 1]) && Enabled(Run(s, steps[..|steps| - 1]), steps[|steps| - 1]))
  }

  function Run(s: State, steps: seq<Step>): State
    requires CanRun(s, steps)
    decreases |steps|, 1
  {
    if steps == [] then s else Do(Run(s, steps[..|steps| - 1]), steps[|steps| - 1])
  }

  ghost predicate Reachable(s: State) {
    exists steps: seq<Step> :: CanRun(Initial, steps) && s == Run(Initial, steps)
  }

  // ---------- the invariant ----------

  /** Entry e was stored by build b, which read its report. */
  predicate StoredBy(tasks: seq<Task>, e: Entry, b: nat) {
    b < |tasks| && tasks[b].result.Refreshed? && e == EntryOf(tasks[b], tasks[b].result.report)
  }

  ghost predicate Genuine(tasks: seq<Task>, e: Entry) {
    exists b :: StoredBy(tasks, e, b)
  }

  /** Every build under way is the one recorded for its key. */
  predicate SingleFlight(s: State) {
    && (forall k :: k in s.inFlight ==> s.inFlight[k] < |s.tasks| && s.tasks[s.inFlight[k]].key == k)
    && (forall id :: 0 <= id < |s.tasks| && s.tasks[id].result.Building? ==>
          s.tasks[id].key in s.inFlight && s.inFlight[s.tasks[id].key] == id)
  }

  ghost predicate SoundTask(tasks: seq<Task>, t: Task) {
    && t.freshMs <= t.staleMs
    && (t.existing.Some? ==> t.existing.value.key == t.key && Genuine(tasks, t.existing.value))
    && (t.result.FellBack? ==> t.existing == Some(t.result.entry) && t.now <= t.result.entry.staleUntil)
  }

  ghost predicate SoundReply(tasks: seq<Task>, r: Reply) {
    match r
    case FromCache(key, now, e) => e.key == key && now <= e.freshUntil && Genuine(tasks, e)
    case FromTask(key, _, _, id) => id < |tasks| && tasks[id].key == key
  }

  ghost predicate Inv(s: State) {
    && Bounded(s.cache)
    && SingleFlight(s)
    && (forall e :: e in s.cache ==> Genuine(s.tasks, e))
    && (forall id :: 0 <= id < |s.tasks| ==> SoundTask(s.tasks, s.tasks[id]))
    && (forall i :: 0 <= i < |s.replies| ==> SoundReply(s.tasks, s.replies[i]))
  }

  /** Finished builds stay as they are, and the rest keep what they saw. */
  predicate TasksGrow(a: seq<Task>, b: seq<Task>) {
    && |a| <= |b|
    && (forall id :: 0 <= id < |a| ==> b[id].(result := a[id].result) == a[id])
    && (forall id :: 0 <= id < |a| && !a[id].result.Building? ==> b[id] == a[id])
  }

  lemma GenuineStays(a: seq<Task>, b: seq<Task>)
    requires TasksGrow(a, b)
    ensures forall e :: Genuine(a, e) ==> Genuine(b, e)
    ensures forall r :: SoundReply(a, r) ==> SoundReply(b, r)
    ensures forall t :: SoundTask(a, t) ==> SoundTask(b, t)
  {
    forall e | Genuine(a, e)
      ensures Genuine(b, e)
    {
      var i :| StoredBy(a, e, i);
      assert StoredBy(b, e, i);
    }
  }

  lemma StepGrowsTasks(s: State, step: Step)
    requires Enabled(s, step)
    ensures TasksGrow(s.tasks, Do(s, step).tasks)
  {}

  lemma AskKeepsSingleFlight(s: State, step: Step)
    requires SingleFlight(s) && Enabled(s, step) && step.Ask?
    ensures SingleFlight(Do(s, step))
  {}

  lemma AskKeepsInv(s: State, step: Step)
    requires Inv(s) && Enabled(s, step) && step.Ask?
    ensures Inv(Do(s, step))
  {
    var next := Do(s, step);
    PrunedKeeps(s.cache, step.now);
    StepGrowsTasks(s, step);
    GenuineStays(s.tasks, next.tasks);
    AskKeepsSingleFlight(s, step);
    assert step.key in s.inFlight ==> forall e :: SoundReply(s.tasks, FromTask(step.key, step.now, e, s.inFlight[step.key]));
    hide Genuine, DistinctKeys, Pruned, TasksGrow, SingleFlight;
    forall i | 0 <= i < |next.replies|
      ensures SoundReply(next.tasks, next.replies[i])
    {
      if i < |s.replies| {
        assert SoundReply(s.tasks, s.replies[i]);
      }
    }
  }

  lemma FinishKeepsInv(s: State, step: Step)
    requires Inv(s) && Enabled(s, step) && step.Finish?
    ensures Inv(Do(s, step))
  {
    hide Bounded, Stored, ShouldUseStale, TasksGrow, Find;
    var next, id := Do(s, step), step.task;
    StepGrowsTasks(s, step);
    GenuineStays(s.tasks, next.tasks);
    if next.tasks[id].result.Refreshed? {
      var e := EntryOf(s.tasks[id], next.tasks[id].result.report);
      StoredIsBounded(s.cache, e);
      assert StoredBy(next.tasks, e, id);
    }
    assert SoundTask(s.tasks, s.tasks[id]);
    forall i | 0 <= i < |next.tasks|
      ensures SoundTask(next.tasks, next.tasks[i])
    {
      if i != id {
        assert SoundTask(s.tasks, s.tasks[i]);
      }
    }
  }

  lemma StepKeepsInv(s: State, step: Step)
    requires Inv(s) && Enabled(s, step)
    ensures Inv(Do(s, step))
  {
    match step
    case Ask(_, _, _, _) => AskKeepsInv(s, step);
    case Finish(_, _) => FinishKeepsInv(s, step);
    case Leave(_) => {}
  }

  lemma {:induction false} RunKeepsInv(steps: seq<Step>)
    requires CanRun(Initial, steps)
    ensures Inv(Run(Initial, steps))
  {
    if steps != [] {
      RunKeepsInv(steps[..|steps| - 1]);
      StepKeepsInv(Run(Initial, steps[..|steps| - 1]), steps[|steps| - 1]);
    }
  }

  lemma ReachableKeepsInv(s: State)
    requires Reachable(s)
    ensures Inv(s)
  {
    var steps: seq<Step> :| CanRun(Initial, steps) && s == Run(Initial, steps);
    RunKeepsInv(steps);
  }

  lemma StepReaches(s: State, step: Step)
    requires Reachable(s) && Enabled(s, step)
    ensures Reachable(Do(s, step))
  {
    var steps: seq<Step> :| CanRun(Initial, steps) && s == Run(Initial, steps);
    assert (steps + [step])[..|steps|] == steps;
    assert CanRun(Initial, steps + [step]) && Run(Initial, steps + [step]) == Do(s, step);
  }

  // ---------- main results ----------

  /** However requests interleave, at most one build a key is under way, and the cache has one entry a key and at most 200. */
  lemma OneBuildPerKey(s: State, i: nat, j: nat)
    requires Reachable(s)
    requires i < |s.tasks| && j < |s.tasks| && s.tasks[i].result.Building? && s.tasks[j].result.Building? && s.tasks[i].key == s.tasks[j].key
    ensures i == j
  {
    ReachableKeepsInv(s);
  }

  lemma CacheIsBounded(s: State)
    requires Reachable(s)
    ensures |s.cache| <= 200 && DistinctKeys(s.cache)
  {
    ReachableKeepsInv(s);
  }

  /** A stale answer repeats what an earlier build of the same key read, and at its leader's clock that build's
      deadline has not passed: falling back again and again never moves it. */
  lemma StaleIsWithinDeadline(s: State, id: nat) returns (b: nat)
    requires Reachable(s) && id < |s.tasks| && s.tasks[id].result.FellBack?
    ensures b < |s.tasks| && b != id && s.tasks[b].key == s.tasks[id].key && s.tasks[b].result.Refreshed?
    ensures s.tasks[id].now <= s.tasks[b].now + s.tasks[b].staleMs
    ensures s.tasks[id].result.entry.report == s.tasks[b].result.report.(servedFromCache := false)
  {
    ReachableKeepsInv(s);
    assert SoundTask(s.tasks, s.tasks[id]);
    b :| StoredBy(s.tasks, s.tasks[id].result.entry, b);
  }

  /** An answer from the cache is fresh at the clock of the request, counted from the build that read it. */
  lemma CachedIsFresh(s: State, i: nat) returns (b: nat)
    requires Reachable(s) && i < |s.replies| && s.replies[i].FromCache?
    ensures b < |s.tasks| && s.tasks[b].key == s.replies[i].key && s.tasks[b].result.Refreshed?
    ensures s.replies[i].now <= s.tasks[b].now + s.tasks[b].freshMs
    ensures s.replies[i].entry.report == s.tasks[b].result.report.(servedFromCache := false)
  {
    ReachableKeepsInv(s);
    assert SoundReply(s.tasks, s.replies[i]);
    b :| StoredBy(s.tasks, s.replies[i].entry, b);
  }

  /** No step moves a deadline: whatever is in the cache was there before, or was read by the build that ends now. */
  lemma DeadlinesNeverMove(s: State, step: Step, e: Entry)
    requires Inv(s) && Enabled(s, step) && e in Do(s, step).cache
    ensures e in s.cache || (step.Finish? && StoredBy(Do(s, step).tasks, e, step.task))
  {
    if step.Ask? {
      PrunedKeeps(s.cache, step.now);
    } else if step.Finish? && Do(s, step).tasks[step.task].result.Refreshed? {
      StoredIsBounded(s.cache, EntryOf(s.tasks[step.task], Do(s, step).tasks[step.task].result.report));
    }
  }

  lemma Start() returns (s: State)
    ensures Reachable(s) && s == Initial
  {
    s := Initial;
    assert CanRun(Initial, []) && Run(Initial, []) == Initial;
  }

  lemma Reach(s: State, step: Step) returns (next: State)
    requires Reachable(s) && Enabled(s, step)
    ensures Reachable(next) && next == Do(s, step)
  {
    next := Do(s, step);
    StepReaches(s, step);
  }

  /** One build read a report at time 0, and nothing is under way. */
  lemma OneReportRead(key: string, report: Report, freshMs: nat, staleMs: nat) returns (s: State)
    requires freshMs <= staleMs
    ensures Reachable(s) && |s.tasks| == 1 && s.inFlight == map[]
    ensures s.cache == [Entry(key, freshMs, staleMs, report.(servedFromCache := false))]
  {
    hide Reachable, ShouldUseStale;
    s := Start();
    s := Reach(s, Ask(key, 0, freshMs, staleMs));
    assert s.tasks == [Task(key, 0, freshMs, staleMs, None, Building)] && s.cache == [] && s.inFlight == map[key := 0];
    hide Pruned, Find;
    var t := s.tasks[0];
    assert ResultOf(t, Some(report)) == Refreshed(report);
    assert Stored([], EntryOf(t, report)) == [EntryOf(t, report)];
    hide ShouldUseStale, Stored, ResultOf;
    s := Reach(s, Finish(0, Some(report)));
    s := Reach(s, Leave(0));
  }

  /** A second build starts at the deadline. */
  lemma LeaderAtDeadline(key: string, report: Report, freshMs: nat, staleMs: nat) returns (s: State, e: Entry)
    requires freshMs < staleMs
    ensures Reachable(s) && |s.tasks| == 2 && s.inFlight == map[key := 1]
    ensures s.tasks[1] == Task(key, staleMs, freshMs, staleMs, Some(e), Building) && s.cache == [e] && e.key == key && e.staleUntil == staleMs
  {
    hide Reachable, Pruned, Find, Do;
    s := OneReportRead(key, report, freshMs, staleMs);
    e := Entry(key, freshMs, staleMs, report.(servedFromCache := false));
    PruneOne(e, staleMs);
    AskStarts(s, Ask(key, staleMs, freshMs, staleMs));
    s := Reach(s, Ask(key, staleMs, freshMs, staleMs));
  }

  lemma AskStarts(s: State, step: Step)
    requires step.Ask? && step.key !in s.inFlight
    requires var e := Find(Pruned(s.cache, step.now), step.key); e.Some? ==> step.now > e.value.freshUntil
    requires Enabled(s, step)
    ensures var cache := Pruned(s.cache, step.now);
            && Do(s, step).cache == cache
            && Do(s, step).inFlight == s.inFlight[step.key := |s.tasks|]
            && Do(s, step).tasks == s.tasks + [Task(step.key, step.now, step.freshMs, step.staleMs, Find(cache, step.key), Building)]
  {}

  lemma PruneOne(e: Entry, now: int)
    ensures Pruned([e], now) == if now > e.staleUntil then [] else [e]
    ensures Find([e], e.key) == Some(e)
  {
    assert [e][..0] == [];
  }

  /** The deadline is the leader's: a request that joins its build later may be given a report past the deadline at
      its own clock. */
  lemma FollowerMayBeLate(key: string, report: Report, freshMs: nat, staleMs: nat) returns (s: State, reply: Reply)
    requires freshMs < staleMs
    ensures Reachable(s) && reply in s.replies
    ensures reply.FromTask? && reply.task < |s.tasks| && s.tasks[reply.task].result.FellBack?
    ensures reply.now > s.tasks[reply.task].result.entry.staleUntil
  {
    hide Reachable, Pruned, Stored;
    var e;
    s, e := LeaderAtDeadline(key, report, freshMs, staleMs);
    PruneOne(e, staleMs + 1);
    s := Reach(s, Ask(key, staleMs + 1, freshMs, staleMs));
    reply := FromTask(key, staleMs + 1, None, 1);
    assert s.replies[|s.replies| - 1] == reply;
    s := Reach(s, Finish(1, None));
  }
}

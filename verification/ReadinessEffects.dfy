/** What each request and each build leaves: who is served from the cache, who joins a build, who starts one, and what a
    build that ends gives to those who come next. */
module ReadinessEffects {
  import opened Options
  import opened ReadinessCache
  import opened ReadinessRequests

  // ---------- how a build ends ----------

  /** A build may fall back to this entry: its leader found it, and at the leader's clock it may still be used. */
  predicate InReserve(t: Task, e: Entry) {
    t.existing == Some(e) && t.now <= e.staleUntil
  }

  /** A build falls back exactly when there is an entry in reserve, and it threw or read a report that gives way to it. It
      fails exactly when it threw and there is none. Otherwise it ends with the report it read. */
  lemma FallsBackExactly(t: Task, built: Option<Report>)
    ensures forall e :: ResultOf(t, built) == FellBack(e) <==> InReserve(t, e) && (built.None? || GivesWay(e.report, built.value))
    ensures ResultOf(t, built) == Threw <==> built.None? && forall e :: !InReserve(t, e)
    ensures forall r :: ResultOf(t, built) == Refreshed(r) <==> built == Some(r) && forall e :: InReserve(t, e) ==> !GivesWay(e.report, r)
    ensures ResultOf(t, built) != Building
  {
    hide GivesWay, ShouldUseStale;
    if t.existing.Some? {
      assert t.now <= t.existing.value.staleUntil ==> InReserve(t, t.existing.value);
      if built.Some? {
        GivesWayExactly(t.existing.value.report, built.value);
      }
    }
  }

  // ---------- a request ----------

  /** The cache holds this entry for a request of the key at this time. */
  predicate Offers(s: State, key: string, now: int, e: Entry) {
    e in s.cache && e.key == key && now <= e.staleUntil
  }

  /** What a request finds in the cache. */
  predicate IsFound(s: State, key: string, now: int, found: Option<Entry>) {
    match found
    case Some(e) => Offers(s, key, now, e)
    case None => forall e :: e in s.cache ==> !Offers(s, key, now, e)
  }

  /** A request starts a build. */
  predicate Starts(s: State, next: State, step: Step, found: Option<Entry>)
    requires step.Ask?
  {
    var id := |s.tasks|;
    && next.replies == s.replies + [FromTask(step.key, step.now, found, id)]
    && next.tasks == s.tasks + [Task(step.key, step.now, step.freshMs, step.staleMs, found, Building)]
    && next.inFlight == s.inFlight[step.key := id]
  }

  /** A request is given one answer: the entry it found while that is fresh, otherwise the build of its key under way, and
      otherwise a build of its own. The cache loses what is past its deadline and nothing else. */
  lemma AskEffect(s: State, step: Step) returns (found: Option<Entry>)
    requires DistinctKeys(s.cache) && Enabled(s, step) && step.Ask?
    ensures IsFound(s, step.key, step.now, found)
    ensures var next := Do(s, step);
            && (forall e :: e in next.cache <==> e in s.cache && step.now <= e.staleUntil)
            && if found.Some? && step.now <= found.value.freshUntil then
                 next == s.(cache := next.cache, replies := s.replies + [FromCache(step.key, step.now, found.value)])
               else if step.key in s.inFlight then
                 next == s.(cache := next.cache, replies := s.replies + [FromTask(step.key, step.now, found, s.inFlight[step.key])])
               else Starts(s, next, step, found)
  {
    PrunedKeeps(s.cache, step.now);
    hide Pruned;
    found := Find(Pruned(s.cache, step.now), step.key);
  }

  // ---------- the end of a build ----------

  /** What a finished build leaves: its result, and its report in the cache if it ends with one, under deadlines counted
      from the clock of its leader. Of the other keys only the oldest give way, and only where there is no room. */
  lemma FinishEffect(s: State, step: Step)
    requires Bounded(s.cache) && Enabled(s, step) && step.Finish?
    ensures var next, t := Do(s, step), s.tasks[step.task];
            var result := ResultOf(t, step.built);
            && next == s.(cache := next.cache, tasks := s.tasks[step.task := t.(result := result)])
            && (!result.Refreshed? ==> next.cache == s.cache)
            && (result.Refreshed? ==>
                  && Find(next.cache, t.key) == Some(Entry(t.key, t.now + t.freshMs, t.now + t.staleMs, result.report.(servedFromCache := false)))
                  && (forall key :: key != t.key && |s.cache| < 200 ==> Find(next.cache, key) == Find(s.cache, key)))
  {
    var t := s.tasks[step.task];
    var result := ResultOf(t, step.built);
    hide ResultOf, Stored, Bounded, Find;
    if result.Refreshed? {
      var entry := EntryOf(t, result.report);
      StoredIsBounded(s.cache, entry);
      BoundedMeans(s.cache);
      forall key | key != t.key && |s.cache| < 200
        ensures Find(Stored(s.cache, entry), key) == Find(s.cache, key)
      {
        FindStored(s.cache, entry, key);
      }
    }
  }

  lemma BoundedMeans(entries: seq<Entry>)
    requires Bounded(entries)
    ensures DistinctKeys(entries)
  {}

  /** A finished build makes room for the next one of its key, and takes part in nothing else. */
  lemma LeaveEffect(s: State, step: Step)
    requires Inv(s) && Enabled(s, step) && step.Leave?
    ensures var next, key := Do(s, step), s.tasks[step.task].key;
            && next == s.(inFlight := next.inFlight)
            && (key in next.inFlight <==> key in s.inFlight && s.inFlight[key] != step.task)
            && (forall k :: k != key ==> (k in next.inFlight <==> k in s.inFlight))
            && (forall k :: k in next.inFlight ==> next.inFlight[k] == s.inFlight[k])
  {}

  // ---------- what comes next ----------

  /** A report that was read is what the next request of its key is given while it is fresh. */
  lemma ReportIsServedNext(s: State, id: nat, report: Report, ask: Step)
    requires Bounded(s.cache) && Enabled(s, Finish(id, Some(report))) && ask.Ask? && ask.freshMs <= ask.staleMs
    requires ResultOf(s.tasks[id], Some(report)) == Refreshed(report)
    requires ask.key == s.tasks[id].key && ask.now <= s.tasks[id].now + s.tasks[id].freshMs
    requires s.tasks[id].freshMs <= s.tasks[id].staleMs
    ensures var t, next := s.tasks[id], Do(Do(s, Finish(id, Some(report))), ask);
            next.replies == s.replies + [FromCache(t.key, ask.now, Entry(t.key, t.now + t.freshMs, t.now + t.staleMs, report.(servedFromCache := false)))]
  {
    hide ResultOf, Bounded, Find, Do, DistinctKeys, EntryOf;
    var t, step := s.tasks[id], Finish(id, Some(report));
    var finished := Do(s, step);
    FinishEffect(s, step);
    FinishKeepsBounded(s, step);
    BoundedMeans(finished.cache);
    var e := Entry(t.key, t.now + t.freshMs, t.now + t.staleMs, report.(servedFromCache := false));
    FoundIsIn(finished.cache, e);
    FreshIsServed(finished, ask, e);
  }

  lemma FreshIsServed(s: State, ask: Step, e: Entry)
    requires DistinctKeys(s.cache) && Enabled(s, ask) && ask.Ask?
    requires e in s.cache && e.key == ask.key && ask.now <= e.freshUntil && ask.now <= e.staleUntil
    ensures Do(s, ask).replies == s.replies + [FromCache(ask.key, ask.now, e)]
  {
    hide Do, DistinctKeys;
    var found := AskEffect(s, ask);
    assert Offers(s, ask.key, ask.now, e);
    if found.Some? {
      SameKeySameEntry(s.cache, found.value, e);
    }
  }

  lemma FinishKeepsBounded(s: State, step: Step)
    requires Bounded(s.cache) && Enabled(s, step) && step.Finish?
    ensures Bounded(Do(s, step).cache)
  {
    hide Bounded, Stored;
    if ResultOf(s.tasks[step.task], step.built).Refreshed? {
      StoredIsBounded(s.cache, EntryOf(s.tasks[step.task], ResultOf(s.tasks[step.task], step.built).report));
    }
  }

  lemma FoundIsIn(entries: seq<Entry>, e: Entry)
    requires Find(entries, e.key) == Some(e)
    ensures e in entries
  {}

  lemma SameKeySameEntry(entries: seq<Entry>, a: Entry, b: Entry)
    requires DistinctKeys(entries) && a in entries && b in entries && a.key == b.key
    ensures a == b
  {}

  /** After a build that failed has left, the next request of its key starts another, unless an earlier report is fresh. */
  lemma FailureIsTriedAgain(s: State, id: nat, ask: Step)
    requires Inv(s) && Enabled(s, Finish(id, None)) && ResultOf(s.tasks[id], None) == Threw
    requires ask.Ask? && ask.freshMs <= ask.staleMs && ask.key == s.tasks[id].key
    requires forall e :: e in s.cache && e.key == ask.key ==> ask.now > e.freshUntil
    ensures var failed := Do(s, Finish(id, None));
            && Enabled(failed, Leave(id))
            && var left := Do(failed, Leave(id)); exists found :: Starts(left, Do(left, ask), ask, found)
  {
    var step := Finish(id, None);
    var failed := Do(s, step);
    assert failed.tasks[id].result == Threw && failed.cache == s.cache && failed.inFlight == s.inFlight;
    FinishKeepsInv(s, step);
    hide ResultOf, Find;
    var left := Do(failed, Leave(id));
    LeaveEffect(failed, Leave(id));
    assert s.inFlight[ask.key] == id;
    StepKeepsInv(failed, Leave(id));
    hide Do, Inv;
    var found := AskEffect(left, ask);
    assert Starts(left, Do(left, ask), ask, found);
  }
}

/** When a request that joins a build is given a stale report in time, by its own clock. */
module ReadinessFollowers {
  import opened Options
  import opened ReadinessCache
  import opened ReadinessRequests

  /** Clocks do not go back, and the cache always has room. */
  ghost predicate Orderly(steps: seq<Step>)
    requires CanRun(Initial, steps)
    decreases |steps|
  {
    steps != [] ==>
      var front, last := steps[..|steps| - 1], steps[|steps| - 1];
      && Orderly(front)
      && |Run(Initial, front).cache| < MAX_CACHE_ENTRIES
      && (last.Ask? ==> forall i :: 0 <= i < |front| && front[i].Ask? ==> front[i].now <= last.now)
  }

  /** Some request came after this time. */
  predicate Passed(steps: seq<Step>, time: int) {
    exists i :: 0 <= i < |steps| && steps[i].Ask? && steps[i].now > time
  }

  /** The entry a build may fall back to is still the one of its key, or it is gone as its deadline has passed. */
  predicate Keeps(cache: seq<Entry>, steps: seq<Step>, e: Entry) {
    Find(cache, e.key) == Some(e) || (Find(cache, e.key).None? && Passed(steps, e.staleUntil))
  }

  /** A build that has not read a new report, and the entry that its leader found. */
  predicate MayFallBackTo(t: Task, e: Entry) {
    !t.result.Refreshed? && t.existing == Some(e)
  }

  ghost predicate KeepsAll(s: State, steps: seq<Step>) {
    forall k, e :: k in s.inFlight && s.inFlight[k] < |s.tasks| && MayFallBackTo(s.tasks[s.inFlight[k]], e) ==> Keeps(s.cache, steps, e)
  }

  ghost predicate TimelyReply(tasks: seq<Task>, r: Reply) {
    r.FromTask? && r.task < |tasks| ==>
      forall e :: MayFallBackTo(tasks[r.task], e) ==> (r.now > e.staleUntil <==> r.existing.None?)
  }

  ghost predicate Timely(s: State) {
    forall i :: 0 <= i < |s.replies| ==> TimelyReply(s.tasks, s.replies[i])
  }

  lemma PassedGrows(steps: seq<Step>, step: Step, time: int)
    ensures Passed(steps + [step], time) <==> Passed(steps, time) || (step.Ask? && step.now > time)
  {
    var all := steps + [step];
    assert all[|steps|] == step;
    assert forall i :: 0 <= i < |steps| ==> all[i] == steps[i];
  }

  /** What a request of the key finds, if the build of the key may fall back to e. */
  lemma AskFinds(cache: seq<Entry>, steps: seq<Step>, e: Entry, now: int)
    requires DistinctKeys(cache) && Keeps(cache, steps, e)
    requires forall i :: 0 <= i < |steps| && steps[i].Ask? ==> steps[i].now <= now
    ensures Find(Pruned(cache, now), e.key).None? <==> now > e.staleUntil
  {
    FindPruned(cache, now, e.key);
    hide Find, Pruned;
  }

  lemma AskKeeps(cache: seq<Entry>, steps: seq<Step>, step: Step, e: Entry)
    requires DistinctKeys(cache) && Keeps(cache, steps, e) && step.Ask?
    ensures Keeps(Pruned(cache, step.now), steps + [step], e)
  {
    FindPruned(cache, step.now, e.key);
    PassedGrows(steps, step, e.staleUntil);
    hide Find, Pruned, Passed;
  }

  lemma AskKeepsTimely(s: State, steps: seq<Step>, step: Step)
    requires Inv(s) && Enabled(s, step) && step.Ask? && KeepsAll(s, steps) && Timely(s)
    requires forall i :: 0 <= i < |steps| && steps[i].Ask? ==> steps[i].now <= step.now
    ensures KeepsAll(Do(s, step), steps + [step]) && Timely(Do(s, step))
  {
    var next := Do(s, step);
    var cache := Pruned(s.cache, step.now);
    assert DistinctKeys(cache) by {
      PrunedKeeps(s.cache, step.now);
    }
    assert next.cache == cache;
    forall k, e | k in next.inFlight && next.inFlight[k] < |next.tasks| && MayFallBackTo(next.tasks[next.inFlight[k]], e)
      ensures Keeps(next.cache, steps + [step], e)
    {
      if k in s.inFlight && next.inFlight[k] == s.inFlight[k] {
        assert MayFallBackTo(s.tasks[s.inFlight[k]], e);
        AskKeeps(s.cache, steps, step, e);
      } else {
        assert e == Find(cache, step.key).value;
      }
    }
    forall i | 0 <= i < |next.replies|
      ensures TimelyReply(next.tasks, next.replies[i])
    {
      if i < |s.replies| {
        assert TimelyReply(s.tasks, s.replies[i]) && SoundReply(s.tasks, s.replies[i]);
      } else {
        NewReplyIsTimely(s, steps, step);
      }
    }
  }

  lemma NewReplyIsTimely(s: State, steps: seq<Step>, step: Step)
    requires Inv(s) && Enabled(s, step) && step.Ask? && KeepsAll(s, steps)
    requires forall i :: 0 <= i < |steps| && steps[i].Ask? ==> steps[i].now <= step.now
    ensures var next := Do(s, step); TimelyReply(next.tasks, next.replies[|s.replies|])
  {
    var next := Do(s, step);
    var r := next.replies[|s.replies|];
    var cache := Pruned(s.cache, step.now);
    if r.FromTask? {
      forall e | MayFallBackTo(next.tasks[r.task], e)
        ensures r.now > e.staleUntil <==> r.existing.None?
      {
        if step.key in s.inFlight {
          assert SoundTask(s.tasks, s.tasks[r.task]);
          AskFinds(s.cache, steps, e, step.now);
        } else {
          PrunedKeeps(s.cache, step.now);
        }
      }
    }
  }

  lemma FinishKeepsTimely(s: State, steps: seq<Step>, step: Step)
    requires Inv(s) && Enabled(s, step) && step.Finish? && KeepsAll(s, steps) && Timely(s) && |s.cache| < MAX_CACHE_ENTRIES
    ensures KeepsAll(Do(s, step), steps + [step]) && Timely(Do(s, step))
  {
    var next := Do(s, step);
    forall k, e | k in next.inFlight && next.inFlight[k] < |next.tasks| && MayFallBackTo(next.tasks[next.inFlight[k]], e)
      ensures Keeps(next.cache, steps + [step], e)
    {
      var id := s.inFlight[k];
      assert SoundTask(s.tasks, s.tasks[id]);
      assert Keeps(s.cache, steps, e);
      PassedGrows(steps, step, e.staleUntil);
      if next.tasks[step.task].result.Refreshed? {
        assert s.tasks[step.task].key != k;
        FindStored(s.cache, EntryOf(s.tasks[step.task], next.tasks[step.task].result.report), k);
      }
    }
    forall i | 0 <= i < |next.replies|
      ensures TimelyReply(next.tasks, next.replies[i])
    {
      assert TimelyReply(s.tasks, s.replies[i]) && SoundReply(s.tasks, s.replies[i]);
    }
  }

  lemma LeaveKeepsTimely(s: State, steps: seq<Step>, step: Step)
    requires Inv(s) && Enabled(s, step) && step.Leave? && KeepsAll(s, steps) && Timely(s)
    ensures KeepsAll(Do(s, step), steps + [step]) && Timely(Do(s, step))
  {
    hide Find;
    forall e | Keeps(s.cache, steps, e)
      ensures Keeps(s.cache, steps + [step], e)
    {
      PassedGrows(steps, step, e.staleUntil);
    }
  }

  lemma {:induction false} RunIsTimely(steps: seq<Step>)
    requires CanRun(Initial, steps) && Orderly(steps)
    ensures KeepsAll(Run(Initial, steps), steps) && Timely(Run(Initial, steps))
  {
    if steps != [] {
      var front, last := steps[..|steps| - 1], steps[|steps| - 1];
      var s := Run(Initial, front);
      assert steps == front + [last];
      RunIsTimely(front);
      RunKeepsInv(front);
      hide Run, Inv, KeepsAll, Timely;
      match last
      case Ask(_, _, _, _) => AskKeepsTimely(s, front, last);
      case Finish(_, _) => FinishKeepsTimely(s, front, last);
      case Leave(_) => LeaveKeepsTimely(s, front, last);
    }
  }

  /** When clocks do not go back and the cache has room, a stale report given to a request that leads or joins a build is
      past the deadline at the request's own clock exactly when the request found no entry of its key. */
  lemma FollowerIsLateIffNothingFound(steps: seq<Step>, i: nat)
    requires CanRun(Initial, steps) && Orderly(steps)
    requires var s := Run(Initial, steps);
             i < |s.replies| && s.replies[i].FromTask? && s.replies[i].task < |s.tasks| && s.tasks[s.replies[i].task].result.FellBack?
    ensures var s := Run(Initial, steps);
            var reply, e := s.replies[i], s.tasks[s.replies[i].task].result.entry;
            reply.now > e.staleUntil <==> reply.existing.None?
  {
    var s := Run(Initial, steps);
    RunIsTimely(steps);
    RunKeepsInv(steps);
    hide Run, KeepsAll;
    assert SoundTask(s.tasks, s.tasks[s.replies[i].task]);
    assert TimelyReply(s.tasks, s.replies[i]);
    assert MayFallBackTo(s.tasks[s.replies[i].task], s.tasks[s.replies[i].task].result.entry);
  }

  // ---------- whatever the clocks and the cache ----------

  /** While a build may fall back to an entry, the cache holds no other of its key. */
  ghost predicate NoOther(s: State) {
    forall k, e :: k in s.inFlight && s.inFlight[k] < |s.tasks| && MayFallBackTo(s.tasks[s.inFlight[k]], e) ==> OnlyEntry(s.cache, e)
  }

  predicate OnlyEntry(cache: seq<Entry>, e: Entry) {
    forall x :: x in cache && x.key == e.key ==> x == e
  }

  /** What the request found is the entry that the build may fall back to, and it was still within its deadline. */
  ghost predicate FoundInTime(tasks: seq<Task>, r: Reply) {
    r.FromTask? && r.task < |tasks| && r.existing.Some? ==>
      forall e :: MayFallBackTo(tasks[r.task], e) ==> r.existing == Some(e) && r.now <= e.staleUntil
  }

  ghost predicate AllFoundInTime(s: State) {
    forall i :: 0 <= i < |s.replies| ==> FoundInTime(s.tasks, s.replies[i])
  }

  lemma AskFindsInTime(s: State, step: Step)
    requires Inv(s) && Enabled(s, step) && step.Ask? && NoOther(s)
    ensures var next := Do(s, step); FoundInTime(next.tasks, next.replies[|s.replies|])
  {
    var next := Do(s, step);
    var r := next.replies[|s.replies|];
    PrunedKeeps(s.cache, step.now);
    hide Pruned, Bounded, SingleFlight, Genuine;
    if r.FromTask? && r.existing.Some? {
      forall e | MayFallBackTo(next.tasks[r.task], e)
        ensures r.existing == Some(e) && r.now <= e.staleUntil
      {
        assert step.key in s.inFlight ==> SoundTask(s.tasks, s.tasks[r.task]) && OnlyEntry(s.cache, e);
      }
    }
  }

  lemma AskKeepsOnly(s: State, step: Step)
    requires Inv(s) && Enabled(s, step) && step.Ask? && NoOther(s)
    ensures NoOther(Do(s, step))
  {
    var next := Do(s, step);
    PrunedKeeps(s.cache, step.now);
    hide Pruned, Bounded, SingleFlight, Genuine;
    forall k, e | k in next.inFlight && next.inFlight[k] < |next.tasks| && MayFallBackTo(next.tasks[next.inFlight[k]], e)
      ensures OnlyEntry(next.cache, e)
    {
      if k in s.inFlight && next.inFlight[k] == s.inFlight[k] {
        assert MayFallBackTo(s.tasks[s.inFlight[k]], e) && OnlyEntry(s.cache, e);
      } else {
        assert e in next.cache;
        FoundIsOnly(next.cache, e);
      }
    }
  }

  lemma FoundIsOnly(cache: seq<Entry>, e: Entry)
    requires DistinctKeys(cache) && e in cache
    ensures OnlyEntry(cache, e)
  {}

  lemma AskKeepsFound(s: State, step: Step)
    requires Inv(s) && Enabled(s, step) && step.Ask? && NoOther(s) && AllFoundInTime(s)
    ensures AllFoundInTime(Do(s, step))
  {
    hide Pruned, Bounded, SingleFlight, Genuine, NoOther, Find;
    var next := Do(s, step);
    forall i | 0 <= i < |next.replies|
      ensures FoundInTime(next.tasks, next.replies[i])
    {
      if i < |s.replies| {
        assert FoundInTime(s.tasks, s.replies[i]) && SoundReply(s.tasks, s.replies[i]);
      } else {
        AskFindsInTime(s, step);
      }
    }
  }

  lemma FinishKeepsOnly(s: State, step: Step)
    requires Inv(s) && Enabled(s, step) && step.Finish? && NoOther(s)
    ensures NoOther(Do(s, step))
  {
    hide Stored, Find, ShouldUseStale, Genuine;
    var next := Do(s, step);
    if next.tasks[step.task].result.Refreshed? {
      StoredIsBounded(s.cache, EntryOf(s.tasks[step.task], next.tasks[step.task].result.report));
    }
    hide Bounded;
    forall k, e | k in next.inFlight && next.inFlight[k] < |next.tasks| && MayFallBackTo(next.tasks[next.inFlight[k]], e)
      ensures OnlyEntry(next.cache, e)
    {
      var id := s.inFlight[k];
      assert SoundTask(s.tasks, s.tasks[id]) && MayFallBackTo(s.tasks[id], e) && OnlyEntry(s.cache, e);
      assert next.tasks[step.task].result.Refreshed? ==> s.tasks[step.task].key != k;
    }
  }

  lemma FinishKeepsFound(s: State, step: Step)
    requires Inv(s) && Enabled(s, step) && step.Finish? && AllFoundInTime(s)
    ensures AllFoundInTime(Do(s, step))
  {
    hide Stored, Find, ShouldUseStale, Bounded, Genuine, SingleFlight;
    var next := Do(s, step);
    forall i | 0 <= i < |next.replies|
      ensures FoundInTime(next.tasks, next.replies[i])
    {
      assert FoundInTime(s.tasks, s.replies[i]) && SoundReply(s.tasks, s.replies[i]);
    }
  }

  lemma {:induction false} RunFindsInTime(steps: seq<Step>)
    requires CanRun(Initial, steps)
    ensures NoOther(Run(Initial, steps)) && AllFoundInTime(Run(Initial, steps))
  {
    if steps != [] {
      var front, last := steps[..|steps| - 1], steps[|steps| - 1];
      var s := Run(Initial, front);
      RunFindsInTime(front);
      RunKeepsInv(front);
      hide Run, Inv;
      match last
      case Ask(_, _, _, _) =>
        AskKeepsOnly(s, last);
        AskKeepsFound(s, last);
      case Finish(_, _) =>
        FinishKeepsOnly(s, last);
        FinishKeepsFound(s, last);
      case Leave(_) =>
    }
  }

  /** In every run, a request that found an entry of its key and is given a stale report is given that entry, and within
      the deadline at the request's own clock: only a request that found nothing can be served late. */
  lemma FoundIsServedInTime(steps: seq<Step>, i: nat)
    requires CanRun(Initial, steps)
    requires var s := Run(Initial, steps);
             i < |s.replies| && s.replies[i].FromTask? && s.replies[i].task < |s.tasks| && s.tasks[s.replies[i].task].result.FellBack?
    ensures var s := Run(Initial, steps);
            var reply, e := s.replies[i], s.tasks[s.replies[i].task].result.entry;
            reply.existing.Some? ==> reply.existing == Some(e) && reply.now <= e.staleUntil
  {
    var s := Run(Initial, steps);
    RunFindsInTime(steps);
    RunKeepsInv(steps);
    hide Run, NoOther;
    assert SoundTask(s.tasks, s.tasks[s.replies[i].task]);
    assert FoundInTime(s.tasks, s.replies[i]);
    assert MayFallBackTo(s.tasks[s.replies[i].task], s.tasks[s.replies[i].task].result.entry);
  }
}

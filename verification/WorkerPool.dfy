/** The bounded worker pool: workers that claim indices from one counter, in any interleaving. */
module WorkerPool {
  /** A worker is about to claim, is mapping a value, or has ended: by running out of values, or by an error. */
  datatype Worker = Ready | Mapping(index: nat) | Returned | Threw

  /** `claims` lists the claims of values in their order. */
  datatype Pool<U> = Pool(next: nat, workers: seq<Worker>, output: map<nat, U>, claims: seq<nat>)

  function WorkerCount(values: nat, concurrency: int): nat {
    var limit := if concurrency > 1 then concurrency else 1;
    if values < limit then values else limit
  }

  function Start<U>(values: nat, concurrency: int): Pool<U> {
    Pool(0, seq(WorkerCount(values, concurrency), _ => Ready), map[], [])
  }

  /** What worker w does next: claim an index (or throw, once the request is aborted), or end its mapping. */
  datatype Step = Claim(w: nat) | Abort(w: nat) | Yield(w: nat) | Fail(w: nat)

  predicate Enabled<U>(p: Pool<U>, step: Step) {
    match step
    case Claim(w) => w < |p.workers| && p.workers[w].Ready?
    case Abort(w) => w < |p.workers| && p.workers[w].Ready?
    case Yield(w) => w < |p.workers| && p.workers[w].Mapping?
    case Fail(w) => w < |p.workers| && p.workers[w].Mapping?
  }

  /** `mapper` gives what the mapping of a value at an index yields when it succeeds. */
  function Do<T, U>(values: seq<T>, mapper: (T, nat) -> U, p: Pool<U>, step: Step): Pool<U>
    requires Enabled(p, step)
  {
    match step
    case Claim(w) =>
      if p.next < |values| then Pool(p.next + 1, p.workers[w := Mapping(p.next)], p.output, p.claims + [p.next])
      else p.(next := p.next + 1, workers := p.workers[w := Returned])
    case Abort(w) => p.(workers := p.workers[w := Threw])
    case Yield(w) =>
      var i := p.workers[w].index;
      if i < |values| then p.(workers := p.workers[w := Ready], output := p.output[i := mapper(values[i], i)]) else p
    case Fail(w) => p.(workers := p.workers[w := Threw])
  }

  predicate CanRun<T, U>(values: seq<T>, mapper: (T, nat) -> U, p: Pool<U>, steps: seq<Step>)
    decreases |steps|, 0
  {
    steps == []
    || (CanRun(values, mapper, p, steps[..|steps| - 1]) && Enabled(Run(values, mapper, p, steps[..|steps| - 1]), steps[|steps| - 1]))
  }

  function Run<T, U>(values: seq<T>, mapper: (T, nat) -> U, p: Pool<U>, steps: seq<Step>): Pool<U>
    requires CanRun(values, mapper, p, steps)
    decreases |steps|, 1
  {
    if steps == [] then p else Do(values, mapper, Run(values, mapper, p, steps[..|steps| - 1]), steps[|steps| - 1])
  }

  // ---------- the invariant ----------

  predicate InFlight<U>(p: Pool<U>, i: nat) {
    exists w :: 0 <= w < |p.workers| && p.workers[w] == Mapping(i)
  }

  predicate SomeoneThrew<U>(p: Pool<U>) {
    exists w :: 0 <= w < |p.workers| && p.workers[w].Threw?
  }

  /** Claimed so far. */
  function Claimed(values: nat, next: nat): nat {
    if next < values then next else values
  }

  /** Every claimed index is in flight or mapped, unless some worker threw; nothing else is. */
  ghost predicate Inv<T, U>(values: seq<T>, mapper: (T, nat) -> U, p: Pool<U>) {
    && p.claims == seq(Claimed(|values|, p.next), i => i)
    && (forall w :: 0 <= w < |p.workers| && p.workers[w].Mapping? ==> p.workers[w].index < Claimed(|values|, p.next))
    && (forall w, x :: 0 <= w < x < |p.workers| && p.workers[w].Mapping? ==> p.workers[w] != p.workers[x])
    && (forall i :: i in p.output ==> i < Claimed(|values|, p.next) && p.output[i] == mapper(values[i], i) && !InFlight(p, i))
    && (SomeoneThrew(p) || forall i: nat :: i < Claimed(|values|, p.next) ==> i in p.output || InFlight(p, i))
    && (forall w :: 0 <= w < |p.workers| && p.workers[w].Returned? ==> p.next > |values|)
  }

  lemma ClaimKeepsInv<T, U>(values: seq<T>, mapper: (T, nat) -> U, p: Pool<U>, w: nat)
    requires Inv(values, mapper, p) && Enabled(p, Claim(w))
    ensures Inv(values, mapper, Do(values, mapper, p, Claim(w)))
  {
    var n := Do(values, mapper, p, Claim(w));
    forall i: nat | InFlight(p, i)
      ensures InFlight(n, i)
    {
      var x :| 0 <= x < |p.workers| && p.workers[x] == Mapping(i);
      assert n.workers[x] == Mapping(i);
    }
    if p.next < |values| {
      assert n.workers[w] == Mapping(p.next);
    }
    if SomeoneThrew(p) {
      var x :| 0 <= x < |p.workers| && p.workers[x].Threw?;
      assert n.workers[x].Threw?;
    }
  }

  lemma YieldKeepsInv<T, U>(values: seq<T>, mapper: (T, nat) -> U, p: Pool<U>, w: nat)
    requires Inv(values, mapper, p) && Enabled(p, Yield(w))
    ensures Inv(values, mapper, Do(values, mapper, p, Yield(w)))
  {
    var n := Do(values, mapper, p, Yield(w));
    forall i: nat | InFlight(p, i) && p.workers[w] != Mapping(i)
      ensures InFlight(n, i)
    {
      var x :| 0 <= x < |p.workers| && p.workers[x] == Mapping(i);
      assert n.workers[x] == Mapping(i);
    }
    if SomeoneThrew(p) {
      var x :| 0 <= x < |p.workers| && p.workers[x].Threw?;
      assert n.workers[x].Threw?;
    }
  }

  lemma ThrowKeepsInv<T, U>(values: seq<T>, mapper: (T, nat) -> U, p: Pool<U>, step: Step)
    requires Inv(values, mapper, p) && Enabled(p, step) && (step.Abort? || step.Fail?)
    ensures Inv(values, mapper, Do(values, mapper, p, step))
  {
    var n := Do(values, mapper, p, step);
    assert n.workers[step.w].Threw?;
    assert forall i: nat :: InFlight(n, i) ==> InFlight(p, i);
  }

  lemma {:induction false} RunKeepsInv<T, U>(values: seq<T>, mapper: (T, nat) -> U, concurrency: int, steps: seq<Step>)
    requires CanRun(values, mapper, Start(|values|, concurrency), steps)
    ensures Inv(values, mapper, Run(values, mapper, Start(|values|, concurrency), steps))
    ensures |Run(values, mapper, Start(|values|, concurrency), steps).workers| == WorkerCount(|values|, concurrency)
  {
    if steps != [] {
      var front, last := steps[..|steps| - 1], steps[|steps| - 1];
      RunKeepsInv(values, mapper, concurrency, front);
      var p := Run(values, mapper, Start(|values|, concurrency), front);
      match last
      case Claim(w) => ClaimKeepsInv(values, mapper, p, w);
      case Yield(w) => YieldKeepsInv(values, mapper, p, w);
      case Abort(_) => ThrowKeepsInv(values, mapper, p, last);
      case Fail(_) => ThrowKeepsInv(values, mapper, p, last);
    }
  }

  // ---------- main results ----------

  /** In every interleaving each index is claimed once, in order, and at most the limit are in flight. */
  lemma ClaimsAreInOrder<T, U>(values: seq<T>, mapper: (T, nat) -> U, concurrency: int, steps: seq<Step>)
    requires CanRun(values, mapper, Start(|values|, concurrency), steps)
    ensures var p := Run(values, mapper, Start(|values|, concurrency), steps);
            && |p.claims| <= |values| && forall k :: 0 <= k < |p.claims| ==> p.claims[k] == k
  {
    RunKeepsInv(values, mapper, concurrency, steps);
  }

  /** The indices in flight; different workers are at different ones. */
  function InFlightSet<U>(p: Pool<U>, count: nat): set<nat>
    requires count <= |p.workers|
  {
    set w | 0 <= w < count && p.workers[w].Mapping? :: p.workers[w].index
  }

  lemma {:induction false} FewInFlight<U>(p: Pool<U>, count: nat)
    requires count <= |p.workers|
    ensures |InFlightSet(p, count)| <= count
  {
    if count > 0 {
      FewInFlight(p, count - 1);
      var w := p.workers[count - 1];
      assert InFlightSet(p, count) == InFlightSet(p, count - 1) + if w.Mapping? then {w.index} else {};
    }
  }

  lemma AtMostLimitInFlight<T, U>(values: seq<T>, mapper: (T, nat) -> U, concurrency: int, steps: seq<Step>)
    requires CanRun(values, mapper, Start(|values|, concurrency), steps)
    ensures var p := Run(values, mapper, Start(|values|, concurrency), steps);
            |InFlightSet(p, |p.workers|)| <= (if concurrency > 1 then concurrency else 1)
  {
    RunKeepsInv(values, mapper, concurrency, steps);
    var p := Run(values, mapper, Start(|values|, concurrency), steps);
    FewInFlight(p, |p.workers|);
  }

  /** Of n workers the first k have claimed, in order, and the others are about to. */
  predicate Claiming<U>(p: Pool<U>, n: nat, k: nat) {
    && p.next == k && |p.workers| == n
    && forall w :: 0 <= w < n ==> p.workers[w] == if w < k then Mapping(w) else Ready
  }

  lemma NextClaims<T, U>(values: seq<T>, mapper: (T, nat) -> U, p: Pool<U>, n: nat, k: nat)
    requires Claiming(p, n, k) && k < n <= |values|
    ensures Enabled(p, Claim(k)) && Claiming(Do(values, mapper, p, Claim(k)), n, k + 1)
  {}

  lemma OneStepMore<T, U>(values: seq<T>, mapper: (T, nat) -> U, p: Pool<U>, steps: seq<Step>, step: Step)
    requires CanRun(values, mapper, p, steps) && Enabled(Run(values, mapper, p, steps), step)
    ensures CanRun(values, mapper, p, steps + [step])
    ensures Run(values, mapper, p, steps + [step]) == Do(values, mapper, Run(values, mapper, p, steps), step)
  {
    assert (steps + [step])[..|steps|] == steps;
    hide Do;
  }

  lemma {:induction false} ClaimInTurn<T, U>(values: seq<T>, mapper: (T, nat) -> U, start: Pool<U>, n: nat, k: nat) returns (steps: seq<Step>)
    requires Claiming(start, n, 0) && k <= n <= |values|
    ensures CanRun(values, mapper, start, steps) && Claiming(Run(values, mapper, start, steps), n, k)
  {
    steps := [];
    if k > 0 {
      hide Claiming, Do;
      var front := ClaimInTurn(values, mapper, start, n, k - 1);
      NextClaims(values, mapper, Run(values, mapper, start, front), n, k - 1);
      OneStepMore(values, mapper, start, front, Claim(k - 1));
      steps := front + [Claim(k - 1)];
    }
  }

  /** The limit is reached: some run has as many indices in flight as there are values, up to the limit. */
  lemma LimitIsReached<T, U>(values: seq<T>, mapper: (T, nat) -> U, concurrency: int) returns (steps: seq<Step>)
    ensures CanRun(values, mapper, Start(|values|, concurrency), steps)
    ensures var p, limit := Run(values, mapper, Start(|values|, concurrency), steps), if concurrency > 1 then concurrency else 1;
            && |p.workers| == (if |values| < limit then |values| else limit)
            && forall w :: 0 <= w < |p.workers| ==> p.workers[w] == Mapping(w)
  {
    hide CanRun, Run;
    var n := WorkerCount(|values|, concurrency);
    assert Claiming<U>(Start(|values|, concurrency), n, 0);
    steps := ClaimInTurn(values, mapper, Start(|values|, concurrency), n, n);
  }

  /** The pool fails exactly when some worker was aborted or its mapping failed. */
  lemma {:induction false} FailsIffSomeStepFails<T, U>(values: seq<T>, mapper: (T, nat) -> U, concurrency: int, steps: seq<Step>)
    requires CanRun(values, mapper, Start(|values|, concurrency), steps)
    ensures SomeoneThrew(Run(values, mapper, Start(|values|, concurrency), steps))
            <==> exists k :: 0 <= k < |steps| && (steps[k].Abort? || steps[k].Fail?)
  {
    if steps != [] {
      var front, last := steps[..|steps| - 1], steps[|steps| - 1];
      FailsIffSomeStepFails(values, mapper, concurrency, front);
      var p := Run(values, mapper, Start(|values|, concurrency), front);
      ThrowsOn(values, mapper, p, last);
      assert forall k :: 0 <= k < |front| ==> steps[k] == front[k];
    }
  }

  lemma ThrowsOn<T, U>(values: seq<T>, mapper: (T, nat) -> U, p: Pool<U>, step: Step)
    requires Enabled(p, step)
    ensures SomeoneThrew(Do(values, mapper, p, step)) <==> SomeoneThrew(p) || step.Abort? || step.Fail?
  {
    var n := Do(values, mapper, p, step);
    if SomeoneThrew(p) {
      var w :| 0 <= w < |p.workers| && p.workers[w].Threw?;
      assert n.workers[w].Threw?;
    }
    if step.Abort? || step.Fail? {
      assert n.workers[step.w].Threw?;
    }
  }

  /** When every worker has returned, the output is the sequential map of the values, in their order. */
  lemma OutputIsSequentialMap<T, U>(values: seq<T>, mapper: (T, nat) -> U, concurrency: int, steps: seq<Step>)
    requires CanRun(values, mapper, Start(|values|, concurrency), steps)
    requires var p := Run(values, mapper, Start(|values|, concurrency), steps);
             forall w :: 0 <= w < |p.workers| ==> p.workers[w].Returned?
    ensures var p := Run(values, mapper, Start(|values|, concurrency), steps);
            p.output == map i: nat | i < |values| :: mapper(values[i], i)
  {
    RunKeepsInv(values, mapper, concurrency, steps);
    var p := Run(values, mapper, Start(|values|, concurrency), steps);
    assert |values| > 0 ==> p.workers[0].Returned?;
    assert !SomeoneThrew(p);
    forall i: nat | i < |values|
      ensures i in p.output
    {
      assert !InFlight(p, i);
    }
  }
}

/** Every root of a package is tried, whatever the others come to. */
module DependencyRoots {
  import opened Options
  import opened DependencyClosure
  import opened DependencyCycles

  /** The state before each root and after the last: each root is visited from where the one before it has left. */
  ghost predicate TriedInTurn(c: Catalog, roots: seq<Ref>, states: seq<State>) {
    && |states| == |roots| + 1 && states[0] == State({}, [], {})
    && forall i :: 0 <= i < |roots| ==> states[i + 1] == Visit(c, states[i], roots[i], 0).0
  }

  ghost predicate Fails(c: Catalog, roots: seq<Ref>, states: seq<State>, i: nat)
    requires i < |roots| && |states| == |roots| + 1
  {
    !Visit(c, states[i], roots[i], 0).1.Visited?
  }

  /** The positions of the failing roots, in order. */
  ghost predicate FailingRoots(c: Catalog, roots: seq<Ref>, states: seq<State>, failing: seq<nat>)
    requires |states| == |roots| + 1
  {
    && (forall k :: 0 <= k < |failing| ==> failing[k] < |roots|)
    && (forall j, k :: 0 <= j < k < |failing| ==> failing[j] < failing[k])
    && (forall i: nat :: i < |roots| ==> (i in failing <==> Fails(c, roots, states, i)))
  }

  /** The issues are those of the failing roots, one each and in their order. */
  ghost predicate IssuesOfRoots(c: Catalog, roots: seq<Ref>, states: seq<State>, failing: seq<nat>, issues: seq<Outcome>)
    requires |states| == |roots| + 1 && forall k :: 0 <= k < |failing| ==> failing[k] < |roots|
  {
    |issues| == |failing| && forall k :: 0 <= k < |failing| ==> issues[k] == Visit(c, states[failing[k]], roots[failing[k]], 0).1
  }

  lemma RootsGrowAtEnd(c: Catalog, st: State, roots: seq<Ref>, r: Ref)
    ensures var (before, issues) := VisitRoots(c, st, roots);
            var (after, out) := Visit(c, before, r, 0);
            VisitRoots(c, st, roots + [r]) == (after, issues + if out.Visited? then [] else [out])
    decreases |roots|
  {
    hide Visit;
    if roots == [] {
      var (after, out) := Visit(c, st, r, 0);
      var issues := if out.Visited? then [] else [out];
      assert ([] + [r])[1..] == [] && [] + [r] == [r];
      assert VisitRoots(c, after, []) == (after, []);
      assert issues + [] == issues && [] + issues == issues;
    } else {
      var (st1, out1) := Visit(c, st, roots[0], 0);
      assert (roots + [r])[1..] == roots[1..] + [r];
      RootsGrowAtEnd(c, st1, roots[1..], r);
      var (before, issues) := VisitRoots(c, st1, roots[1..]);
      var (after, out) := Visit(c, before, r, 0);
      var own, last := if out1.Visited? then [] else [out1], if out.Visited? then [] else [out];
      assert own + (issues + last) == (own + issues) + last;
    }
  }

  /** The visit of the roots by their turns. */
  lemma {:induction false} RootsInTurn(c: Catalog, roots: seq<Ref>) returns (states: seq<State>, failing: seq<nat>)
    ensures TriedInTurn(c, roots, states) && FailingRoots(c, roots, states, failing)
    ensures var (st, issues) := VisitRoots(c, State({}, [], {}), roots);
            st == states[|roots|] && IssuesOfRoots(c, roots, states, failing, issues)
    decreases |roots|
  {
    hide Visit;
    if roots == [] {
      states, failing := [State({}, [], {})], [];
    } else {
      var n := |roots| - 1;
      var front, r := roots[..n], roots[n];
      var before, failed := RootsInTurn(c, front);
      assert roots == front + [r];
      RootsGrowAtEnd(c, State({}, [], {}), front, r);
      hide VisitRoots, TriedInTurn, FailingRoots, IssuesOfRoots;
      states, failing := OneMoreRoot(c, front, r, before, failed, VisitRoots(c, State({}, [], {}), front).1);
    }
  }

  lemma OneMoreRoot(c: Catalog, roots: seq<Ref>, r: Ref, before: seq<State>, failed: seq<nat>, issues: seq<Outcome>)
    returns (states: seq<State>, failing: seq<nat>)
    requires TriedInTurn(c, roots, before) && FailingRoots(c, roots, before, failed) && IssuesOfRoots(c, roots, before, failed, issues)
    ensures states == before + [Visit(c, before[|roots|], r, 0).0]
    ensures TriedInTurn(c, roots + [r], states) && FailingRoots(c, roots + [r], states, failing)
    ensures var out := Visit(c, before[|roots|], r, 0).1;
            IssuesOfRoots(c, roots + [r], states, failing, issues + if out.Visited? then [] else [out])
  {
    assert |before| == |roots| + 1;
    hide *;
    var (after, out) := Visit(c, before[|roots|], r, 0);
    states := before + [after];
    failing := if out.Visited? then failed else failed + [|roots|];
    TriedMore(c, roots, r, before, after);
    FailingMore(c, roots, r, before, after, failed, failing);
    IssuesMore(c, roots, r, before, after, failed, failing, issues);
  }

  lemma TriedMore(c: Catalog, roots: seq<Ref>, r: Ref, before: seq<State>, after: State)
    requires TriedInTurn(c, roots, before) && after == Visit(c, before[|roots|], r, 0).0
    ensures TriedInTurn(c, roots + [r], before + [after])
  {
    hide Visit;
  }

  lemma FailingMore(c: Catalog, roots: seq<Ref>, r: Ref, before: seq<State>, after: State, failed: seq<nat>, failing: seq<nat>)
    requires |before| == |roots| + 1 && FailingRoots(c, roots, before, failed)
    requires failing == if Visit(c, before[|roots|], r, 0).1.Visited? then failed else failed + [|roots|]
    ensures FailingRoots(c, roots + [r], before + [after], failing)
  {
    hide Visit;
    var n, all, states := |roots|, roots + [r], before + [after];
    forall i: nat | i <= n
      ensures i in failing <==> Fails(c, all, states, i)
    {
      assert all[i] == (if i < n then roots[i] else r) && states[i] == before[i];
      assert i < n ==> (i in failed <==> Fails(c, roots, before, i));
      assert i in failing <==> i in failed || (i == n && !Visit(c, before[n], r, 0).1.Visited?);
    }
  }

  lemma IssuesMore(c: Catalog, roots: seq<Ref>, r: Ref, before: seq<State>, after: State, failed: seq<nat>, failing: seq<nat>,
                   issues: seq<Outcome>)
    requires |before| == |roots| + 1 && FailingRoots(c, roots, before, failed) && IssuesOfRoots(c, roots, before, failed, issues)
    requires failing == if Visit(c, before[|roots|], r, 0).1.Visited? then failed else failed + [|roots|]
    ensures forall k :: 0 <= k < |failing| ==> failing[k] < |roots + [r]|
    ensures var out := Visit(c, before[|roots|], r, 0).1;
            IssuesOfRoots(c, roots + [r], before + [after], failing, issues + if out.Visited? then [] else [out])
  {
    hide Visit, Fails;
    var all, states := roots + [r], before + [after];
    assert forall i :: 0 <= i < |roots| ==> all[i] == roots[i] && states[i] == before[i];
    assert issues + [] == issues;
  }

  lemma {:induction false} StatesGrow(c: Catalog, roots: seq<Ref>, states: seq<State>, i: nat, j: nat)
    requires TriedInTurn(c, roots, states) && i <= j <= |roots|
    ensures Sound(c, states[j]) && states[j].active == {} && states[i].seen <= states[j].seen
    decreases j
  {
    hide Visit;
    if j > 0 {
      StatesGrow(c, roots, states, if i < j then i else j - 1, j - 1);
      VisitGrows(c, states[j - 1], roots[j - 1], 0);
    }
  }

  /** Every root is tried in its turn: each is in the final `seen`, or has an issue of its own; what the defaults come to
      is added at the end. */
  lemma EveryRootIsTried(c: Catalog, roots: seq<Ref>, defaults: Scan) returns (states: seq<State>, failing: seq<nat>)
    ensures TriedInTurn(c, roots, states) && FailingRoots(c, roots, states, failing)
    ensures var (st, issues) := Plan(c, roots, defaults);
            && |failing| <= |issues| <= |failing| + 1 && IssuesOfRoots(c, roots, states, failing, issues[..|failing|])
            && forall i: nat :: i < |roots| && i !in failing ==> roots[i] in st.seen
  {
    states, failing := RootsInTurn(c, roots);
    var (st, issues) := Plan(c, roots, defaults);
    var n := |roots|;
    StatesGrow(c, roots, states, n, n);
    VisitAllGrows(c, states[n], defaults.refs, 0);
    var own := VisitRoots(c, State({}, [], {}), roots).1;
    assert issues[..|failing|] == own;
    forall i: nat | i < n && i !in failing
      ensures roots[i] in st.seen
    {
      StatesGrow(c, roots, states, i, i);
      VisitGrows(c, states[i], roots[i], 0);
      StatesGrow(c, roots, states, i + 1, n);
    }
  }

  // ---------- a root that can be read ----------

  /** Nothing fails at a field that cannot be read, nor at a cycle through other fields. */
  predicate StaysIn(fields: set<Ref>, out: Outcome) {
    !out.UnsupportedAt? && (out.CycleAt? ==> out.reference in fields)
  }

  lemma {:induction false} VisitStaysIn(c: Catalog, fields: set<Ref>, st: State, reference: Ref, depth: nat)
    requires depth <= MAX_DEPTH + 1 && Readable(c, fields) && reference in fields
    ensures StaysIn(fields, Visit(c, st, reference, depth).1)
    decreases MAX_DEPTH + 1 - depth, 2, 0
  {
    if reference in st.active || reference in st.seen || |st.seen| >= MAX_FIELDS || depth > MAX_DEPTH {
    } else {
      var field := c.field(reference).value;
      var st0 := st.(active := st.active + {reference});
      assert forall d :: d in field.definition.refs ==> Refers(c, reference, d);
      AllStayIn(c, fields, st0, field.definition.refs, depth + 1);
      var (st1, out1) := VisitAll(c, st0, field.definition.refs, depth + 1);
      if out1.Visited? {
        SettingsStayIn(c, fields, st1, reference, field.files, depth);
      }
    }
  }

  lemma {:induction false} AllStayIn(c: Catalog, fields: set<Ref>, st: State, refs: seq<Ref>, depth: nat)
    requires depth <= MAX_DEPTH + 1 && Readable(c, fields) && forall r :: r in refs ==> r in fields
    ensures StaysIn(fields, VisitAll(c, st, refs, depth).1)
    decreases MAX_DEPTH + 1 - depth, 3, |refs|
  {
    if refs != [] {
      VisitStaysIn(c, fields, st, refs[0], depth);
      var (st1, out1) := Visit(c, st, refs[0], depth);
      if out1.Visited? {
        AllStayIn(c, fields, st1, refs[1..], depth);
      }
    }
  }

  lemma {:induction false} InactiveStayIn(c: Catalog, fields: set<Ref>, st: State, refs: seq<Ref>, depth: nat)
    requires depth <= MAX_DEPTH + 1 && Readable(c, fields) && forall r :: r in refs ==> r in fields
    ensures StaysIn(fields, VisitInactive(c, st, refs, depth).1)
    decreases MAX_DEPTH + 1 - depth, 3, |refs|
  {
    if refs != [] {
      if refs[0] in st.active {
        InactiveStayIn(c, fields, st, refs[1..], depth);
      } else {
        VisitStaysIn(c, fields, st, refs[0], depth);
        var (st1, out1) := Visit(c, st, refs[0], depth);
        if out1.Visited? {
          InactiveStayIn(c, fields, st1, refs[1..], depth);
        }
      }
    }
  }

  lemma {:induction false} SettingsStayIn(c: Catalog, fields: set<Ref>, st: State, reference: Ref, files: seq<File>, depth: nat)
    requires depth <= MAX_DEPTH && Readable(c, fields) && reference in fields
    requires forall f :: f in files ==> f in c.field(reference).value.files
    ensures StaysIn(fields, ScanSettings(c, st, reference, files, depth).1)
    decreases MAX_DEPTH + 1 - depth, 1, |files|
  {
    if files != [] {
      if files[0] in st.settingsScanned {
        SettingsStayIn(c, fields, st, reference, files[1..], depth);
      } else {
        var st0 := st.(settingsScanned := st.settingsScanned + {files[0]});
        forall r | r in c.settings(files[0]).refs
          ensures r in fields
        {
          assert HasSetting(c, reference, r);
        }
        InactiveStayIn(c, fields, st0, c.settings(files[0]).refs, depth + 1);
        var (st1, out1) := VisitInactive(c, st0, c.settings(files[0]).refs, depth + 1);
        if out1.Visited? {
          SettingsStayIn(c, fields, st1, reference, files[1..], depth);
        }
      }
    }
  }

  /** A root from which references reach only fields that can be read and close no cycle is visited, whatever roots come
      before and after it, and whatever they come to, unless a limit is met. */
  lemma ReadableRootIsSeen(c: Catalog, roots: seq<Ref>, defaults: Scan, fields: set<Ref>, r: Ref)
    requires Readable(c, fields) && r in fields && r in roots && forall x :: x in fields ==> !ClosesByDefinition(c, x)
    requires forall x :: LimitAt(x) !in Plan(c, roots, defaults).1
    ensures r in Plan(c, roots, defaults).0.seen
  {
    hide Visit, Plan, Readable, ClosesByDefinition, Sound;
    var states, failing := EveryRootIsTried(c, roots, defaults);
    var i: nat :| i < |roots| && roots[i] == r;
    if i in failing {
      var k: nat :| k < |failing| && failing[k] == i;
      var out := Visit(c, states[i], r, 0).1;
      assert Plan(c, roots, defaults).1[k] == out && out in Plan(c, roots, defaults).1;
      VisitStaysIn(c, fields, states[i], r, 0);
      StatesGrow(c, roots, states, i, i);
      NoStack(c, states[i]);
      VisitCycle(c, states[i], r, 0, []);
    }
  }

  lemma NoStack(c: Catalog, st: State)
    requires st.active == {}
    ensures Stack(c, st, [])
  {}

  // ---------- the limits ----------

  /** Each field of the chain is defined by the next one alone. */
  ghost predicate Chained(c: Catalog, chain: seq<Ref>) {
    && (forall i, j :: 0 <= i < j < |chain| ==> chain[i] != chain[j])
    && (forall i :: 0 <= i < |chain| - 1 ==> c.field(chain[i]) == Some(Field(Scan([chain[i + 1]], false), [])))
  }

  /** Definitions are followed through 101 fields; the next one is too deep. */
  lemma {:induction false} DeepChainIsRefused(c: Catalog, chain: seq<Ref>, st: State, depth: nat)
    requires Chained(c, chain) && depth <= 101 && |chain| > 101 - depth && |st.seen| < 5000
    requires forall i :: 0 <= i < |chain| ==> chain[i] !in st.active && chain[i] !in st.seen
    ensures Visit(c, st, chain[0], depth).1 == LimitAt(chain[101 - depth])
    decreases 101 - depth
  {
    if depth < 101 {
      var rest, st0 := chain[1..], st.(active := st.active + {chain[0]});
      assert Chained(c, rest) by {
        assert forall i :: 0 <= i < |rest| ==> rest[i] == chain[i + 1];
      }
      DeepChainIsRefused(c, rest, st0, depth + 1);
      assert [rest[0]][1..] == [];
    }
  }

  /** A chain of 101 fields is visited from its end to its start. */
  lemma {:induction false} ShortChainIsVisited(c: Catalog, chain: seq<Ref>, st: State, depth: nat)
    requires Chained(c, chain) && 0 < |chain| <= 101 - depth && |st.seen| + |chain| <= 5000
    requires c.field(chain[|chain| - 1]) == Some(Field(Scan([], false), []))
    requires forall i :: 0 <= i < |chain| ==> chain[i] !in st.active && chain[i] !in st.seen
    ensures var (t, out) := Visit(c, st, chain[0], depth); out.Visited? && |t.seen| == |st.seen| + |chain| && st.seen <= t.seen
    decreases |chain|
  {
    var st0 := st.(active := st.active + {chain[0]});
    if |chain| > 1 {
      var rest := chain[1..];
      assert Chained(c, rest) by {
        assert forall i :: 0 <= i < |rest| ==> rest[i] == chain[i + 1];
      }
      ShortChainIsVisited(c, rest, st0, depth + 1);
      VisitOne(c, st0, rest[0], depth + 1);
    }
  }

  /** With 5,000 fields visited no other field is. */
  lemma FullClosureStops(c: Catalog, st: State, reference: Ref)
    requires |st.seen| >= 5000 && reference !in st.seen && reference !in st.active
    ensures Visit(c, st, reference, 0) == (st, LimitAt(reference))
  {}
}

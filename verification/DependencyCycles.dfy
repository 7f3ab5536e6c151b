/** When a package reports a cycle: exactly when references lead from some field to one that is defined by it, and the
    fields are visited in an order that finds out. */
module DependencyCycles {
  import opened Options
  import opened DependencyClosure

  // ---------- a field visited first ----------

  lemma RootComesLast(c: Catalog, r: Ref)
    requires Visit(c, State({}, [], {}), r, 0).1.Visited?
    ensures var seen := Visit(c, State({}, [], {}), r, 0).0.seen;
            seen != [] && seen[|seen| - 1] == r && r !in seen[..|seen| - 1]
  {
    var field := c.field(r).value;
    var st0 := State({r}, [], {});
    assert {} + {r} == {r};
    VisitAllGrows(c, st0, field.definition.refs, 1);
    var st1 := VisitAll(c, st0, field.definition.refs, 1).0;
    ScanSettingsGrows(c, st1, r, field.files, 0);
    var st2 := ScanSettings(c, st1, r, field.files, 0).0;
    assert r in st2.active;
  }

  lemma PlanOfOne(c: Catalog, r: Ref)
    ensures var (st, out) := Visit(c, State({}, [], {}), r, 0);
            Plan(c, [r], Scan([], false)) == (st, if out.Visited? then [] else [out])
  {
    var (st, out) := Visit(c, State({}, [], {}), r, 0);
    hide Visit;
    var issues := if out.Visited? then [] else [out];
    assert [r][1..] == [];
    assert VisitRoots(c, st, []) == (st, []);
    assert issues + [] == issues;
    assert VisitRoots(c, State({}, [], {}), [r]) == (st, issues);
    assert VisitAll(c, st, [], 0) == (st, Visited);
  }

  lemma {:induction false} ChainIsSeen(c: Catalog, seen: seq<Ref>, chain: seq<Ref>)
    requires ReferenceChain(c, chain) && chain[0] in seen && forall r, d :: r in seen && Refers(c, r, d) ==> d in seen
    ensures chain[|chain| - 1] in seen
    decreases |chain|
  {
    if |chain| > 1 {
      assert Refers(c, chain[0], chain[1]);
      ChainIsSeen(c, seen, chain[1..]);
    }
  }

  /** A field that closes a cycle by a definition is never visited when it comes first. */
  lemma ClosingFieldFails(c: Catalog, r: Ref)
    requires ClosesByDefinition(c, r)
    ensures !Visit(c, State({}, [], {}), r, 0).1.Visited?
  {
    PlanOfOne(c, r);
    if Visit(c, State({}, [], {}), r, 0).1.Visited? {
      RootComesLast(c, r);
      PlanWithoutIssuesIsComplete(c, [r], Scan([], false));
      PlanIsTopological(c, [r], Scan([], false));
      hide Visit, Plan;
      var seen := Plan(c, [r], Scan([], false)).0.seen;
      assert r in [r];
      var chain :| ReferenceChain(c, chain) && chain[0] == r && Defines(c, chain[|chain| - 1], r);
      ChainIsSeen(c, seen, chain);
      DefinedEarlier(c, seen, chain[|chain| - 1], r);
    }
  }

  lemma DefinedEarlier(c: Catalog, seen: seq<Ref>, r: Ref, d: Ref)
    requires (forall k: nat :: k < |seen| ==> DefinedBefore(c, seen, k)) && r in seen && Defines(c, r, d)
    ensures d in seen[..|seen| - 1]
  {
    var k := First(seen, r);
    assert DefinedBefore(c, seen, k);
    assert seen[..k] <= seen[..|seen| - 1];
  }

  // ---------- fields that can all be read ----------

  /** Every field has a definition that can be read, as can the settings of its files, and refers to none but these. */
  ghost predicate Readable(c: Catalog, fields: set<Ref>) {
    && (forall r :: r in fields ==> c.field(r).Some? && !c.field(r).value.definition.unsupported)
    && (forall r, f :: r in fields && f in c.field(r).value.files ==> !c.settings(f).unsupported)
    && (forall r, d :: r in fields && Refers(c, r, d) ==> d in fields)
  }

  predicate Distinct(s: seq<Ref>) {
    forall i, j :: 0 <= i < j < |s| ==> s[i] != s[j]
  }

  /** Visiting is among these fields, `depth` of which are being visited. */
  ghost predicate Among(c: Catalog, fields: set<Ref>, st: State, depth: nat) {
    && Sound(c, st) && Distinct(st.seen)
    && (forall r :: r in st.seen ==> r in fields)
    && st.active <= fields && |st.active| == depth
  }

  /** Nothing fails but for a cycle through one of these fields, or for a limit that is below their number. */
  predicate OnlyCycles(fields: set<Ref>, out: Outcome) {
    && !out.UnsupportedAt?
    && (out.CycleAt? ==> out.reference in fields)
    && (out.LimitAt? ==> |fields| > MAX_DEPTH + 1)
  }

  lemma {:induction false} DistinctFit(seen: seq<Ref>, fields: set<Ref>)
    requires Distinct(seen) && forall r :: r in seen ==> r in fields
    ensures |seen| <= |fields|
  {
    if seen != [] {
      DistinctFit(seen[1..], fields - {seen[0]});
    }
  }

  lemma SmallerSet(a: set<Ref>, b: set<Ref>)
    requires a <= b
    ensures |a| <= |b|
  {
    if a != {} {
      var x :| x in a;
      SmallerSet(a - {x}, b - {x});
    }
  }

  lemma NoLimit(c: Catalog, fields: set<Ref>, st: State, reference: Ref, depth: nat)
    requires Among(c, fields, st, depth) && reference in fields && reference !in st.active
    ensures |st.seen| >= MAX_FIELDS || depth > MAX_DEPTH ==> |fields| > MAX_DEPTH + 1
  {
    DistinctFit(st.seen, fields);
    SmallerSet(st.active + {reference}, fields);
  }

  lemma {:induction false} VisitAmong(c: Catalog, fields: set<Ref>, st: State, reference: Ref, depth: nat)
    requires depth <= MAX_DEPTH + 1 && Readable(c, fields) && Among(c, fields, st, depth) && reference in fields
    ensures Among(c, fields, Visit(c, st, reference, depth).0, depth)
    ensures OnlyCycles(fields, Visit(c, st, reference, depth).1)
    decreases MAX_DEPTH + 1 - depth, 2, 0
  {
    if reference in st.active || reference in st.seen {
    } else {
      NoLimit(c, fields, st, reference, depth);
      if |st.seen| < MAX_FIELDS && depth <= MAX_DEPTH {
        var field := c.field(reference).value;
        var st0 := st.(active := st.active + {reference});
        assert forall d :: d in field.definition.refs ==> Refers(c, reference, d);
        VisitAllAmong(c, fields, st0, field.definition.refs, depth + 1);
        VisitAllGrows(c, st0, field.definition.refs, depth + 1);
        var (st1, out1) := VisitAll(c, st0, field.definition.refs, depth + 1);
        if out1.Visited? {
          ScanSettingsAmong(c, fields, st1, reference, field.files, depth);
          ScanSettingsGrows(c, st1, reference, field.files, depth);
        }
        VisitGrows(c, st, reference, depth);
      }
    }
  }

  lemma {:induction false} VisitAllAmong(c: Catalog, fields: set<Ref>, st: State, refs: seq<Ref>, depth: nat)
    requires depth <= MAX_DEPTH + 1 && Readable(c, fields) && Among(c, fields, st, depth) && forall r :: r in refs ==> r in fields
    ensures Among(c, fields, VisitAll(c, st, refs, depth).0, depth)
    ensures OnlyCycles(fields, VisitAll(c, st, refs, depth).1)
    decreases MAX_DEPTH + 1 - depth, 3, |refs|
  {
    if refs != [] {
      VisitAmong(c, fields, st, refs[0], depth);
      var (st1, out1) := Visit(c, st, refs[0], depth);
      if out1.Visited? {
        VisitAllAmong(c, fields, st1, refs[1..], depth);
      }
    }
  }

  lemma {:induction false} VisitInactiveAmong(c: Catalog, fields: set<Ref>, st: State, refs: seq<Ref>, depth: nat)
    requires depth <= MAX_DEPTH + 1 && Readable(c, fields) && Among(c, fields, st, depth) && forall r :: r in refs ==> r in fields
    ensures Among(c, fields, VisitInactive(c, st, refs, depth).0, depth)
    ensures OnlyCycles(fields, VisitInactive(c, st, refs, depth).1)
    decreases MAX_DEPTH + 1 - depth, 3, |refs|
  {
    if refs != [] {
      if refs[0] in st.active {
        VisitInactiveAmong(c, fields, st, refs[1..], depth);
      } else {
        VisitAmong(c, fields, st, refs[0], depth);
        var (st1, out1) := Visit(c, st, refs[0], depth);
        if out1.Visited? {
          VisitInactiveAmong(c, fields, st1, refs[1..], depth);
        }
      }
    }
  }

  lemma {:induction false} ScanSettingsAmong(c: Catalog, fields: set<Ref>, st: State, reference: Ref, files: seq<File>, depth: nat)
    requires depth <= MAX_DEPTH && Readable(c, fields) && Among(c, fields, st, depth + 1) && reference in fields
    requires forall f :: f in files ==> f in c.field(reference).value.files
    ensures Among(c, fields, ScanSettings(c, st, reference, files, depth).0, depth + 1)
    ensures OnlyCycles(fields, ScanSettings(c, st, reference, files, depth).1)
    decreases MAX_DEPTH + 1 - depth, 1, |files|
  {
    if files != [] {
      if files[0] in st.settingsScanned {
        ScanSettingsAmong(c, fields, st, reference, files[1..], depth);
      } else {
        var st0 := st.(settingsScanned := st.settingsScanned + {files[0]});
        forall r | r in c.settings(files[0]).refs
          ensures r in fields
        {
          assert HasSetting(c, reference, r);
        }
        VisitInactiveAmong(c, fields, st0, c.settings(files[0]).refs, depth + 1);
        var (st1, out1) := VisitInactive(c, st0, c.settings(files[0]).refs, depth + 1);
        if out1.Visited? {
          ScanSettingsAmong(c, fields, st1, reference, files[1..], depth);
        }
      }
    }
  }

  lemma {:induction false} RootsAmong(c: Catalog, fields: set<Ref>, st: State, roots: seq<Ref>)
    requires Readable(c, fields) && Among(c, fields, st, 0) && forall r :: r in roots ==> r in fields
    ensures Among(c, fields, VisitRoots(c, st, roots).0, 0)
    ensures forall out :: out in VisitRoots(c, st, roots).1 ==> OnlyCycles(fields, out)
    decreases |roots|
  {
    if roots != [] {
      VisitAmong(c, fields, st, roots[0], 0);
      RootsAmong(c, fields, Visit(c, st, roots[0], 0).0, roots[1..]);
    }
  }

  // ---------- some order reports a cycle ----------

  function Members(roots: seq<Ref>): set<Ref> {
    set r | r in roots
  }

  /** A package whose roots are all its fields, and whose defaults refer to some of them. */
  ghost predicate Whole(c: Catalog, roots: seq<Ref>, defaults: Scan) {
    Readable(c, Members(roots)) && !defaults.unsupported && forall r :: r in defaults.refs ==> r in roots
  }

  predicate Reordered(a: seq<Ref>, b: seq<Ref>) {
    multiset(a) == multiset(b)
  }

  lemma SameRoots(a: seq<Ref>, b: seq<Ref>)
    requires Reordered(a, b)
    ensures forall r :: r in a <==> r in b
  {
    forall r
      ensures r in a <==> r in b
    {
      assert r in a <==> multiset(a)[r] > 0;
      assert r in b <==> multiset(b)[r] > 0;
    }
  }

  /** The limits play no part. */
  ghost predicate WithinLimits(c: Catalog, roots: seq<Ref>, defaults: Scan) {
    forall order, r :: Reordered(roots, order) ==> LimitAt(r) !in Plan(c, order, defaults).1
  }

  ghost predicate ReportsCycle(c: Catalog, roots: seq<Ref>, defaults: Scan, r: Ref) {
    CycleAt(r) in Plan(c, roots, defaults).1
  }

  lemma WholeOnlyCycles(c: Catalog, roots: seq<Ref>, defaults: Scan, order: seq<Ref>)
    requires Whole(c, roots, defaults) && Reordered(roots, order)
    ensures forall out :: out in Plan(c, order, defaults).1 ==> OnlyCycles(Members(roots), out)
  {
    hide Plan, Readable, Reordered, OnlyCycles;
    SameRoots(roots, order);
    RootsOnlyCycle(c, Members(roots), order, defaults);
  }

  /** No package of at most 101 fields meets a limit. */
  lemma FewFieldsAreWithinLimits(c: Catalog, roots: seq<Ref>, defaults: Scan)
    requires Whole(c, roots, defaults) && |Members(roots)| <= MAX_DEPTH + 1
    ensures WithinLimits(c, roots, defaults)
  {
    hide Plan, Whole, Reordered;
    forall order, r | Reordered(roots, order)
      ensures LimitAt(r) !in Plan(c, order, defaults).1
    {
      WholeOnlyCycles(c, roots, defaults, order);
    }
  }

  lemma FirstRootFails(c: Catalog, r: Ref, rest: seq<Ref>, defaults: Scan)
    requires !Visit(c, State({}, [], {}), r, 0).1.Visited?
    ensures Visit(c, State({}, [], {}), r, 0).1 in Plan(c, [r] + rest, defaults).1
  {
    hide Visit;
    assert ([r] + rest)[1..] == rest;
    var out := Visit(c, State({}, [], {}), r, 0).1;
    assert out == VisitRoots(c, State({}, [], {}), [r] + rest).1[0];
  }

  function PutFirst(roots: seq<Ref>, r: Ref): (order: seq<Ref>)
    requires r in roots
    ensures Reordered(roots, order)
  {
    var k := First(roots, r);
    assert roots == roots[..k] + [r] + roots[k + 1..];
    [r] + (roots[..k] + roots[k + 1..])
  }

  lemma ClosingFieldIsReported(c: Catalog, roots: seq<Ref>, defaults: Scan, r: Ref)
    requires Whole(c, roots, defaults) && WithinLimits(c, roots, defaults) && r in roots && ClosesByDefinition(c, r)
    ensures exists order, x :: Reordered(roots, order) && ReportsCycle(c, order, defaults, x)
  {
    hide Plan, Readable, Reordered, ClosesByDefinition;
    var order := PutFirst(roots, r);
    SameRoots(roots, order);
    ClosingRootReports(c, Members(roots), r, order[1..], defaults);
    assert order == [r] + order[1..];
  }

  /** Some order of the fields reports a cycle exactly when references lead from some field to one that is defined by it. */
  lemma SomeOrderReportsIffClosing(c: Catalog, roots: seq<Ref>, defaults: Scan)
    requires Whole(c, roots, defaults) && WithinLimits(c, roots, defaults)
    ensures (exists order, x :: Reordered(roots, order) && ReportsCycle(c, order, defaults, x))
            <==> exists r :: r in roots && ClosesByDefinition(c, r)
  {
    hide Plan, Whole, Reordered, ClosesByDefinition, WithinLimits;
    if order, x :| Reordered(roots, order) && ReportsCycle(c, order, defaults, x) {
      WholeOnlyCycles(c, roots, defaults, order);
      CycleErrorIsReferenceCycle(c, order, defaults, CycleAt(x));
      assert x in roots && ClosesByDefinition(c, x);
    }
    if r :| r in roots && ClosesByDefinition(c, r) {
      ClosingFieldIsReported(c, roots, defaults, r);
    }
  }

  // ---------- roots that are only some of the fields ----------

  ghost predicate Within(refs: seq<Ref>, fields: set<Ref>) {
    forall r :: r in refs ==> r in fields
  }

  lemma RootsOnlyCycle(c: Catalog, fields: set<Ref>, roots: seq<Ref>, defaults: Scan)
    requires Readable(c, fields) && Within(roots, fields) && Within(defaults.refs, fields) && !defaults.unsupported
    ensures forall out :: out in Plan(c, roots, defaults).1 ==> OnlyCycles(fields, out)
  {
    hide VisitRoots, VisitAll, Readable, OnlyCycles;
    var start := State({}, [], {});
    assert Among(c, fields, start, 0);
    RootsAmong(c, fields, start, roots);
    VisitAllAmong(c, fields, VisitRoots(c, start, roots).0, defaults.refs, 0);
  }

  /** A field that closes a cycle is reported when it is the first root, whatever the other roots are. */
  lemma ClosingRootReports(c: Catalog, fields: set<Ref>, r: Ref, rest: seq<Ref>, defaults: Scan)
    requires Readable(c, fields) && r in fields && Within(rest, fields) && Within(defaults.refs, fields) && !defaults.unsupported
    requires ClosesByDefinition(c, r) && forall x :: LimitAt(x) !in Plan(c, [r] + rest, defaults).1
    ensures exists x :: ReportsCycle(c, [r] + rest, defaults, x)
  {
    ClosingFieldFails(c, r);
    var out := Visit(c, State({}, [], {}), r, 0).1;
    hide Visit, Plan, Readable;
    FirstRootFails(c, r, rest, defaults);
    RootsOnlyCycle(c, fields, [r] + rest, defaults);
    assert out.CycleAt?;
    assert ReportsCycle(c, [r] + rest, defaults, out.reference);
  }

  /** Of the fields of a readable package, some list of roots reports a cycle exactly when references lead from some field
      to one that is defined by it. */
  lemma SomeRootsReportIffClosing(c: Catalog, fields: set<Ref>)
    requires Readable(c, fields) && forall r, x :: r in fields ==> LimitAt(x) !in Plan(c, [r], Scan([], false)).1
    ensures (exists roots, x :: Within(roots, fields) && ReportsCycle(c, roots, Scan([], false), x))
            <==> exists r :: r in fields && ClosesByDefinition(c, r)
  {
    hide Plan, Readable, ClosesByDefinition;
    var none := Scan([], false);
    if roots, x :| Within(roots, fields) && ReportsCycle(c, roots, none, x) {
      RootsOnlyCycle(c, fields, roots, none);
      CycleErrorIsReferenceCycle(c, roots, none, CycleAt(x));
      assert x in fields && ClosesByDefinition(c, x);
    }
    if r :| r in fields && ClosesByDefinition(c, r) {
      assert [r] + [] == [r];
      ClosingRootReports(c, fields, r, [], none);
      assert Within([r], fields);
    }
  }

  ghost predicate OnDefinitionCycle(c: Catalog, r: Ref) {
    exists chain :: DefinitionChain(c, chain) && Cyclic(chain) && chain[0] == r
  }

  /** Where no definition leads back to itself, that is exactly when some order reports a cycle that is none. */
  lemma FalseCycleIffClosing(c: Catalog, roots: seq<Ref>, defaults: Scan)
    requires Whole(c, roots, defaults) && WithinLimits(c, roots, defaults) && forall r :: r in roots ==> !OnDefinitionCycle(c, r)
    ensures (exists order, x :: Reordered(roots, order) && ReportsCycle(c, order, defaults, x) && !OnDefinitionCycle(c, x))
            <==> exists r :: r in roots && ClosesByDefinition(c, r)
  {
    SomeOrderReportsIffClosing(c, roots, defaults);
    hide Whole, Reordered, WithinLimits, ClosesByDefinition, OnDefinitionCycle, Plan;
    forall order, x | Reordered(roots, order) && ReportsCycle(c, order, defaults, x)
      ensures !OnDefinitionCycle(c, x)
    {
      WholeOnlyCycles(c, roots, defaults, order);
    }
  }
}

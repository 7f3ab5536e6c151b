/** The depth-first closure of a package over its authored field definitions and view settings. */
module DependencyClosure {
  import opened Options

  type Ref = string
  type File = string

  const MAX_FIELDS: nat := 5000
  const MAX_DEPTH: nat := 100

  /** What reading one authored value does: it asks for these references in turn and then, perhaps,
      finds something that cannot be interpreted. */
  datatype Scan = Scan(refs: seq<Ref>, unsupported: bool)

  /** A field's definition, and the files whose view settings apply to it. */
  datatype Field = Field(definition: Scan, files: seq<File>)

  /** `field` is None when the reference has no exact, unambiguous authored definition. */
  datatype Catalog = Catalog(field: Ref -> Option<Field>, settings: File -> Scan)

  datatype Outcome = Visited | CycleAt(reference: Ref) | LimitAt(reference: Ref) | UnsupportedAt(reference: Ref)

  /** `seen` is in order of insertion. */
  datatype State = State(active: set<Ref>, seen: seq<Ref>, settingsScanned: set<File>)

  /** Visits one field: its definition first, then the settings of its files that no field has scanned yet. */
  function Visit(c: Catalog, st: State, reference: Ref, depth: nat): (State, Outcome)
    requires depth <= MAX_DEPTH + 1
    decreases MAX_DEPTH + 1 - depth, 2, 0
  {
    if reference in st.active then (st, CycleAt(reference))
    else if reference in st.seen then (st, Visited)
    else if |st.seen| >= MAX_FIELDS || depth > MAX_DEPTH then (st, LimitAt(reference))
    else if c.field(reference).None? then (st, UnsupportedAt(reference))
    else
      var field := c.field(reference).value;
      var (st1, out1) := VisitAll(c, st.(active := st.active + {reference}), field.definition.refs, depth + 1);
      if !out1.Visited? then (st1.(active := st1.active - {reference}), out1)
      else if field.definition.unsupported then (st1.(active := st1.active - {reference}), UnsupportedAt(reference))
      else
        var (st2, out2) := ScanSettings(c, st1, reference, field.files, depth);
        (State(st2.active - {reference}, if out2.Visited? then st2.seen + [reference] else st2.seen, st2.settingsScanned), out2)
  }

  /** Visits references in turn until one fails. */
  function VisitAll(c: Catalog, st: State, refs: seq<Ref>, depth: nat): (State, Outcome)
    requires depth <= MAX_DEPTH + 1
    decreases MAX_DEPTH + 1 - depth, 3, |refs|
  {
    if refs == [] then (st, Visited)
    else
      var (st1, out1) := Visit(c, st, refs[0], depth);
      if out1.Visited? then VisitAll(c, st1, refs[1..], depth) else (st1, out1)
  }

  /** A reference in view settings that is being visited already is skipped, not followed. */
  function VisitInactive(c: Catalog, st: State, refs: seq<Ref>, depth: nat): (State, Outcome)
    requires depth <= MAX_DEPTH + 1
    decreases MAX_DEPTH + 1 - depth, 3, |refs|
  {
    if refs == [] then (st, Visited)
    else if refs[0] in st.active then VisitInactive(c, st, refs[1..], depth)
    else
      var (st1, out1) := Visit(c, st, refs[0], depth);
      if out1.Visited? then VisitInactive(c, st1, refs[1..], depth) else (st1, out1)
  }

  function ScanSettings(c: Catalog, st: State, reference: Ref, files: seq<File>, depth: nat): (State, Outcome)
    requires depth <= MAX_DEPTH
    decreases MAX_DEPTH + 1 - depth, 1, |files|
  {
    if files == [] then (st, Visited)
    else if files[0] in st.settingsScanned then ScanSettings(c, st, reference, files[1..], depth)
    else
      var (st1, out1) := VisitInactive(c, st.(settingsScanned := st.settingsScanned + {files[0]}), c.settings(files[0]).refs, depth + 1);
      if !out1.Visited? then (st1, out1)
      else if c.settings(files[0]).unsupported then (st1, UnsupportedAt(reference))
      else ScanSettings(c, st1, reference, files[1..], depth)
  }

  /** The roots are visited one after another; a failed root is reported and does not stop the next one. */
  function VisitRoots(c: Catalog, st: State, roots: seq<Ref>): (State, seq<Outcome>)
    decreases |roots|
  {
    if roots == [] then (st, [])
    else
      var (st1, out1) := Visit(c, st, roots[0], 0);
      var (st2, issues) := VisitRoots(c, st1, roots[1..]);
      (st2, (if out1.Visited? then [] else [out1]) + issues)
  }

  /** The closure of a package: its field references, then what the model's defaults refer to. */
  function Plan(c: Catalog, roots: seq<Ref>, defaults: Scan): (State, seq<Outcome>) {
    var (st1, issues) := VisitRoots(c, State({}, [], {}), roots);
    var (st2, out2) := VisitAll(c, st1, defaults.refs, 0);
    (st2, issues + if !out2.Visited? then [out2] else if defaults.unsupported then [UnsupportedAt("model")] else [])
  }

  // ---------- what every visit keeps ----------

  /** The k-th visited field has a definition, and everything the definition refers to was visited before it. */
  ghost predicate DefinedBefore(c: Catalog, seen: seq<Ref>, k: nat)
    requires k < |seen|
  {
    && c.field(seen[k]).Some? && !c.field(seen[k]).value.definition.unsupported
    && forall d :: d in c.field(seen[k]).value.definition.refs ==> d in seen[..k]
  }

  /** The visited fields are in topological order of their definitions, and none is still being visited. */
  ghost predicate Sound(c: Catalog, st: State) {
    && (forall k: nat :: k < |st.seen| ==> DefinedBefore(c, st.seen, k))
    && (forall r :: r in st.active ==> r !in st.seen)
  }

  /** From st to later, fields and scanned files were only added, and the same fields are being visited. */
  ghost predicate Grew(c: Catalog, st: State, later: State) {
    && later.active == st.active
    && st.seen <= later.seen
    && st.settingsScanned <= later.settingsScanned
    && Sound(c, later)
  }

  lemma AppendKeepsSound(c: Catalog, st: State, reference: Ref)
    requires Sound(c, st) && reference in st.active
    requires c.field(reference).Some? && !c.field(reference).value.definition.unsupported
    requires forall d :: d in c.field(reference).value.definition.refs ==> d in st.seen
    ensures Sound(c, State(st.active - {reference}, st.seen + [reference], st.settingsScanned))
  {
    var seen := st.seen + [reference];
    forall k: nat | k < |seen|
      ensures DefinedBefore(c, seen, k)
    {
      if k < |st.seen| {
        assert DefinedBefore(c, st.seen, k);
        assert seen[..k] == st.seen[..k];
      } else {
        assert seen[..k] == st.seen;
      }
    }
  }

  lemma {:induction false} VisitGrows(c: Catalog, st: State, reference: Ref, depth: nat)
    requires depth <= MAX_DEPTH + 1 && Sound(c, st)
    ensures Grew(c, st, Visit(c, st, reference, depth).0)
    ensures Visit(c, st, reference, depth).1.Visited? ==> reference in Visit(c, st, reference, depth).0.seen
    decreases MAX_DEPTH + 1 - depth, 2, 0
  {
    if reference in st.active || reference in st.seen || |st.seen| >= MAX_FIELDS || depth > MAX_DEPTH || c.field(reference).None? {
    } else {
      var field := c.field(reference).value;
      var st0 := st.(active := st.active + {reference});
      VisitAllGrows(c, st0, field.definition.refs, depth + 1);
      var (st1, out1) := VisitAll(c, st0, field.definition.refs, depth + 1);
      if out1.Visited? && !field.definition.unsupported {
        ScanSettingsGrows(c, st1, reference, field.files, depth);
        var (st2, out2) := ScanSettings(c, st1, reference, field.files, depth);
        if out2.Visited? {
          AppendKeepsSound(c, st2, reference);
        }
      }
    }
  }

  lemma {:induction false} VisitAllGrows(c: Catalog, st: State, refs: seq<Ref>, depth: nat)
    requires depth <= MAX_DEPTH + 1 && Sound(c, st)
    ensures Grew(c, st, VisitAll(c, st, refs, depth).0)
    ensures VisitAll(c, st, refs, depth).1.Visited? ==> forall r :: r in refs ==> r in VisitAll(c, st, refs, depth).0.seen
    decreases MAX_DEPTH + 1 - depth, 3, |refs|
  {
    if refs != [] {
      VisitGrows(c, st, refs[0], depth);
      var (st1, out1) := Visit(c, st, refs[0], depth);
      if out1.Visited? {
        VisitAllGrows(c, st1, refs[1..], depth);
      }
    }
  }

  lemma {:induction false} VisitInactiveGrows(c: Catalog, st: State, refs: seq<Ref>, depth: nat)
    requires depth <= MAX_DEPTH + 1 && Sound(c, st)
    ensures Grew(c, st, VisitInactive(c, st, refs, depth).0)
    ensures VisitInactive(c, st, refs, depth).1.Visited? ==>
              forall r :: r in refs ==> r in st.active || r in VisitInactive(c, st, refs, depth).0.seen
    decreases MAX_DEPTH + 1 - depth, 3, |refs|
  {
    if refs != [] {
      if refs[0] in st.active {
        VisitInactiveGrows(c, st, refs[1..], depth);
      } else {
        VisitGrows(c, st, refs[0], depth);
        var (st1, out1) := Visit(c, st, refs[0], depth);
        if out1.Visited? {
          VisitInactiveGrows(c, st1, refs[1..], depth);
        }
      }
    }
  }

  lemma {:induction false} ScanSettingsGrows(c: Catalog, st: State, reference: Ref, files: seq<File>, depth: nat)
    requires depth <= MAX_DEPTH && Sound(c, st)
    ensures Grew(c, st, ScanSettings(c, st, reference, files, depth).0)
    decreases MAX_DEPTH + 1 - depth, 1, |files|
  {
    if files != [] {
      if files[0] in st.settingsScanned {
        ScanSettingsGrows(c, st, reference, files[1..], depth);
      } else {
        var st0 := st.(settingsScanned := st.settingsScanned + {files[0]});
        VisitInactiveGrows(c, st0, c.settings(files[0]).refs, depth + 1);
        var (st1, out1) := VisitInactive(c, st0, c.settings(files[0]).refs, depth + 1);
        if out1.Visited? && !c.settings(files[0]).unsupported {
          ScanSettingsGrows(c, st1, reference, files[1..], depth);
        }
      }
    }
  }

  // ---------- what a visit that does not fail has completed ----------

  ghost predicate FilesScanned(c: Catalog, st: State, k: nat)
    requires k < |st.seen|
  {
    c.field(st.seen[k]).Some? && forall f :: f in c.field(st.seen[k]).value.files ==> f in st.settingsScanned
  }

  ghost predicate SettingsVisited(c: Catalog, st: State, f: File) {
    !c.settings(f).unsupported && forall r :: r in c.settings(f).refs ==> r in st.seen || r in st.active
  }

  /** Between st and later, every newly visited field has its files scanned, and every newly scanned
      file has its references visited or being visited. */
  ghost predicate Settled(c: Catalog, st: State, later: State) {
    && (forall k: nat :: |st.seen| <= k < |later.seen| ==> FilesScanned(c, later, k))
    && (forall f :: f in later.settingsScanned && f !in st.settingsScanned ==> SettingsVisited(c, later, f))
  }

  lemma SettledThenSettled(c: Catalog, a: State, b: State, d: State)
    requires Grew(c, a, b) && Grew(c, b, d)
    requires Settled(c, a, b) && Settled(c, b, d)
    ensures Settled(c, a, d)
  {
    forall k: nat | |a.seen| <= k < |d.seen|
      ensures FilesScanned(c, d, k)
    {
      if k < |b.seen| {
        assert FilesScanned(c, b, k);
        assert b.seen[k] == d.seen[k];
      }
    }
    forall f | f in d.settingsScanned && f !in a.settingsScanned
      ensures SettingsVisited(c, d, f)
    {
      if f in b.settingsScanned {
        assert SettingsVisited(c, b, f);
      }
    }
  }

  /** Finishing a field: it is no longer being visited, but it has been visited. */
  lemma FinishSettles(c: Catalog, st: State, later: State, reference: Ref)
    requires Settled(c, st, later) && Sound(c, later) && reference in later.active
    requires c.field(reference).Some? && forall f :: f in c.field(reference).value.files ==> f in later.settingsScanned
    ensures Settled(c, st, State(later.active - {reference}, later.seen + [reference], later.settingsScanned))
  {
    var done := State(later.active - {reference}, later.seen + [reference], later.settingsScanned);
    forall k: nat | |st.seen| <= k < |done.seen|
      ensures FilesScanned(c, done, k)
    {
      if k < |later.seen| {
        assert FilesScanned(c, later, k);
      }
    }
    forall f | f in done.settingsScanned && f !in st.settingsScanned
      ensures SettingsVisited(c, done, f)
    {
      assert SettingsVisited(c, later, f);
    }
  }

  lemma {:induction false} VisitSettles(c: Catalog, st: State, reference: Ref, depth: nat)
    requires depth <= MAX_DEPTH + 1 && Sound(c, st)
    requires Visit(c, st, reference, depth).1.Visited?
    ensures Settled(c, st, Visit(c, st, reference, depth).0)
    decreases MAX_DEPTH + 1 - depth, 2, 0
  {
    if reference !in st.seen {
      var field := c.field(reference).value;
      var st0 := st.(active := st.active + {reference});
      var st1 := VisitAll(c, st0, field.definition.refs, depth + 1).0;
      VisitAllSettles(c, st0, field.definition.refs, depth + 1);
      VisitAllGrows(c, st0, field.definition.refs, depth + 1);
      var st2 := ScanSettings(c, st1, reference, field.files, depth).0;
      ScanSettingsSettles(c, st1, reference, field.files, depth);
      ScanSettingsGrows(c, st1, reference, field.files, depth);
      SettledThenSettled(c, st0, st1, st2);
      FinishSettles(c, st, st2, reference);
    }
  }

  lemma {:induction false} VisitAllSettles(c: Catalog, st: State, refs: seq<Ref>, depth: nat)
    requires depth <= MAX_DEPTH + 1 && Sound(c, st)
    requires VisitAll(c, st, refs, depth).1.Visited?
    ensures Settled(c, st, VisitAll(c, st, refs, depth).0)
    decreases MAX_DEPTH + 1 - depth, 3, |refs|
  {
    if refs != [] {
      var st1 := Visit(c, st, refs[0], depth).0;
      VisitSettles(c, st, refs[0], depth);
      VisitGrows(c, st, refs[0], depth);
      VisitAllSettles(c, st1, refs[1..], depth);
      VisitAllGrows(c, st1, refs[1..], depth);
      SettledThenSettled(c, st, st1, VisitAll(c, st, refs, depth).0);
    }
  }

  lemma {:induction false} VisitInactiveSettles(c: Catalog, st: State, refs: seq<Ref>, depth: nat)
    requires depth <= MAX_DEPTH + 1 && Sound(c, st)
    requires VisitInactive(c, st, refs, depth).1.Visited?
    ensures Settled(c, st, VisitInactive(c, st, refs, depth).0)
    decreases MAX_DEPTH + 1 - depth, 3, |refs|
  {
    if refs != [] {
      if refs[0] in st.active {
        VisitInactiveSettles(c, st, refs[1..], depth);
      } else {
        var st1 := Visit(c, st, refs[0], depth).0;
        VisitSettles(c, st, refs[0], depth);
        VisitGrows(c, st, refs[0], depth);
        VisitInactiveSettles(c, st1, refs[1..], depth);
        VisitInactiveGrows(c, st1, refs[1..], depth);
        SettledThenSettled(c, st, st1, VisitInactive(c, st, refs, depth).0);
      }
    }
  }

  lemma {:induction false} ScanSettingsSettles(c: Catalog, st: State, reference: Ref, files: seq<File>, depth: nat)
    requires depth <= MAX_DEPTH && Sound(c, st)
    requires ScanSettings(c, st, reference, files, depth).1.Visited?
    ensures Settled(c, st, ScanSettings(c, st, reference, files, depth).0)
    ensures forall f :: f in files ==> f in ScanSettings(c, st, reference, files, depth).0.settingsScanned
    decreases MAX_DEPTH + 1 - depth, 1, |files|
  {
    if files != [] {
      ScanSettingsGrows(c, st, reference, files, depth);
      if files[0] in st.settingsScanned {
        ScanSettingsSettles(c, st, reference, files[1..], depth);
      } else {
        var st0 := st.(settingsScanned := st.settingsScanned + {files[0]});
        var st1 := VisitInactive(c, st0, c.settings(files[0]).refs, depth + 1).0;
        VisitInactiveSettles(c, st0, c.settings(files[0]).refs, depth + 1);
        VisitInactiveGrows(c, st0, c.settings(files[0]).refs, depth + 1);
        assert SettingsVisited(c, st1, files[0]);
        assert Settled(c, st, st1);
        ScanSettingsSettles(c, st1, reference, files[1..], depth);
        ScanSettingsGrows(c, st1, reference, files[1..], depth);
        SettledThenSettled(c, st, st1, ScanSettings(c, st, reference, files, depth).0);
      }
    }
  }

  // ---------- the whole plan ----------

  lemma {:induction false} RootsGrow(c: Catalog, st: State, roots: seq<Ref>)
    requires Sound(c, st)
    ensures Grew(c, st, VisitRoots(c, st, roots).0)
    ensures VisitRoots(c, st, roots).1 == [] ==> Settled(c, st, VisitRoots(c, st, roots).0)
    ensures VisitRoots(c, st, roots).1 == [] ==> forall r :: r in roots ==> r in VisitRoots(c, st, roots).0.seen
    decreases |roots|
  {
    if roots != [] {
      var st1 := Visit(c, st, roots[0], 0).0;
      VisitGrows(c, st, roots[0], 0);
      RootsGrow(c, st1, roots[1..]);
      if VisitRoots(c, st, roots).1 == [] {
        VisitSettles(c, st, roots[0], 0);
        SettledThenSettled(c, st, st1, VisitRoots(c, st, roots).0);
      }
    }
  }

  /** Whatever fails along the way, the visited fields are in topological order of their definitions. */
  lemma PlanIsTopological(c: Catalog, roots: seq<Ref>, defaults: Scan)
    ensures var st := Plan(c, roots, defaults).0;
            st.active == {} && forall k: nat :: k < |st.seen| ==> DefinedBefore(c, st.seen, k)
  {
    RootsGrow(c, State({}, [], {}), roots);
    VisitAllGrows(c, VisitRoots(c, State({}, [], {}), roots).0, defaults.refs, 0);
  }

  /** If planning ends without an issue, the visited fields include every root and every reference of the
      model's defaults, and are closed under definitions and under the view settings of their files,
      including the settings references that were skipped while they were being visited. */
  lemma PlanWithoutIssuesIsComplete(c: Catalog, roots: seq<Ref>, defaults: Scan)
    requires Plan(c, roots, defaults).1 == []
    ensures var seen := Plan(c, roots, defaults).0.seen;
            && (forall r :: r in roots || r in defaults.refs ==> r in seen)
            && (forall r, d :: r in seen && Refers(c, r, d) ==> d in seen)
  {
    var st0 := State({}, [], {});
    RootsGrow(c, st0, roots);
    var st1 := VisitRoots(c, st0, roots).0;
    VisitAllGrows(c, st1, defaults.refs, 0);
    VisitAllSettles(c, st1, defaults.refs, 0);
    var st2 := VisitAll(c, st1, defaults.refs, 0).0;
    SettledThenSettled(c, st0, st1, st2);
    forall r, d | r in st2.seen && Refers(c, r, d)
      ensures d in st2.seen
    {
      var k: nat :| k < |st2.seen| && st2.seen[k] == r;
      assert DefinedBefore(c, st2.seen, k) && FilesScanned(c, st2, k);
      if d !in c.field(r).value.definition.refs {
        var f :| f in c.field(r).value.files && d in c.settings(f).refs;
        assert SettingsVisited(c, st2, f);
      }
    }
  }

  // ---------- cycles ----------

  ghost predicate Defines(c: Catalog, r: Ref, d: Ref) {
    c.field(r).Some? && d in c.field(r).value.definition.refs
  }

  ghost predicate HasSetting(c: Catalog, r: Ref, d: Ref) {
    c.field(r).Some? && exists f :: f in c.field(r).value.files && d in c.settings(f).refs
  }

  /** r refers to d in its definition, or in the settings of one of its files. */
  ghost predicate Refers(c: Catalog, r: Ref, d: Ref) {
    Defines(c, r, d) || HasSetting(c, r, d)
  }

  /** A chain of definitions. */
  ghost predicate DefinitionChain(c: Catalog, chain: seq<Ref>) {
    chain != [] && forall k :: 0 <= k < |chain| - 1 ==> Defines(c, chain[k], chain[k + 1])
  }

  ghost predicate ReferenceChain(c: Catalog, chain: seq<Ref>) {
    chain != [] && forall k :: 0 <= k < |chain| - 1 ==> Refers(c, chain[k], chain[k + 1])
  }

  /** The chain comes back to where it started. */
  ghost predicate Cyclic(chain: seq<Ref>) {
    |chain| > 1 && chain[0] == chain[|chain| - 1]
  }

  /** A definition chain that starts at a visited field goes strictly backwards in the order of visiting. */
  lemma {:induction false} ChainGoesBack(c: Catalog, seen: seq<Ref>, chain: seq<Ref>, k: nat)
    requires forall j: nat :: j < |seen| ==> DefinedBefore(c, seen, j)
    requires DefinitionChain(c, chain) && k < |seen| && chain[0] == seen[k]
    ensures |chain| > 1 ==> chain[|chain| - 1] in seen[..k]
    decreases |chain|
  {
    if |chain| > 1 {
      assert DefinedBefore(c, seen, k);
      assert Defines(c, chain[0], chain[1]);
      var j :| 0 <= j < k && seen[j] == chain[1];
      ChainGoesBack(c, seen, chain[1..], j);
      assert seen[..j] <= seen[..k];
    }
  }

  /** The first position of a member. */
  function First(seen: seq<Ref>, r: Ref): (k: nat)
    requires r in seen
    ensures k < |seen| && seen[k] == r && r !in seen[..k]
  {
    if seen[0] == r then 0 else 1 + First(seen[1..], r)
  }

  /** No visited field is on a cycle of definitions, even when some roots have failed. */
  lemma VisitedFieldsAreAcyclic(c: Catalog, roots: seq<Ref>, defaults: Scan, chain: seq<Ref>)
    requires DefinitionChain(c, chain) && chain[0] in Plan(c, roots, defaults).0.seen
    ensures !Cyclic(chain)
  {
    PlanIsTopological(c, roots, defaults);
    var seen := Plan(c, roots, defaults).0.seen;
    ChainGoesBack(c, seen, chain, First(seen, chain[0]));
  }

  lemma ChainStaysVisited(c: Catalog, roots: seq<Ref>, defaults: Scan, chain: seq<Ref>)
    requires DefinitionChain(c, chain) && chain[0] in Plan(c, roots, defaults).0.seen
    ensures chain[|chain| - 1] in Plan(c, roots, defaults).0.seen
  {
    PlanIsTopological(c, roots, defaults);
    var seen := Plan(c, roots, defaults).0.seen;
    ChainGoesBack(c, seen, chain, First(seen, chain[0]));
  }

  /** A root from which definitions lead into a cycle always gives an issue. */
  lemma DefinitionCycleIsReported(c: Catalog, roots: seq<Ref>, defaults: Scan, lead: seq<Ref>, cycle: seq<Ref>)
    requires DefinitionChain(c, lead) && lead[0] in roots
    requires DefinitionChain(c, cycle) && Cyclic(cycle) && cycle[0] == lead[|lead| - 1]
    ensures Plan(c, roots, defaults).1 != []
  {
    if Plan(c, roots, defaults).1 == [] {
      PlanWithoutIssuesIsComplete(c, roots, defaults);
      ChainStaysVisited(c, roots, defaults, lead);
      VisitedFieldsAreAcyclic(c, roots, defaults, cycle);
    }
  }

  // ---------- what a cycle error means ----------

  /** The fields being visited form a chain of references. */
  ghost predicate Stack(c: Catalog, st: State, path: seq<Ref>) {
    (forall r :: r in st.active <==> r in path) && (path == [] || ReferenceChain(c, path))
  }

  ghost predicate LeadsTo(c: Catalog, path: seq<Ref>, r: Ref) {
    path == [] || Refers(c, path[|path| - 1], r)
  }

  ghost predicate DefinedBy(c: Catalog, path: seq<Ref>, r: Ref) {
    path == [] || Defines(c, path[|path| - 1], r)
  }

  /** References lead from r to a field whose definition refers to r. */
  ghost predicate ClosesByDefinition(c: Catalog, r: Ref) {
    exists chain :: ReferenceChain(c, chain) && chain[0] == r && Defines(c, chain[|chain| - 1], r)
  }

  /** References lead from r to d, perhaps in no step. */
  ghost predicate Reaches(c: Catalog, r: Ref, d: Ref) {
    exists chain :: ReferenceChain(c, chain) && chain[0] == r && chain[|chain| - 1] == d
  }

  /** References lead to d from where the path starts, or from one of these when there is no path yet. */
  ghost predicate ReachedFrom(c: Catalog, path: seq<Ref>, refs: seq<Ref>, d: Ref) {
    if path != [] then Reaches(c, path[0], d) else exists r :: r in refs && Reaches(c, r, d)
  }

  /** A cycle error is at a field that closes a cycle by a definition, and that was reached. */
  ghost predicate RealCycle(c: Catalog, path: seq<Ref>, refs: seq<Ref>, out: Outcome) {
    out.CycleAt? ==> ClosesByDefinition(c, out.reference) && ReachedFrom(c, path, refs, out.reference)
  }

  lemma StackCloses(c: Catalog, st: State, path: seq<Ref>, reference: Ref)
    requires Stack(c, st, path) && DefinedBy(c, path, reference) && reference in st.active
    ensures ClosesByDefinition(c, reference) && Reaches(c, path[0], reference)
  {
    var k := First(path, reference);
    var chain := path[k..];
    assert ReferenceChain(c, chain) && chain[0] == reference;
    assert ReferenceChain(c, path[..k + 1]) && path[..k + 1][k] == reference;
  }

  lemma HeadOfPath(c: Catalog, path: seq<Ref>, reference: Ref, refs: seq<Ref>, out: Outcome)
    requires RealCycle(c, path + [reference], refs, out)
    ensures RealCycle(c, path, [reference], out)
  {
    assert reference in [reference];
  }

  lemma StackGrows(c: Catalog, st: State, path: seq<Ref>, reference: Ref)
    requires Stack(c, st, path) && LeadsTo(c, path, reference)
    ensures Stack(c, st.(active := st.active + {reference}), path + [reference])
  {}

  lemma {:induction false} VisitCycle(c: Catalog, st: State, reference: Ref, depth: nat, path: seq<Ref>)
    requires depth <= MAX_DEPTH + 1 && Sound(c, st) && Stack(c, st, path)
    requires if reference in st.active then DefinedBy(c, path, reference) else LeadsTo(c, path, reference)
    ensures RealCycle(c, path, [reference], Visit(c, st, reference, depth).1)
    decreases MAX_DEPTH + 1 - depth, 2, 0
  {
    if reference in st.active {
      StackCloses(c, st, path, reference);
    } else if reference in st.seen || |st.seen| >= MAX_FIELDS || depth > MAX_DEPTH || c.field(reference).None? {
    } else {
      var field := c.field(reference).value;
      var st0 := st.(active := st.active + {reference});
      StackGrows(c, st, path, reference);
      VisitAllCycle(c, st0, field.definition.refs, depth + 1, path + [reference]);
      VisitAllGrows(c, st0, field.definition.refs, depth + 1);
      var (st1, out1) := VisitAll(c, st0, field.definition.refs, depth + 1);
      HeadOfPath(c, path, reference, field.definition.refs, out1);
      if out1.Visited? {
        ScanSettingsCycle(c, st1, reference, field.files, depth, path + [reference]);
        HeadOfPath(c, path, reference, [], ScanSettings(c, st1, reference, field.files, depth).1);
      }
    }
  }

  lemma {:induction false} VisitAllCycle(c: Catalog, st: State, refs: seq<Ref>, depth: nat, path: seq<Ref>)
    requires depth <= MAX_DEPTH + 1 && Sound(c, st) && Stack(c, st, path) && forall r :: r in refs ==> DefinedBy(c, path, r)
    ensures RealCycle(c, path, refs, VisitAll(c, st, refs, depth).1)
    decreases MAX_DEPTH + 1 - depth, 3, |refs|
  {
    if refs != [] {
      VisitCycle(c, st, refs[0], depth, path);
      VisitGrows(c, st, refs[0], depth);
      var (st1, out1) := Visit(c, st, refs[0], depth);
      if out1.Visited? {
        VisitAllCycle(c, st1, refs[1..], depth, path);
      }
    }
  }

  lemma {:induction false} VisitInactiveCycle(c: Catalog, st: State, refs: seq<Ref>, depth: nat, path: seq<Ref>)
    requires depth <= MAX_DEPTH + 1 && Sound(c, st) && Stack(c, st, path) && path != [] && forall r :: r in refs ==> LeadsTo(c, path, r)
    ensures RealCycle(c, path, [], VisitInactive(c, st, refs, depth).1)
    decreases MAX_DEPTH + 1 - depth, 3, |refs|
  {
    if refs != [] {
      if refs[0] in st.active {
        VisitInactiveCycle(c, st, refs[1..], depth, path);
      } else {
        VisitCycle(c, st, refs[0], depth, path);
        VisitGrows(c, st, refs[0], depth);
        var (st1, out1) := Visit(c, st, refs[0], depth);
        if out1.Visited? {
          VisitInactiveCycle(c, st1, refs[1..], depth, path);
        }
      }
    }
  }

  lemma {:induction false} ScanSettingsCycle(c: Catalog, st: State, reference: Ref, files: seq<File>, depth: nat, path: seq<Ref>)
    requires depth <= MAX_DEPTH && Sound(c, st) && Stack(c, st, path) && path != [] && path[|path| - 1] == reference
    requires c.field(reference).Some? && forall f :: f in files ==> f in c.field(reference).value.files
    ensures RealCycle(c, path, [], ScanSettings(c, st, reference, files, depth).1)
    decreases MAX_DEPTH + 1 - depth, 1, |files|
  {
    if files != [] {
      if files[0] in st.settingsScanned {
        ScanSettingsCycle(c, st, reference, files[1..], depth, path);
      } else {
        var st0 := st.(settingsScanned := st.settingsScanned + {files[0]});
        forall r | r in c.settings(files[0]).refs
          ensures LeadsTo(c, path, r)
        {
          assert HasSetting(c, reference, r);
        }
        VisitInactiveCycle(c, st0, c.settings(files[0]).refs, depth + 1, path);
        VisitInactiveGrows(c, st0, c.settings(files[0]).refs, depth + 1);
        var (st1, out1) := VisitInactive(c, st0, c.settings(files[0]).refs, depth + 1);
        if out1.Visited? && !c.settings(files[0]).unsupported {
          ScanSettingsCycle(c, st1, reference, files[1..], depth, path);
        }
      }
    }
  }

  lemma {:induction false} RootsCycle(c: Catalog, st: State, roots: seq<Ref>, issue: Outcome)
    requires Sound(c, st) && st.active == {}
    requires issue in VisitRoots(c, st, roots).1
    ensures RealCycle(c, [], roots, issue)
    decreases |roots|
  {
    VisitCycle(c, st, roots[0], 0, []);
    VisitGrows(c, st, roots[0], 0);
    var (st1, out1) := Visit(c, st, roots[0], 0);
    if issue in VisitRoots(c, st1, roots[1..]).1 {
      RootsCycle(c, st1, roots[1..], issue);
    }
  }

  /** A reported cycle is a real cycle of definitions and view settings together, which a definition closes, and references
      lead to it from a root or from the model's defaults. */
  lemma CycleErrorIsReferenceCycle(c: Catalog, roots: seq<Ref>, defaults: Scan, issue: Outcome)
    requires issue in Plan(c, roots, defaults).1 && issue.CycleAt?
    ensures ClosesByDefinition(c, issue.reference)
    ensures exists r :: (r in roots || r in defaults.refs) && Reaches(c, r, issue.reference)
    ensures exists chain :: ReferenceChain(c, chain) && Cyclic(chain) && chain[0] == issue.reference
  {
    var st0 := State({}, [], {});
    var (st1, issues) := VisitRoots(c, st0, roots);
    RootsGrow(c, st0, roots);
    if issue in issues {
      RootsCycle(c, st0, roots, issue);
    } else {
      VisitAllCycle(c, st1, defaults.refs, 0, []);
    }
    ClosingIsCycle(c, issue.reference);
  }

  lemma ClosingIsCycle(c: Catalog, r: Ref)
    requires ClosesByDefinition(c, r)
    ensures exists chain :: ReferenceChain(c, chain) && Cyclic(chain) && chain[0] == r
  {
    var chain :| ReferenceChain(c, chain) && chain[0] == r && Defines(c, chain[|chain| - 1], r);
    var closed := chain + [r];
    forall k | 0 <= k < |closed| - 1
      ensures Refers(c, closed[k], closed[k + 1])
    {
      assert closed[k] == chain[k];
    }
    assert ReferenceChain(c, closed) && Cyclic(closed);
  }

  // ---------- the cycle error depends on the order of the roots ----------

  /** x is defined by a, and a by b; the settings of b's file mention x. */
  function Entangled(): Catalog {
    Catalog(
      (r: Ref) =>
        if r == "v.x" then Some(Field(Scan(["v.a"], false), []))
        else if r == "v.a" then Some(Field(Scan(["w.b"], false), []))
        else if r == "w.b" then Some(Field(Scan([], false), ["w.view"]))
        else None,
      (f: File) => if f == "w.view" then Scan(["v.x"], false) else Scan([], false))
  }

  lemma VisitOne(c: Catalog, st: State, r: Ref, depth: nat)
    requires depth <= MAX_DEPTH + 1
    ensures VisitAll(c, st, [r], depth) == Visit(c, st, r, depth)
  {}

  /** Reached first from x, the settings of b's file find x being visited already and skip it. */
  lemma EntangledFromX()
    ensures Plan(Entangled(), ["v.x", "v.a"], Scan([], false)) == (State({}, ["w.b", "v.a", "v.x"], {"w.view"}), [])
  {
    var c := Entangled();
    var s0, s1, s2, s3 := State({}, [], {}), State({"v.x"}, [], {}), State({"v.x", "v.a"}, [], {}), State({"v.x", "v.a", "w.b"}, [], {});
    var scanned := State({"v.x", "v.a", "w.b"}, [], {"w.view"});
    assert ["v.x"][1..] == [] && ["w.view"][1..] == [];
    assert VisitInactive(c, scanned, ["v.x"], 3) == (scanned, Visited);
    assert {} + {"w.view"} == {"w.view"};
    assert ScanSettings(c, scanned, "w.b", [], 2) == (scanned, Visited);
    assert ScanSettings(c, s3, "w.b", ["w.view"], 2) == (scanned, Visited);
    assert s2.active + {"w.b"} == s3.active && s3.active - {"w.b"} == s2.active;
    assert VisitAll(c, s3, [], 3) == (s3, Visited);
    assert [] + ["w.b"] == ["w.b"] && ["w.b"] + ["v.a"] == ["w.b", "v.a"] && ["w.b", "v.a"] + ["v.x"] == ["w.b", "v.a", "v.x"];
    var t2 := State({"v.x", "v.a"}, ["w.b"], {"w.view"});
    assert Visit(c, s2, "w.b", 2) == (t2, Visited);
    VisitOne(c, s2, "w.b", 2);
    assert ScanSettings(c, t2, "v.a", [], 1) == (t2, Visited);
    assert s1.active + {"v.a"} == s2.active && s2.active - {"v.a"} == s1.active;
    var t1 := State({"v.x"}, ["w.b", "v.a"], {"w.view"});
    assert Visit(c, s1, "v.a", 1) == (t1, Visited);
    VisitOne(c, s1, "v.a", 1);
    assert ScanSettings(c, t1, "v.x", [], 0) == (t1, Visited);
    assert s0.active + {"v.x"} == s1.active && s1.active - {"v.x"} == s0.active;
    var t0 := State({}, ["w.b", "v.a", "v.x"], {"w.view"});
    assert Visit(c, s0, "v.x", 0) == (t0, Visited);
    assert ["v.x", "v.a"][1..] == ["v.a"] && ["v.a"][1..] == [];
    assert t0.seen[1] == "v.a";
    assert VisitRoots(c, t0, []) == (t0, []);
    var none: seq<Outcome> := [];
    assert none + none == none;
    assert Visit(c, t0, "v.a", 0) == (t0, Visited);
    assert VisitRoots(c, t0, ["v.a"]) == (t0, []);
    assert VisitAll(c, t0, [], 0) == (t0, Visited);
  }

  /** Reached first from a, they follow x, which is defined by a, and report a cycle. */
  lemma EntangledFromA()
    ensures CycleAt("v.a") in Plan(Entangled(), ["v.a", "v.x"], Scan([], false)).1
  {
    var c := Entangled();
    var s0, s1, s2 := State({}, [], {}), State({"v.a"}, [], {}), State({"v.a", "w.b"}, [], {});
    var scanned, s3 := State({"v.a", "w.b"}, [], {"w.view"}), State({"v.a", "w.b", "v.x"}, [], {"w.view"});
    VisitOne(c, s3, "v.a", 3);
    assert scanned.active + {"v.x"} == s3.active;
    assert Visit(c, scanned, "v.x", 2).1 == CycleAt("v.a");
    assert VisitInactive(c, scanned, ["v.x"], 2).1 == CycleAt("v.a");
    assert {} + {"w.view"} == {"w.view"};
    assert ScanSettings(c, s2, "w.b", ["w.view"], 1).1 == CycleAt("v.a");
    assert s1.active + {"w.b"} == s2.active;
    assert VisitAll(c, s2, [], 2) == (s2, Visited);
    assert Visit(c, s1, "w.b", 1).1 == CycleAt("v.a");
    VisitOne(c, s1, "w.b", 1);
    assert s0.active + {"v.a"} == s1.active;
    assert Visit(c, s0, "v.a", 0).1 == CycleAt("v.a");
    assert VisitRoots(c, s0, ["v.a", "v.x"]).1[0] == CycleAt("v.a");
  }

  /** One package, its two field references in either order: one order reports a cycle and the other
      visits everything, although no definition leads back to itself. */
  lemma CycleErrorDependsOnOrder()
    ensures Plan(Entangled(), ["v.x", "v.a"], Scan([], false)).1 == []
    ensures CycleAt("v.a") in Plan(Entangled(), ["v.a", "v.x"], Scan([], false)).1
    ensures forall chain :: DefinitionChain(Entangled(), chain) ==> !Cyclic(chain)
  {
    EntangledFromX();
    EntangledFromA();
    var c := Entangled();
    var seen := Plan(c, ["v.x", "v.a"], Scan([], false)).0.seen;
    assert seen[0] == "w.b" && seen[1] == "v.a" && seen[2] == "v.x";
    forall chain | DefinitionChain(c, chain)
      ensures !Cyclic(chain)
    {
      if |chain| > 1 {
        assert Defines(c, chain[0], chain[1]);
        VisitedFieldsAreAcyclic(c, ["v.x", "v.a"], Scan([], false), chain);
      }
    }
  }

  // ---------- the closure as it is carried out ----------

  /** The sets that planning updates while it recurses. */
  class FieldClosure {
    const catalog: Catalog
    var active: set<Ref>
    var seen: seq<Ref>
    var settingsScanned: set<File>

    ghost function Snapshot(): State
      reads this
    {
      State(active, seen, settingsScanned)
    }

    constructor (catalog: Catalog)
      ensures this.catalog == catalog && Snapshot() == State({}, [], {})
    {
      this.catalog := catalog;
      active, seen, settingsScanned := {}, [], {};
    }

    /** The mark of a field being visited is removed however the visit ends. */
    method VisitField(reference: Ref, depth: nat) returns (outcome: Outcome)
      requires depth <= MAX_DEPTH + 1
      modifies this
      ensures (Snapshot(), outcome) == Visit(catalog, old(Snapshot()), reference, depth)
      decreases MAX_DEPTH + 1 - depth, 2, 0
    {
      if reference in active {
        return CycleAt(reference);
      }
      if reference in seen {
        return Visited;
      }
      if |seen| >= MAX_FIELDS || depth > MAX_DEPTH {
        return LimitAt(reference);
      }
      active := active + {reference};
      if catalog.field(reference).None? {
        active := active - {reference};
        return UnsupportedAt(reference);
      }
      var field := catalog.field(reference).value;
      outcome := ScanDefinition(field.definition.refs, depth + 1);
      if outcome.Visited? && field.definition.unsupported {
        outcome := UnsupportedAt(reference);
      }
      if outcome.Visited? {
        outcome := ScanSettingsOf(reference, field.files, depth);
      }
      if outcome.Visited? {
        seen := seen + [reference];
      }
      active := active - {reference};
    }

    method ScanDefinition(refs: seq<Ref>, depth: nat) returns (outcome: Outcome)
      requires depth <= MAX_DEPTH + 1
      modifies this
      ensures (Snapshot(), outcome) == VisitAll(catalog, old(Snapshot()), refs, depth)
      decreases MAX_DEPTH + 1 - depth, 3, |refs|
    {
      outcome := Visited;
      for i := 0 to |refs|
        invariant outcome.Visited?
        invariant VisitAll(catalog, Snapshot(), refs[i..], depth) == VisitAll(catalog, old(Snapshot()), refs, depth)
      {
        outcome := VisitField(refs[i], depth);
        assert refs[i..][1..] == refs[i + 1..];
        if !outcome.Visited? {
          return;
        }
      }
    }

    method ScanSetting(refs: seq<Ref>, depth: nat) returns (outcome: Outcome)
      requires depth <= MAX_DEPTH + 1
      modifies this
      ensures (Snapshot(), outcome) == VisitInactive(catalog, old(Snapshot()), refs, depth)
      decreases MAX_DEPTH + 1 - depth, 3, |refs|
    {
      outcome := Visited;
      for i := 0 to |refs|
        invariant outcome.Visited?
        invariant VisitInactive(catalog, Snapshot(), refs[i..], depth) == VisitInactive(catalog, old(Snapshot()), refs, depth)
      {
        assert refs[i..][1..] == refs[i + 1..];
        if refs[i] !in active {
          outcome := VisitField(refs[i], depth);
          if !outcome.Visited? {
            return;
          }
        }
      }
    }

    method ScanSettingsOf(reference: Ref, files: seq<File>, depth: nat) returns (outcome: Outcome)
      requires depth <= MAX_DEPTH
      modifies this
      ensures (Snapshot(), outcome) == ScanSettings(catalog, old(Snapshot()), reference, files, depth)
      decreases MAX_DEPTH + 1 - depth, 1, |files|
    {
      outcome := Visited;
      for i := 0 to |files|
        invariant outcome.Visited?
        invariant ScanSettings(catalog, Snapshot(), reference, files[i..], depth)
               == ScanSettings(catalog, old(Snapshot()), reference, files, depth)
      {
        assert files[i..][1..] == files[i + 1..];
        if files[i] !in settingsScanned {
          settingsScanned := settingsScanned + {files[i]};
          outcome := ScanSetting(catalog.settings(files[i]).refs, depth + 1);
          if outcome.Visited? && catalog.settings(files[i]).unsupported {
            outcome := UnsupportedAt(reference);
          }
          if !outcome.Visited? {
            return;
          }
        }
      }
    }

    /** Visits every field reference of the package and then the references of the model's defaults. */
    method PlanFields(roots: seq<Ref>, defaults: Scan) returns (issues: seq<Outcome>)
      requires Snapshot() == State({}, [], {})
      modifies this
      ensures (Snapshot(), issues) == Plan(catalog, roots, defaults)
    {
      issues := [];
      ghost var all := VisitRoots(catalog, Snapshot(), roots);
      assert roots[0..] == roots && issues + all.1 == all.1;
      for i := 0 to |roots|
        invariant VisitRoots(catalog, Snapshot(), roots[i..]).0 == all.0
        invariant issues + VisitRoots(catalog, Snapshot(), roots[i..]).1 == all.1
      {
        assert roots[i..][1..] == roots[i + 1..];
        ghost var before := issues;
        var outcome := VisitField(roots[i], 0);
        ghost var rest := VisitRoots(catalog, Snapshot(), roots[i + 1..]).1;
        if !outcome.Visited? {
          issues := issues + [outcome];
          assert before + ([outcome] + rest) == issues + rest;
        } else {
          assert [] + rest == rest;
        }
      }
      assert issues + [] == issues;
      var outcome := ScanDefinition(defaults.refs, 0);
      if !outcome.Visited? {
        issues := issues + [outcome];
      } else if defaults.unsupported {
        issues := issues + [UnsupportedAt("model")];
      }
    }
  }
}

/** The fold of all tiles, seen class by class: what the projected files and the entries of a class are, as long as there
    is no issue. */
module PackageFold {
  import opened Options
  import opened PackageTile
  import opened PackageAggregation
  import opened PackageClasses

  // ---------- recording a tile without conflicts ----------

  function EntryFor(es: seq<Entry>, f: string): (r: Option<Entry>)
    ensures r.Some? ==> r.value in es && r.value.file == f
    ensures r.None? ==> forall e :: e in es ==> e.file != f
  {
    if es == [] then None
    else if es[|es| - 1].file == f then Some(es[|es| - 1])
    else
      assert es == es[..|es| - 1] + [es[|es| - 1]];
      EntryFor(es[..|es| - 1], f)
  }

  /** What the state says of one file: its projected text and its entry. */
  function At(st: State, f: string): (Option<Content>, Option<Entry>) {
    (Get(st.projected, f), if f in st.files then Some(st.files[f]) else None)
  }

  predicate NoConflictAt(st: State, f: string) {
    At(st, f).1.Some? ==> At(st, f).1.value.action != Conflict
  }

  predicate ShowsEntry(st: State, f: string, e: Entry) {
    && At(st, f).0 == e.after
    && At(st, f).1.Some? && At(st, f).1.value.source == e.source
  }

  lemma RecordAt(snapshot: Files, st: State, e: Entry, f: string)
    requires NoConflictAt(st, f) && e.action != Conflict && e.after.Some?
    ensures NoConflictAt(Record(snapshot, st, e), f)
    ensures if f == e.file then ShowsEntry(Record(snapshot, st, e), f, e) else At(Record(snapshot, st, e), f) == At(st, f)
  {}

  lemma {:induction false} RecordedAt(snapshot: Files, st: State, es: seq<Entry>, f: string)
    requires forall e :: e in es ==> e.action != Conflict && e.after.Some?
    requires NoConflictAt(st, f)
    ensures var next := RecordAll(snapshot, st, es);
            && NoConflictAt(next, f)
            && match EntryFor(es, f) { case None => At(next, f) == At(st, f) case Some(e) => ShowsEntry(next, f, e) }
  {
    hide Record, At, NoConflictAt;
    if es != [] {
      RecordedAt(snapshot, st, es[..|es| - 1], f);
      RecordAt(snapshot, RecordAll(snapshot, st, es[..|es| - 1]), es[|es| - 1], f);
    }
  }

  // ---------- the entries of one tile ----------

  /** A candidate of this class is recorded for file f; when there are several, each under its own name. */
  predicate ComesFrom(n: Naming, w: set<Candidate>, f: string, source: string) {
    exists c :: c in w && c.source == source && n.identity(c.source) == n.identity(f) && (!Single(w) ==> c.source == f)
  }

  /** A tile in which every candidate goes in. */
  ghost predicate Clean(n: Naming, target: Files, cs: seq<Candidate>) {
    && Plannable(n, target, cs)
    && (forall i :: 0 <= i < |cs| ==> GoesIn(n, target, cs, i))
    && (forall k :: Joined(n, target, cs, k).Some?)
  }

  lemma EntryInClass(n: Naming, target: Files, cs: seq<Candidate>, i: nat)
    requires Clean(n, target, cs) && i < |cs|
    ensures var e, k := Entries(n, target, cs)[i], Class(n, cs[i].source);
            && Class(n, e.file) == k && e.action != Conflict && e.after.Some?
            && e.after == Get(Joined(n, target, cs, k).value, e.file)
            && ComesFrom(n, Wanted(n, cs, k), e.file, e.source)
            && (InClass(n, target, k) == map[] ==> e.file == cs[i].source)
            && (InClass(n, target, k) != map[] ==> e.file in InClass(n, target, k))
  {
    var e, k := Entries(n, target, cs)[i], Class(n, cs[i].source);
    EntryOf(n, target, cs, i);
    PlaceOf(n, target, cs, i);
    HomeIsInClass(n, target, cs, i);
    assert Joined(n, target, cs, k).Some?;
    hide Place, Entries, Lawful, Plannable, GoesIn, Clean, Agree, FoldsTo;
    JoinsTo(n, InClass(n, target, k), Wanted(n, cs, k), cs[i]);
  }

  /** What a class holds of a candidate once it has joined. */
  lemma JoinsTo(n: Naming, m: Files, w: set<Candidate>, c: Candidate)
    requires Join(n, m, w).Some? && c in w
    ensures var r := Join(n, m, w).value;
            && (m == map[] ==> c.source in r && r[c.source] == c.content)
            && (m != map[] ==> Single(w) && r.Keys == m.Keys && forall f :: f in m ==> r[f] == m[f] + c.content)
  {}

  /** The entries of a clean tile hold exactly what its candidates make of each class. */
  lemma CleanTileAt(n: Naming, target: Files, cs: seq<Candidate>, f: string)
    requires Clean(n, target, cs)
    ensures var k := Class(n, f);
            var j, w := Joined(n, target, cs, k), Wanted(n, cs, k);
            && j.Some?
            && match EntryFor(Entries(n, target, cs), f)
               case None => Get(j.value, f) == Get(target, f) && (w == {} || f !in j.value)
               case Some(e) => e.after == Get(j.value, f) && f in j.value && ComesFrom(n, w, f, e.source)
  {
    hide *;
    match EntryFor(Entries(n, target, cs), f)
    case None => UntouchedFile(n, target, cs, f);
    case Some(e) =>
      SomeEntry(n, target, cs, e);
  }

  lemma SomeEntry(n: Naming, target: Files, cs: seq<Candidate>, e: Entry)
    requires Clean(n, target, cs) && e in Entries(n, target, cs)
    ensures var k := Class(n, e.file);
            && Joined(n, target, cs, k).Some?
            && e.after == Get(Joined(n, target, cs, k).value, e.file) && e.file in Joined(n, target, cs, k).value
            && ComesFrom(n, Wanted(n, cs, k), e.file, e.source)
  {
    hide Entries, Joined, Clean, ComesFrom, Class;
    var i :| 0 <= i < |cs| && Entries(n, target, cs)[i] == e;
    EntryInClass(n, target, cs, i);
    CleanJoins(n, target, cs, Class(n, e.file));
  }

  lemma UntouchedFile(n: Naming, target: Files, cs: seq<Candidate>, f: string)
    requires Clean(n, target, cs) && forall e :: e in Entries(n, target, cs) ==> e.file != f
    ensures var k := Class(n, f);
            var j, w := Joined(n, target, cs, k), Wanted(n, cs, k);
            j.Some? && Get(j.value, f) == Get(target, f) && (w == {} || f !in j.value)
  {
    var k := Class(n, f);
    var m, w := InClass(n, target, k), Wanted(n, cs, k);
    CleanJoins(n, target, cs, k);
    InItsClass(n, target, f);
    hide Entries, Clean, Join, InClass, Wanted, Class;
    if w == {} {
      NothingJoins(n, m);
    } else {
      var c :| c in w;
      NoEntryNoFile(n, target, cs, f, c);
      JoinsTo(n, m, w, c);
      assert f !in m;
    }
  }

  lemma InItsClass(n: Naming, files: Files, f: string)
    ensures Get(InClass(n, files, Class(n, f)), f) == Get(files, f)
  {}

  lemma NothingJoins(n: Naming, m: Files)
    ensures Join(n, m, {}) == Some(m)
  {}

  lemma NoEntryNoFile(n: Naming, target: Files, cs: seq<Candidate>, f: string, c: Candidate)
    requires Clean(n, target, cs) && c in Wanted(n, cs, Class(n, f)) && forall e :: e in Entries(n, target, cs) ==> e.file != f
    ensures f !in Joined(n, target, cs, Class(n, f)).value
  {
    var k, es := Class(n, f), Entries(n, target, cs);
    var m, w := InClass(n, target, k), Wanted(n, cs, k);
    hide Entries, Clean;
    var i :| 0 <= i < |cs| && cs[i] == c;
    EntryInClass(n, target, cs, i);
    assert es[i] in es;
    assert Joined(n, target, cs, k).Some? by {
      CleanJoins(n, target, cs, k);
    }
    JoinsTo(n, m, w, c);
    if m == map[] {
      forall d | d in w
        ensures d.source != f
      {
        var j :| 0 <= j < |cs| && cs[j] == d;
        EntryInClass(n, target, cs, j);
        assert es[j] in es;
      }
    }
  }

  lemma CleanJoins(n: Naming, target: Files, cs: seq<Candidate>, k: string)
    requires Clean(n, target, cs)
    ensures Joined(n, target, cs, k).Some?
  {}

  lemma CleanEntries(n: Naming, target: Files, cs: seq<Candidate>)
    requires Clean(n, target, cs)
    ensures forall e :: e in Entries(n, target, cs) ==> e.action != Conflict && e.after.Some?
  {
    var es := Entries(n, target, cs);
    forall i | 0 <= i < |es|
      ensures es[i].action != Conflict && es[i].after.Some?
    {
      EntryInClass(n, target, cs, i);
    }
    hide Entries;
  }

  /** A clean tile leaves of each class what joining makes of it, and its entries. */
  lemma AddCleanTile(n: Naming, snapshot: Files, st: State, tile: Tile, f: string)
    requires Clean(n, st.projected, tile.candidates) && !PlanTile(n, st.projected, tile).issues && NoConflictAt(st, f)
    ensures var next, k := AddTile(n, snapshot, st, tile), Class(n, f);
            var j, w := Joined(n, st.projected, tile.candidates, k).value, Wanted(n, tile.candidates, k);
            && NoConflictAt(next, f)
            && At(next, f).0 == Get(j, f)
            && (w == {} || f !in j ==> At(next, f).1 == At(st, f).1)
            && (w != {} && f in j ==> At(next, f).1.Some? && ComesFrom(n, w, f, At(next, f).1.value.source))
  {
    var es := Entries(n, st.projected, tile.candidates);
    assert PlanTile(n, st.projected, tile).entries == es;
    assert At(st, f).0 == Get(st.projected, f);
    CleanTileAt(n, st.projected, tile.candidates, f);
    CleanEntries(n, st.projected, tile.candidates);
    hide Entries, PlanTile, Clean, Joined, ComesFrom, NoConflictAt, At;
    RecordedAt(snapshot, st.(issues := st.issues || PlanTile(n, st.projected, tile).issues), es, f);
    SameBesidesIssues(st, f);
  }

  lemma SameBesidesIssues(st: State, f: string)
    ensures forall b :: At(st.(issues := b), f) == At(st, f) && (NoConflictAt(st.(issues := b), f) <==> NoConflictAt(st, f))
  {}

  // ---------- all tiles ----------

  function AllNames(snapshot: Files, tiles: seq<Tile>): set<string> {
    snapshot.Keys + set t, c | t in tiles && c in t.candidates :: c.source
  }

  /** No tile repeats a source, and names that differ in case only are of one class. */
  ghost predicate Feasible(n: Naming, snapshot: Files, tiles: seq<Tile>) {
    && (forall t :: t in tiles ==> NoRepeats(t.candidates))
    && Lawful(n, AllNames(snapshot, tiles))
  }

  /** What each tile needs of a class, in turn. */
  function Lists(n: Naming, tiles: seq<Tile>, k: string): (lists: seq<set<Candidate>>)
    ensures |lists| == |tiles| && forall i :: 0 <= i < |tiles| ==> lists[i] == Wanted(n, tiles[i].candidates, k)
  {
    seq(|tiles|, i requires 0 <= i < |tiles| => Wanted(n, tiles[i].candidates, k))
  }

  /** What the last tile that needs the class needs of it. */
  function LastWanting(lists: seq<set<Candidate>>): set<Candidate> {
    if lists == [] then {}
    else if lists[|lists| - 1] != {} then lists[|lists| - 1]
    else LastWanting(lists[..|lists| - 1])
  }

  /** What the tiles make of a class of the snapshot. */
  function ClassResult(n: Naming, snapshot: Files, tiles: seq<Tile>, k: string): Option<Files> {
    JoinAll(n, InClass(n, snapshot, k), Lists(n, tiles, k))
  }

  predicate Unblocked(tiles: seq<Tile>) {
    forall t :: t in tiles ==> !t.blocked
  }

  /** File f in the package: projected as its class came out, listed if its class is needed, under a source of the last
      tile that needs it. */
  predicate FileAt(n: Naming, snapshot: Files, tiles: seq<Tile>, st: State, f: string) {
    var k := Class(n, f);
    var r, w := ClassResult(n, snapshot, tiles, k), LastWanting(Lists(n, tiles, k));
    && r.Some?
    && NoConflictAt(st, f)
    && At(st, f).0 == Get(r.value, f)
    && (At(st, f).1.Some? <==> w != {} && f in r.value)
    && (At(st, f).1.Some? ==> ComesFrom(n, w, f, At(st, f).1.value.source))
  }

  ghost predicate AllJoin(n: Naming, snapshot: Files, tiles: seq<Tile>) {
    forall k :: ClassResult(n, snapshot, tiles, k).Some?
  }

  ghost predicate AllFilesAt(n: Naming, snapshot: Files, tiles: seq<Tile>, st: State) {
    forall f :: FileAt(n, snapshot, tiles, st, f)
  }

  predicate ComesOut(n: Naming, snapshot: Files, tiles: seq<Tile>, f: string) {
    var r := ClassResult(n, snapshot, tiles, Class(n, f));
    r.Some? && f in r.value
  }

  /** The files that the classes come out as. */
  function Out(n: Naming, snapshot: Files, tiles: seq<Tile>): set<string> {
    set f | f in AllNames(snapshot, tiles) && ComesOut(n, snapshot, tiles, f)
  }

  /** There is room for the files before each tile. */
  ghost predicate Roomy(n: Naming, snapshot: Files, tiles: seq<Tile>) {
    forall i :: 0 <= i < |tiles| ==> |Out(n, snapshot, tiles[..i])| <= MAX_FILES
  }

  ghost predicate ByClass(n: Naming, snapshot: Files, tiles: seq<Tile>, st: State) {
    && (!st.issues <==> Unblocked(tiles) && AllJoin(n, snapshot, tiles) && Roomy(n, snapshot, tiles))
    && (!st.issues ==> AllFilesAt(n, snapshot, tiles, st))
  }

  lemma ListsGrow(n: Naming, tiles: seq<Tile>, t: Tile, k: string)
    ensures Lists(n, tiles + [t], k) == Lists(n, tiles, k) + [Wanted(n, t.candidates, k)]
  {}

  lemma ClassGrows(n: Naming, snapshot: Files, tiles: seq<Tile>, t: Tile, k: string)
    ensures var before, w := ClassResult(n, snapshot, tiles, k), Wanted(n, t.candidates, k);
            && ClassResult(n, snapshot, tiles + [t], k) == (if before.None? then None else Join(n, before.value, w))
            && LastWanting(Lists(n, tiles + [t], k)) == (if w == {} then LastWanting(Lists(n, tiles, k)) else w)
  {
    ListsGrow(n, tiles, t, k);
    var lists, w := Lists(n, tiles, k), Wanted(n, t.candidates, k);
    assert (lists + [w])[..|lists|] == lists;
    hide Join, Wanted, InClass;
  }

  /** Files of a class stay in the class, and are the snapshot's or sources. */
  lemma {:induction false} ResultNames(n: Naming, snapshot: Files, tiles: seq<Tile>, k: string, f: string)
    requires ClassResult(n, snapshot, tiles, k).Some? && f in ClassResult(n, snapshot, tiles, k).value
    ensures Class(n, f) == k && f in AllNames(snapshot, tiles)
  {
    if tiles != [] {
      var front, t := tiles[..|tiles| - 1], tiles[|tiles| - 1];
      assert tiles == front + [t];
      ClassGrows(n, snapshot, front, t, k);
      var before := ClassResult(n, snapshot, front, k).value;
      hide ClassResult, Agree;
      if f in before {
        ResultNames(n, snapshot, front, k, f);
      }
    }
  }

  lemma ProjectedClass(n: Naming, snapshot: Files, tiles: seq<Tile>, st: State, k: string)
    requires ByClass(n, snapshot, tiles, st) && !st.issues
    ensures ClassResult(n, snapshot, tiles, k) == Some(InClass(n, st.projected, k))
  {
    hide JoinAll, Lists, LastWanting, ComesFrom;
    assert ClassResult(n, snapshot, tiles, k).Some?;
    var r, m := ClassResult(n, snapshot, tiles, k).value, InClass(n, st.projected, k);
    forall f
      ensures f in r <==> f in m
      ensures f in r ==> r[f] == m[f]
    {
      assert FileAt(n, snapshot, tiles, st, f);
      if f in r {
        ResultNames(n, snapshot, tiles, k, f);
      }
    }
    assert r == m;
  }

  lemma NamesGrow(snapshot: Files, tiles: seq<Tile>, all: seq<Tile>)
    requires tiles <= all
    ensures AllNames(snapshot, tiles) <= AllNames(snapshot, all)
  {
    forall t | t in tiles
      ensures t in all
    {
      var i :| 0 <= i < |tiles| && tiles[i] == t;
      assert all[i] == t;
    }
  }

  lemma OutExactly(n: Naming, snapshot: Files, tiles: seq<Tile>, f: string)
    ensures f in Out(n, snapshot, tiles) <==> ComesOut(n, snapshot, tiles, f)
  {
    hide AllNames, ClassResult, Class;
    if ComesOut(n, snapshot, tiles, f) {
      ResultNames(n, snapshot, tiles, Class(n, f), f);
    }
  }

  lemma ProjectedOut(n: Naming, snapshot: Files, tiles: seq<Tile>, st: State)
    requires ByClass(n, snapshot, tiles, st) && !st.issues
    ensures st.projected.Keys == Out(n, snapshot, tiles) && |st.projected| == |Out(n, snapshot, tiles)|
    ensures st.projected.Keys <= AllNames(snapshot, tiles)
  {
    hide AllNames, Lists, LastWanting, ComesFrom, ClassResult, Roomy;
    forall f
      ensures f in st.projected <==> f in Out(n, snapshot, tiles)
    {
      assert FileAt(n, snapshot, tiles, st, f);
      OutExactly(n, snapshot, tiles, f);
    }
    assert st.projected.Keys == Out(n, snapshot, tiles) && |st.projected| == |st.projected.Keys|;
  }

  lemma RoomyGrows(n: Naming, snapshot: Files, tiles: seq<Tile>, t: Tile)
    ensures Roomy(n, snapshot, tiles + [t]) <==> Roomy(n, snapshot, tiles) && |Out(n, snapshot, tiles)| <= MAX_FILES
  {
    hide Out;
    var all := tiles + [t];
    assert forall i :: 0 <= i <= |tiles| ==> all[..i] == tiles[..i];
    assert all[..|tiles|] == tiles;
    assert tiles[..|tiles|] == tiles;
  }

  lemma NamesOfTile(n: Naming, snapshot: Files, all: seq<Tile>, i: nat)
    requires i < |all| && Feasible(n, snapshot, all)
    ensures NoRepeats(all[i].candidates) && Sources(all[i].candidates) <= AllNames(snapshot, all)
  {
    assert all[i] in all;
  }

  lemma PlannableWithin(n: Naming, target: Files, cs: seq<Candidate>, names: set<string>)
    requires target.Keys <= names && Sources(cs) <= names && NoRepeats(cs) && Lawful(n, names) && |target| <= MAX_FILES
    ensures Plannable(n, target, cs)
  {}

  lemma ProjectedFits(n: Naming, snapshot: Files, tiles: seq<Tile>, all: seq<Tile>, st: State, t: Tile)
    requires ByClass(n, snapshot, tiles, st) && !st.issues && tiles + [t] <= all && Feasible(n, snapshot, all)
    requires |st.projected| <= MAX_FILES
    ensures Plannable(n, st.projected, t.candidates)
  {
    hide ByClass, Lawful, AllNames, NoRepeats, Sources, Plannable;
    assert t == (tiles + [t])[|tiles|] == all[|tiles|];
    assert tiles <= all;
    ProjectedOut(n, snapshot, tiles, st);
    NamesGrow(snapshot, tiles, all);
    NamesOfTile(n, snapshot, all, |tiles|);
    PlannableWithin(n, st.projected, t.candidates, AllNames(snapshot, all));
  }

  lemma ByClassGrows(n: Naming, snapshot: Files, tiles: seq<Tile>, all: seq<Tile>, st: State, t: Tile)
    requires tiles + [t] <= all && Feasible(n, snapshot, all) && ByClass(n, snapshot, tiles, st)
    ensures ByClass(n, snapshot, tiles + [t], AddTile(n, snapshot, st, t))
  {
    var next := AddTile(n, snapshot, st, t);
    AddTileIssues(n, snapshot, st, t);
    AllJoinGrows(n, snapshot, tiles, st, t);
    RoomyGrows(n, snapshot, tiles, t);
    NoRoomNoPlan(n, st.projected, t);
    assert Unblocked(tiles + [t]) <==> Unblocked(tiles) && !t.blocked;
    hide AddTile, PlanTile, Feasible, Unblocked, AllJoin, AllFilesAt, Joined, Roomy, Out;
    if !st.issues {
      ProjectedOut(n, snapshot, tiles, st);
    }
    if !st.issues && |st.projected| <= MAX_FILES {
      ProjectedFits(n, snapshot, tiles, all, st, t);
      TileByClass(n, st.projected, t);
      if !next.issues {
        AllFilesGrow(n, snapshot, tiles, st, t);
      }
    }
  }

  lemma NoRoomNoPlan(n: Naming, target: Files, t: Tile)
    ensures |target| > MAX_FILES ==> PlanTile(n, target, t).issues
  {}

  lemma AllJoinGrows(n: Naming, snapshot: Files, tiles: seq<Tile>, st: State, t: Tile)
    requires ByClass(n, snapshot, tiles, st)
    ensures AllJoin(n, snapshot, tiles + [t]) ==> AllJoin(n, snapshot, tiles)
    ensures !st.issues ==> (AllJoin(n, snapshot, tiles + [t]) <==> forall k :: Joined(n, st.projected, t.candidates, k).Some?)
  {
    hide ByClass, ClassResult, Joined;
    forall k
      ensures ClassResult(n, snapshot, tiles + [t], k).Some? ==> ClassResult(n, snapshot, tiles, k).Some?
      ensures !st.issues ==> ClassResult(n, snapshot, tiles + [t], k) == Joined(n, st.projected, t.candidates, k)
    {
      JoinedNext(n, snapshot, tiles, st, t, k);
    }
  }

  lemma JoinedNext(n: Naming, snapshot: Files, tiles: seq<Tile>, st: State, t: Tile, k: string)
    requires ByClass(n, snapshot, tiles, st)
    ensures ClassResult(n, snapshot, tiles + [t], k).Some? ==> ClassResult(n, snapshot, tiles, k).Some?
    ensures !st.issues ==> ClassResult(n, snapshot, tiles + [t], k) == Joined(n, st.projected, t.candidates, k)
  {
    hide ByClass, ClassResult, Lists, LastWanting;
    ClassGrows(n, snapshot, tiles, t, k);
    if !st.issues {
      ProjectedClass(n, snapshot, tiles, st, k);
    }
  }

  lemma AllFilesGrow(n: Naming, snapshot: Files, tiles: seq<Tile>, st: State, t: Tile)
    requires ByClass(n, snapshot, tiles, st) && !st.issues && Plannable(n, st.projected, t.candidates)
    requires !PlanTile(n, st.projected, t).issues
    ensures AllFilesAt(n, snapshot, tiles + [t], AddTile(n, snapshot, st, t))
  {
    TileByClass(n, st.projected, t);
    assert Clean(n, st.projected, t.candidates);
    hide Clean, FileAt, AddTile, PlanTile, ClassResult, Joined;
    forall f
      ensures FileAt(n, snapshot, tiles + [t], AddTile(n, snapshot, st, t), f)
    {
      JoinedNext(n, snapshot, tiles, st, t, Class(n, f));
      FileAtGrows(n, snapshot, tiles, st, t, f);
    }
  }

  lemma {:induction false} RecordAllIssues(snapshot: Files, st: State, es: seq<Entry>)
    ensures RecordAll(snapshot, st, es).issues == st.issues
  {
    if es != [] {
      RecordAllIssues(snapshot, st, es[..|es| - 1]);
    }
  }

  lemma AddTileIssues(n: Naming, snapshot: Files, st: State, t: Tile)
    ensures AddTile(n, snapshot, st, t).issues <==> st.issues || PlanTile(n, st.projected, t).issues
  {
    var plan := PlanTile(n, st.projected, t);
    hide PlanTile, RecordAll;
    RecordAllIssues(snapshot, st.(issues := st.issues || plan.issues), plan.entries);
  }

  lemma FileAtGrows(n: Naming, snapshot: Files, tiles: seq<Tile>, st: State, t: Tile, f: string)
    requires Clean(n, st.projected, t.candidates) && !PlanTile(n, st.projected, t).issues
    requires FileAt(n, snapshot, tiles, st, f)
    requires ClassResult(n, snapshot, tiles + [t], Class(n, f)) == Joined(n, st.projected, t.candidates, Class(n, f))
    ensures FileAt(n, snapshot, tiles + [t], AddTile(n, snapshot, st, t), f)
  {
    var k := Class(n, f);
    CleanJoins(n, st.projected, t.candidates, k);
    AddCleanTile(n, snapshot, st, t, f);
    ClassGrows(n, snapshot, tiles, t, k);
    assert Join(n, ClassResult(n, snapshot, tiles, k).value, {}) == ClassResult(n, snapshot, tiles, k);
    hide AddTile, PlanTile, Clean, ClassResult, Joined, Join, Lists, LastWanting, Wanted, ComesFrom, At, NoConflictAt, Class;
  }

  /** The package has no issue exactly when no tile is blocked, every class comes out, and before each tile there is room for
      what has come out; it then consists of the classes. */
  lemma {:induction false} PackageByClass(n: Naming, snapshot: Files, tiles: seq<Tile>, all: seq<Tile>)
    requires tiles <= all && Feasible(n, snapshot, all)
    ensures ByClass(n, snapshot, tiles, Package(n, snapshot, tiles))
  {
    hide ByClass, Feasible, AddTile;
    if tiles == [] {
      NothingByClass(n, snapshot);
    } else {
      var front, t := tiles[..|tiles| - 1], tiles[|tiles| - 1];
      assert tiles == front + [t];
      PackageByClass(n, snapshot, front, all);
      ByClassGrows(n, snapshot, front, all, Package(n, snapshot, front), t);
    }
  }

  lemma NothingByClass(n: Naming, snapshot: Files)
    ensures ByClass(n, snapshot, [], Start(snapshot))
  {}
}

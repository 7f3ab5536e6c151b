/** What the entries of a package show: no text that is shown drops or replaces a definition, conflicts included. */
module PackageShown {
  import opened Options
  import opened PackageTile
  import opened PackageAggregation

  /** A conflict shows the destination text on both sides, and a downgrade changes the action alone. */
  lemma ConflictShowsNoChange(n: Naming, target: Files, used: set<string>, c: Candidate)
    ensures var e := PlanOne(n, target, used, c);
            && e.source == c.source
            && (e.action == Conflict ==> e.after == e.before && (e.before.None? || e.before == Get(target, e.file)))
  {}

  lemma DowngradeKeepsRest(e: Entry)
    ensures var d := Downgraded(e);
            && d.file == e.file && d.source == e.source && d.before == e.before && d.after == e.after
            && (d.action == Conflict <==> e.action == Create || e.action == Add || e.action == Conflict)
            && (d.action != Conflict ==> d.action == e.action)
  {}

  /** What one more entry of a file shows: the first conflict there is, or else the entry itself, next to the text that the
      package began with. */
  lemma FirstConflictIsShown(snapshot: Files, st: State, e: Entry)
    ensures var next := Record(snapshot, st, e).files[e.file];
            && next.file == e.file
            && (e.file !in st.files ==> next == e)
            && (e.file in st.files ==>
                  && next.before == st.files[e.file].before
                  && (next.action == Conflict <==> st.files[e.file].action == Conflict || e.action == Conflict)
                  && var shown := if st.files[e.file].action == Conflict then st.files[e.file] else e;
                     next.source == shown.source && next.after == shown.after)
    ensures forall f :: f != e.file ==> (f in Record(snapshot, st, e).files <==> f in st.files)
    ensures forall f :: f != e.file && f in st.files ==> Record(snapshot, st, e).files[f] == st.files[f]
  {}

  // ---------- over all packages ----------

  /** A file that the tiles have added has another identity than every file of the snapshot. */
  predicate NewIdentities(n: Naming, snapshot: Files, projected: Files) {
    forall g, f :: g in projected && f in snapshot && n.identity(g) == n.identity(f) ==> g in snapshot
  }

  /** No other file of the snapshot has its identity. */
  predicate OneOfIdentity(n: Naming, snapshot: Files, f: string) {
    |Matching(n, snapshot.Keys, f)| <= 1
  }

  ghost predicate Shown(n: Naming, snapshot: Files, st: State) {
    && NewIdentities(n, snapshot, st.projected)
    && (forall f :: f in st.files ==> Extends(st.files[f].before, st.files[f].after))
    && (forall f :: f in st.files && f in snapshot && st.files[f].action != Conflict ==> OneOfIdentity(n, snapshot, f))
  }

  /** An entry as it is planned for a destination that `target` describes. */
  ghost predicate ShowsAll(n: Naming, snapshot: Files, target: Files, e: Entry) {
    && Extends(e.before, e.after)
    && (e.file in snapshot && OneOfIdentity(n, snapshot, e.file) ==> Extends(Get(snapshot, e.file), e.after))
    && (e.action != Conflict && e.file in snapshot ==> OneOfIdentity(n, snapshot, e.file))
    && (e.action != Conflict && e.file !in target ==> forall f :: f in snapshot ==> n.identity(f) != n.identity(e.file))
  }

  lemma SameMatching(n: Naming, snapshot: Files, target: Files, f: string)
    requires snapshot.Keys <= target.Keys && NewIdentities(n, snapshot, target) && f in snapshot
    ensures Matching(n, target.Keys, f) == Matching(n, snapshot.Keys, f)
  {}

  lemma PlacedFacts(n: Naming, names: set<string>, source: string)
    ensures var place := Place(n, names, source);
            && (place.Ambiguous? <==> |Matching(n, names, source)| > 1)
            && (!place.Ambiguous? ==> n.identity(place.file) == n.identity(source)
                                      && (place.file !in names ==> Matching(n, names, source) == {} && place.file == source))
  {}

  lemma SameIdentityMatches(n: Naming, names: set<string>, a: string, b: string)
    requires n.identity(a) == n.identity(b)
    ensures Matching(n, names, a) == Matching(n, names, b)
  {}

  lemma PlannedShowsAll(n: Naming, snapshot: Files, target: Files, used: set<string>, c: Candidate)
    requires snapshot.Keys <= target.Keys && NewIdentities(n, snapshot, target)
    requires forall f :: Extends(Get(snapshot, f), Get(target, f))
    ensures ShowsAll(n, snapshot, target, PlanOne(n, target, used, c))
  {
    var e, place := PlanOne(n, target, used, c), Place(n, target.Keys, c.source);
    PlacedFacts(n, target.Keys, c.source);
    ConflictShowsNoChange(n, target, used, c);
    EntryKeepsDefinitions(n, target, used, c);
    if c.source in snapshot {
      SameMatching(n, snapshot, target, c.source);
    }
    assert Extends(Get(snapshot, e.file), Get(target, e.file));
    if place.Ambiguous? {
      assert e.file == c.source && e.action == Conflict && e.before.None?;
    } else {
      assert e.file == place.file;
      SameIdentityMatches(n, target.Keys, c.source, e.file);
      if e.file in snapshot {
        SameMatching(n, snapshot, target, e.file);
      }
      hide Place, Matching, PlanOne, Merge;
      if e.file !in target {
        forall f | f in snapshot
          ensures n.identity(f) != n.identity(e.file)
        {
          NoMatch(n, target.Keys, c.source, f);
        }
      }
    }
  }

  lemma NoMatch(n: Naming, names: set<string>, source: string, f: string)
    requires Matching(n, names, source) == {} && f in names
    ensures n.identity(f) != n.identity(source)
  {
    assert f in Matching(n, names, source) <==> n.identity(f) == n.identity(source);
  }

  lemma RecordShows(n: Naming, snapshot: Files, target: Files, st: State, e: Entry)
    requires Sound(snapshot, st) && Shown(n, snapshot, st) && ShowsAll(n, snapshot, target, e) && target.Keys <= st.projected.Keys
    ensures Shown(n, snapshot, Record(snapshot, st, e))
    ensures st.projected.Keys <= Record(snapshot, st, e).projected.Keys
  {
    hide OneOfIdentity, Extends, Sound, Combined;
    var next := Record(snapshot, st, e);
    CombinedShows(n, snapshot, target, st, e);
    assert forall f :: f in next.files && f != e.file ==> next.files[f] == st.files[f];
  }

  lemma CombinedShows(n: Naming, snapshot: Files, target: Files, st: State, e: Entry)
    requires Sound(snapshot, st) && Shown(n, snapshot, st) && ShowsAll(n, snapshot, target, e)
    ensures var next := Combined(snapshot, st.files, e);
            && Extends(next.before, next.after)
            && (next.action != Conflict ==> e.action != Conflict)
            && (e.file in snapshot && next.action != Conflict ==> OneOfIdentity(n, snapshot, e.file))
  {
    hide OneOfIdentity, NewIdentities;
    if e.file in st.files {
      assert SoundEntry(snapshot, st.projected, e.file, st.files[e.file]);
    }
  }

  lemma {:induction false} RecordAllShows(n: Naming, snapshot: Files, target: Files, st: State, es: seq<Entry>)
    requires Sound(snapshot, st) && Shown(n, snapshot, st) && target.Keys <= st.projected.Keys
    requires forall e :: e in es ==> ShowsAll(n, snapshot, target, e)
    requires forall e :: e in es ==> Fits(snapshot, st.files.Keys, e) && (e.action == Conflict ==> st.issues)
    ensures var next := RecordAll(snapshot, st, es); Shown(n, snapshot, next) && target.Keys <= next.projected.Keys
  {
    if es != [] {
      var front, last := es[..|es| - 1], es[|es| - 1];
      assert last in es && forall e :: e in front ==> e in es;
      hide Sound, Shown, ShowsAll, Fits, Record;
      RecordAllShows(n, snapshot, target, st, front);
      RecordAllKeepsSound(snapshot, st, front);
      RecordShows(n, snapshot, target, RecordAll(snapshot, st, front), last);
    }
  }

  lemma PlanShowsAll(n: Naming, snapshot: Files, target: Files, tile: Tile)
    requires snapshot.Keys <= target.Keys && NewIdentities(n, snapshot, target)
    requires forall f :: Extends(Get(snapshot, f), Get(target, f))
    ensures forall e :: e in PlanTile(n, target, tile).entries ==> ShowsAll(n, snapshot, target, e)
  {
    if |target| <= MAX_FILES {
      var plan := PlanTile(n, target, tile);
      forall i | 0 <= i < |plan.entries|
        ensures ShowsAll(n, snapshot, target, plan.entries[i])
      {
        OneShowsAll(n, snapshot, target, tile, i);
      }
    }
  }

  lemma OneShowsAll(n: Naming, snapshot: Files, target: Files, tile: Tile, i: nat)
    requires snapshot.Keys <= target.Keys && NewIdentities(n, snapshot, target)
    requires forall f :: Extends(Get(snapshot, f), Get(target, f))
    requires |target| <= MAX_FILES && i < |tile.candidates|
    ensures var plan := PlanTile(n, target, tile); |plan.entries| == |tile.candidates| && ShowsAll(n, snapshot, target, plan.entries[i])
  {
    PlannedEntry(n, target, tile, i);
    var used := UsedBy(n, target, tile.candidates[..i]);
    PlannedShowsAll(n, snapshot, target, used, tile.candidates[i]);
    DowngradeKeepsRest(PlanOne(n, target, used, tile.candidates[i]));
    hide PlanTile, PlanOne, UsedBy, OneOfIdentity, Extends, NewIdentities, Downgraded;
  }

  /** Whatever the tiles are, every entry of the package shows a text with all definitions of the one it is compared with. */
  lemma {:induction false} PackageShowsAll(n: Naming, snapshot: Files, tiles: seq<Tile>)
    ensures Shown(n, snapshot, Package(n, snapshot, tiles))
  {
    if tiles == [] {
      assert Package(n, snapshot, tiles) == Start(snapshot);
    } else {
      var st, tile := Package(n, snapshot, tiles[..|tiles| - 1]), tiles[|tiles| - 1];
      PackageShowsAll(n, snapshot, tiles[..|tiles| - 1]);
      PackageIsSound(n, snapshot, tiles[..|tiles| - 1]);
      TileShowsAll(n, snapshot, st, tile);
    }
  }

  lemma TileShowsAll(n: Naming, snapshot: Files, st: State, tile: Tile)
    requires Sound(snapshot, st) && Shown(n, snapshot, st)
    ensures Shown(n, snapshot, AddTile(n, snapshot, st, tile))
  {
    var plan := PlanTile(n, st.projected, tile);
    var begun := st.(issues := st.issues || plan.issues);
    SnapshotStays(snapshot, st);
    PlannedFits(n, snapshot, st, tile);
    hide PlanTile, SoundEntry, Fits, ShowsAll, Extends, OneOfIdentity, NewIdentities;
    PlanShowsAll(n, snapshot, st.projected, tile);
    RecordAllShows(n, snapshot, st.projected, begun, plan.entries);
  }

  lemma SnapshotStays(snapshot: Files, st: State)
    requires Sound(snapshot, st)
    ensures snapshot.Keys <= st.projected.Keys
  {
    forall f | f in snapshot
      ensures f in st.projected
    {
      assert Extends(Get(snapshot, f), Get(st.projected, f));
    }
  }
}

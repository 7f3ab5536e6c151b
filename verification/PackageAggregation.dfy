/** Folding the tiles of all selected dashboards into one package for a destination model. */
module PackageAggregation {
  import opened Options
  import opened PackageTile

  /** The package so far, and the destination as it would be once the package is applied. */
  datatype State = State(files: map<string, Entry>, projected: Files, issues: bool)

  function Start(snapshot: Files): State {
    State(map[], snapshot, false)
  }

  /** The entry for a file that may be in the package already. */
  function Combined(snapshot: Files, files: map<string, Entry>, e: Entry): Entry {
    if e.file !in files then e
    else
      var previous := files[e.file];
      var shown := if previous.action == Conflict then previous else e;
      var conflict := previous.action == Conflict || e.action == Conflict;
      Entry(e.file, shown.source, previous.before, shown.after,
            if conflict then Conflict
            else if previous.before == e.after then Reuse
            else if e.file in snapshot then Add else Create)
  }

  /** Absent text is never projected. */
  function Put(files: Files, file: string, text: Option<Content>): Files {
    if text.Some? then files[file := text.value] else files
  }

  function Record(snapshot: Files, st: State, e: Entry): State {
    var next := Combined(snapshot, st.files, e);
    State(st.files[e.file := next],
          if next.action != Conflict then Put(st.projected, e.file, next.after) else st.projected,
          st.issues)
  }

  function RecordAll(snapshot: Files, st: State, es: seq<Entry>): State {
    if es == [] then st else Record(snapshot, RecordAll(snapshot, st, es[..|es| - 1]), es[|es| - 1])
  }

  function AddTile(n: Naming, snapshot: Files, st: State, tile: Tile): State {
    var plan := PlanTile(n, st.projected, tile);
    RecordAll(snapshot, st.(issues := st.issues || plan.issues), plan.entries)
  }

  function AddTiles(n: Naming, snapshot: Files, st: State, tiles: seq<Tile>): State {
    if tiles == [] then st else AddTile(n, snapshot, AddTiles(n, snapshot, st, tiles[..|tiles| - 1]), tiles[|tiles| - 1])
  }

  function Package(n: Naming, snapshot: Files, tiles: seq<Tile>): State {
    AddTiles(n, snapshot, Start(snapshot), tiles)
  }

  method RecordPlan(snapshot: Files, st: State, entries: seq<Entry>) returns (r: State)
    ensures r == RecordAll(snapshot, st, entries)
  {
    var files, projected := st.files, st.projected;
    for j := 0 to |entries|
      invariant State(files, projected, st.issues) == RecordAll(snapshot, st, entries[..j])
    {
      assert entries[..j + 1][..j] == entries[..j];
      hide Combined, Put;
      var e := entries[j];
      var next := Combined(snapshot, files, e);
      files := files[e.file := next];
      if next.action != Conflict {
        projected := Put(projected, e.file, next.after);
      }
    }
    assert entries[..|entries|] == entries;
    return State(files, projected, st.issues);
  }

  method PreparePackage(n: Naming, snapshot: Files, tiles: seq<Tile>) returns (st: State)
    ensures st == Package(n, snapshot, tiles)
  {
    hide RecordAll, PlanTile;
    st := Start(snapshot);
    for i := 0 to |tiles|
      invariant st == Package(n, snapshot, tiles[..i])
    {
      var plan := PlanFiles(n, st.projected, tiles[i]);
      st := RecordPlan(snapshot, st.(issues := st.issues || plan.issues), plan.entries);
      assert tiles[..i + 1][..i] == tiles[..i];
    }
    assert tiles[..|tiles|] == tiles;
  }

  // ---------- what every package keeps ----------

  /** Text `b` holds all definitions of text `a`. */
  predicate Extends(a: Option<Content>, b: Option<Content>) {
    a.Some? ==> b.Some? && forall k :: k in a.value ==> k in b.value && b.value[k] == a.value[k]
  }

  predicate SoundEntry(snapshot: Files, projected: Files, f: string, e: Entry) {
    && e.file == f
    && (e.before == Get(snapshot, f) || (e.before.None? && e.action == Conflict))
    && (e.action != Conflict ==>
          && e.after.Some? && e.after == Get(projected, f)
          && Extends(e.before, e.after)
          && (e.action == Create <==> f !in snapshot)
          && (e.action == Reuse <==> e.before == e.after))
  }

  ghost predicate Sound(snapshot: Files, st: State) {
    && (forall f :: f in st.files ==> SoundEntry(snapshot, st.projected, f, st.files[f]))
    && (forall f :: f in st.files && st.files[f].action == Conflict ==> st.issues)
    && (forall f :: f !in st.files ==> Get(st.projected, f) == Get(snapshot, f))
    && (forall f :: Extends(Get(snapshot, f), Get(st.projected, f)))
  }

  /** An entry planned against files that agree with the snapshot wherever the package has nothing yet;
      `known` are the files of the package. */
  predicate Fits(snapshot: Files, known: set<string>, e: Entry) {
    && (e.file !in known ==> e.before == Get(snapshot, e.file) || (e.before.None? && e.action == Conflict))
    && (e.action != Conflict ==>
          && e.after.Some? && Extends(Get(snapshot, e.file), e.after)
          && (e.file !in known ==> (e.action == Create <==> e.file !in snapshot) && (e.action == Reuse <==> e.before == e.after)))
  }

  lemma CombinedIsSound(snapshot: Files, st: State, e: Entry)
    requires Sound(snapshot, st) && Fits(snapshot, st.files.Keys, e) && (e.action == Conflict ==> st.issues)
    ensures var next := Combined(snapshot, st.files, e);
            && SoundEntry(snapshot, Record(snapshot, st, e).projected, e.file, next)
            && (next.action == Conflict ==> st.issues)
            && (next.action != Conflict ==> Extends(Get(snapshot, e.file), next.after))
  {}

  lemma SoundElsewhere(snapshot: Files, projected: Files, next: Files, f: string, e: Entry)
    requires SoundEntry(snapshot, projected, f, e) && Get(projected, f) == Get(next, f)
    ensures SoundEntry(snapshot, next, f, e)
  {}

  lemma RecordKeepsSound(snapshot: Files, st: State, e: Entry)
    requires Sound(snapshot, st) && Fits(snapshot, st.files.Keys, e) && (e.action == Conflict ==> st.issues)
    ensures Sound(snapshot, Record(snapshot, st, e))
  {
    CombinedIsSound(snapshot, st, e);
    RecordedEntries(snapshot, st, e);
    RecordedTexts(snapshot, st, e);
    hide Combined, Extends, Fits, SoundEntry, Put;
  }

  lemma RecordedTexts(snapshot: Files, st: State, e: Entry)
    requires forall f :: f !in st.files ==> Get(st.projected, f) == Get(snapshot, f)
    requires forall f :: Extends(Get(snapshot, f), Get(st.projected, f))
    requires var next := Combined(snapshot, st.files, e); next.action != Conflict ==> Extends(Get(snapshot, e.file), next.after)
    ensures var next := Record(snapshot, st, e);
            && (forall f :: f !in next.files ==> Get(next.projected, f) == Get(snapshot, f))
            && forall f :: Extends(Get(snapshot, f), Get(next.projected, f))
  {
    hide Combined, Extends;
    var next := Record(snapshot, st, e);
    forall f
      ensures f !in next.files ==> Get(next.projected, f) == Get(snapshot, f)
      ensures Extends(Get(snapshot, f), Get(next.projected, f))
    {
      assert Extends(Get(snapshot, f), Get(st.projected, f));
    }
  }

  lemma RecordedEntries(snapshot: Files, st: State, e: Entry)
    requires forall f :: f in st.files ==> SoundEntry(snapshot, st.projected, f, st.files[f])
    requires SoundEntry(snapshot, Record(snapshot, st, e).projected, e.file, Combined(snapshot, st.files, e))
    ensures var next := Record(snapshot, st, e); forall f :: f in next.files ==> SoundEntry(snapshot, next.projected, f, next.files[f])
  {
    var next := Record(snapshot, st, e);
    hide Combined, SoundEntry;
    forall f | f in next.files
      ensures SoundEntry(snapshot, next.projected, f, next.files[f])
    {
      if f != e.file {
        SoundElsewhere(snapshot, st.projected, next.projected, f, st.files[f]);
      }
    }
  }

  lemma {:induction false} RecordAllKeepsSound(snapshot: Files, st: State, es: seq<Entry>)
    requires Sound(snapshot, st)
    requires forall e :: e in es ==> Fits(snapshot, st.files.Keys, e) && (e.action == Conflict ==> st.issues)
    ensures var next := RecordAll(snapshot, st, es);
            && Sound(snapshot, next) && next.issues == st.issues && st.files.Keys <= next.files.Keys
  {
    if es != [] {
      RecordAllKeepsSound(snapshot, st, es[..|es| - 1]);
      hide Sound, Combined, Put;
      var last := RecordAll(snapshot, st, es[..|es| - 1]);
      assert es[|es| - 1] in es;
      RecordKeepsSound(snapshot, last, es[|es| - 1]);
    }
  }

  lemma PlannedFits(n: Naming, snapshot: Files, st: State, tile: Tile)
    requires Sound(snapshot, st)
    ensures var plan := PlanTile(n, st.projected, tile);
            forall e :: e in plan.entries ==> Fits(snapshot, st.files.Keys, e) && (e.action == Conflict ==> plan.issues)
  {
    var plan := PlanTile(n, st.projected, tile);
    if |st.projected| <= MAX_FILES {
      forall i | 0 <= i < |plan.entries|
        ensures Fits(snapshot, st.files.Keys, plan.entries[i]) && (plan.entries[i].action == Conflict ==> plan.issues)
      {
        PlannedEntryFits(n, snapshot, st, tile, i);
      }
    }
  }

  lemma PlannedEntryFits(n: Naming, snapshot: Files, st: State, tile: Tile, i: nat)
    requires Sound(snapshot, st) && |st.projected| <= MAX_FILES && i < |tile.candidates|
    ensures var plan := PlanTile(n, st.projected, tile);
            && |plan.entries| == |tile.candidates|
            && Fits(snapshot, st.files.Keys, plan.entries[i])
            && (plan.entries[i].action == Conflict ==> plan.issues)
  {
    PlannedEntry(n, st.projected, tile, i);
    var used := UsedBy(n, st.projected, tile.candidates[..i]);
    OneFits(n, snapshot, st, used, tile.candidates[i]);
    hide PlanTile, Sound, PlanOne, UsedBy, Extends, Fits;
  }

  lemma OneFits(n: Naming, snapshot: Files, st: State, used: set<string>, c: Candidate)
    requires Sound(snapshot, st)
    ensures var e := PlanOne(n, st.projected, used, c);
            Fits(snapshot, st.files.Keys, e) && Fits(snapshot, st.files.Keys, Downgraded(e))
  {
    var e := PlanOne(n, st.projected, used, c);
    EntryKeepsDefinitions(n, st.projected, used, c);
    BeforeIsTargetText(n, st.projected, used, c);
    hide PlanOne, SoundEntry;
    assert Extends(Get(snapshot, e.file), Get(st.projected, e.file));
  }

  lemma AddTileKeepsSound(n: Naming, snapshot: Files, st: State, tile: Tile)
    requires Sound(snapshot, st)
    ensures Sound(snapshot, AddTile(n, snapshot, st, tile))
    ensures AddTile(n, snapshot, st, tile).issues == (st.issues || PlanTile(n, st.projected, tile).issues)
  {
    var plan := PlanTile(n, st.projected, tile);
    PlannedFits(n, snapshot, st, tile);
    hide PlanTile, SoundEntry, Fits;
    RecordAllKeepsSound(snapshot, st.(issues := st.issues || plan.issues), plan.entries);
  }

  /** Whatever the tiles are: `before` is the snapshot's text, nothing in the destination is changed or lost,
      and `projected` equals `after` for every file that is no conflict. */
  lemma {:induction false} PackageIsSound(n: Naming, snapshot: Files, tiles: seq<Tile>)
    ensures Sound(snapshot, Package(n, snapshot, tiles))
  {
    if tiles != [] {
      PackageIsSound(n, snapshot, tiles[..|tiles| - 1]);
      hide Sound;
      AddTileKeepsSound(n, snapshot, Package(n, snapshot, tiles[..|tiles| - 1]), tiles[|tiles| - 1]);
    } else {
      assert Package(n, snapshot, tiles) == Start(snapshot);
    }
  }

  // ---------- conflicts stay ----------

  /** Every conflict of the first package is in the second, with the same finding. */
  ghost predicate ConflictsStay(a: State, b: State) {
    && (a.issues ==> b.issues)
    && (forall f :: f in a.files ==>
          && f in b.files && b.files[f].before == a.files[f].before
          && (a.files[f].action == Conflict ==>
                b.files[f].action == Conflict && b.files[f].source == a.files[f].source && b.files[f].after == a.files[f].after))
  }

  lemma {:induction false} RecordAllKeepsConflicts(snapshot: Files, st: State, es: seq<Entry>)
    ensures ConflictsStay(st, RecordAll(snapshot, st, es))
  {
    if es != [] {
      RecordAllKeepsConflicts(snapshot, st, es[..|es| - 1]);
    }
  }

  /** More tiles never remove a conflict, change its finding, or clear an issue. */
  lemma {:induction false} MoreTilesKeepConflicts(n: Naming, snapshot: Files, st: State, tiles: seq<Tile>)
    ensures ConflictsStay(st, AddTiles(n, snapshot, st, tiles))
  {
    if tiles != [] {
      MoreTilesKeepConflicts(n, snapshot, st, tiles[..|tiles| - 1]);
      var mid := AddTiles(n, snapshot, st, tiles[..|tiles| - 1]);
      var plan := PlanTile(n, mid.projected, tiles[|tiles| - 1]);
      hide PlanTile, RecordAll;
      RecordAllKeepsConflicts(snapshot, mid.(issues := mid.issues || plan.issues), plan.entries);
    }
  }
}

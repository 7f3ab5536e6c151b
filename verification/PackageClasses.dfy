/** Files that compete for one place: classes of names that are the same identity but for case, and what the tiles of a
    package make of each class on its own. */
module PackageClasses {
  import opened Options
  import opened PackageTile

  function Class(n: Naming, name: string): string {
    n.fold(n.identity(name))
  }

  /** Names that are the same but for case have identities that are the same but for case. */
  ghost predicate Lawful(n: Naming, names: set<string>) {
    forall a, b :: a in names && b in names && n.fold(a) == n.fold(b) ==> Class(n, a) == Class(n, b)
  }

  function InClass(n: Naming, files: Files, k: string): Files {
    map f | f in files && Class(n, f) == k :: files[f]
  }

  /** The candidates of a tile in a class. */
  function Wanted(n: Naming, cs: seq<Candidate>, k: string): set<Candidate> {
    set c | c in cs && Class(n, c.source) == k
  }

  predicate Single(cs: set<Candidate>) {
    forall c, d :: c in cs && d in cs ==> c == d
  }

  /** There is at most one file. */
  predicate Alone(m: Files) {
    forall f, g :: f in m && g in m ==> f == g
  }

  predicate FoldsDiffer(n: Naming, cs: set<Candidate>) {
    forall c, d :: c in cs && d in cs && c != d ==> n.fold(c.source) != n.fold(d.source)
  }

  function Created(n: Naming, cs: set<Candidate>): Files
    requires FoldsDiffer(n, cs)
  {
    map c | c in cs :: c.source := c.content
  }

  /** The file there is has the identity of the candidate and agrees with it. */
  predicate Takes(n: Naming, m: Files, cs: set<Candidate>) {
    forall f, c :: f in m && c in cs ==> n.identity(f) == n.identity(c.source) && Agree(m[f], c.content)
  }

  function Extended(m: Files, cs: set<Candidate>): Files
    requires cs != {} && Single(cs)
  {
    var c :| c in cs;
    map f | f in m :: m[f] + c.content
  }

  /** The files of a class after a tile that needs these candidates of the class, or None when the tile has a conflict in it. */
  function Join(n: Naming, m: Files, cs: set<Candidate>): Option<Files> {
    if cs == {} then Some(m)
    else if m == map[] then if FoldsDiffer(n, cs) then Some(Created(n, cs)) else None
    else if Alone(m) && Single(cs) && Takes(n, m, cs) then Some(Extended(m, cs))
    else None
  }

  function JoinAll(n: Naming, m: Files, lists: seq<set<Candidate>>): Option<Files> {
    if lists == [] then Some(m)
    else
      var before := JoinAll(n, m, lists[..|lists| - 1]);
      if before.None? then None else Join(n, before.value, lists[|lists| - 1])
  }

  // ---------- where a candidate goes ----------

  lemma OneOrNone(s: set<string>)
    requires forall a, b :: a in s && b in s ==> a == b
    ensures |s| <= 1
  {
    if a :| a in s {
      assert s == {a};
    }
  }

  lemma PlaceInClass(n: Naming, target: Files, source: string)
    requires Lawful(n, target.Keys + {source})
    ensures var m, place := InClass(n, target, Class(n, source)), Place(n, target.Keys, source);
            && (place.Placed? <==> m == map[] || (Alone(m) && forall f :: f in m ==> n.identity(f) == n.identity(source)))
            && (m == map[] ==> place == Placed(source))
            && (place.Placed? && m != map[] ==> place.file in m)
            && (place.Placed? ==> n.identity(place.file) == n.identity(source))
  {
    var names := target.Keys;
    var m, matching := InClass(n, target, Class(n, source)), Matching(n, names, source);
    assert matching <= m.Keys;
    if |matching| <= 1 {
      var file := Destination(n, names, source);
      assert file == source || file in matching;
      assert source in names ==> source in matching;
      forall other | other in names && other != file
        ensures n.fold(other) == n.fold(file) || n.fold(n.identity(other)) == n.fold(n.identity(source)) <==> other in m
      {}
    } else if Alone(m) {
      OneOrNone(matching);
    }
    if Alone(m) {
      OneOrNone(matching);
    }
  }

  // ---------- one tile ----------

  /** A tile needs each source file once. */
  predicate NoRepeats(cs: seq<Candidate>) {
    forall i, j :: 0 <= i < j < |cs| ==> cs[i].source != cs[j].source
  }

  function Sources(cs: seq<Candidate>): set<string> {
    set c | c in cs :: c.source
  }

  /** Candidate j is placed under this name, lower-cased. */
  predicate FoldsTo(n: Naming, target: Files, c: Candidate, x: string) {
    Place(n, target.Keys, c.source).Placed? && n.fold(Place(n, target.Keys, c.source).file) == x
  }

  lemma {:induction false} UsedExactly(n: Naming, target: Files, cs: seq<Candidate>, x: string)
    ensures x in UsedBy(n, target, cs) <==> exists j :: 0 <= j < |cs| && FoldsTo(n, target, cs[j], x)
  {
    hide Place;
    if cs != [] {
      var front := cs[..|cs| - 1];
      UsedExactly(n, target, front, x);
      if j :| 0 <= j < |cs| && FoldsTo(n, target, cs[j], x) {
        assert j < |front| ==> FoldsTo(n, target, front[j], x);
      }
      if j :| 0 <= j < |front| && FoldsTo(n, target, front[j], x) {
        assert FoldsTo(n, target, cs[j], x);
      }
    }
  }

  /** Candidate i goes in: its class has room for it, and no candidate before it takes its name. */
  ghost predicate GoesIn(n: Naming, target: Files, cs: seq<Candidate>, i: nat)
    requires i < |cs|
  {
    var place := Place(n, target.Keys, cs[i].source);
    && place.Placed?
    && Merge(Get(target, place.file), cs[i].content).Some?
    && forall j :: 0 <= j < i ==> !FoldsTo(n, target, cs[j], n.fold(place.file))
  }

  lemma PlanOneExact(n: Naming, target: Files, used: set<string>, c: Candidate)
    ensures var e, place := PlanOne(n, target, used, c), Place(n, target.Keys, c.source);
            && (e.action != Conflict <==>
                  place.Placed? && n.fold(place.file) !in used && Merge(Get(target, place.file), c.content).Some?)
            && (e.action != Conflict ==> place == Placed(e.file) && e.source == c.source && e.after == Merge(Get(target, e.file), c.content))
  {}

  lemma UsedBefore(n: Naming, target: Files, cs: seq<Candidate>, i: nat, x: string)
    requires i < |cs|
    ensures x !in UsedBy(n, target, cs[..i]) <==> forall j :: 0 <= j < i ==> !FoldsTo(n, target, cs[j], x)
  {
    UsedExactly(n, target, cs[..i], x);
    hide FoldsTo, UsedBy;
    assert forall j :: 0 <= j < i ==> cs[..i][j] == cs[j];
  }

  lemma EntryOf(n: Naming, target: Files, cs: seq<Candidate>, i: nat)
    requires i < |cs|
    ensures var e, place := Entries(n, target, cs)[i], Place(n, target.Keys, cs[i].source);
            && (e.action != Conflict <==> GoesIn(n, target, cs, i))
            && (e.action != Conflict ==>
                  place == Placed(e.file) && e.source == cs[i].source && e.after == Merge(Get(target, e.file), cs[i].content))
  {
    hide Place, Entries, UsedBy, FoldsTo, Merge, PlanOne;
    EntryIsPlanned(n, target, cs, i);
    PlanOneExact(n, target, UsedBy(n, target, cs[..i]), cs[i]);
    var place := Place(n, target.Keys, cs[i].source);
    if place.Placed? {
      UsedBefore(n, target, cs, i, n.fold(place.file));
    }
  }

  // ---------- one tile, class by class ----------

  /** A tile to be planned: there is room, its sources differ, and the names involved are lawful. */
  ghost predicate Plannable(n: Naming, target: Files, cs: seq<Candidate>) {
    |target| <= MAX_FILES && NoRepeats(cs) && Lawful(n, target.Keys + Sources(cs))
  }

  /** What the tile makes of the class of this name. */
  function Joined(n: Naming, target: Files, cs: seq<Candidate>, k: string): Option<Files> {
    Join(n, InClass(n, target, k), Wanted(n, cs, k))
  }

  lemma PlaceOf(n: Naming, target: Files, cs: seq<Candidate>, i: nat)
    requires Plannable(n, target, cs) && i < |cs|
    ensures var source := cs[i].source;
            var m, place := InClass(n, target, Class(n, source)), Place(n, target.Keys, source);
            && (place.Placed? <==> m == map[] || (Alone(m) && forall f :: f in m ==> n.identity(f) == n.identity(source)))
            && (m == map[] ==> place == Placed(source))
            && (place.Placed? && m != map[] ==> place.file in m)
            && (place.Placed? ==> n.identity(place.file) == n.identity(source))
            && (place.Placed? ==> place.file in target.Keys + Sources(cs))
            && cs[i] in Wanted(n, cs, Class(n, source))
  {
    assert cs[i] in cs;
    PlaceInClass(n, target, cs[i].source);
  }

  /** Two placed candidates of one folded destination are of one class. */
  lemma SameFoldSameClass(n: Naming, target: Files, cs: seq<Candidate>, i: nat, j: nat)
    requires Plannable(n, target, cs) && i < |cs| && j < |cs|
    requires Place(n, target.Keys, cs[i].source).Placed? && Place(n, target.Keys, cs[j].source).Placed?
    requires n.fold(Place(n, target.Keys, cs[i].source).file) == n.fold(Place(n, target.Keys, cs[j].source).file)
    ensures Class(n, cs[i].source) == Class(n, cs[j].source)
  {
    hide *;
    HomeIsInClass(n, target, cs, i);
    HomeIsInClass(n, target, cs, j);
    LawfulPair(n, target, cs, Place(n, target.Keys, cs[i].source).file, Place(n, target.Keys, cs[j].source).file);
  }

  lemma HomeIsInClass(n: Naming, target: Files, cs: seq<Candidate>, i: nat)
    requires Plannable(n, target, cs) && i < |cs| && Place(n, target.Keys, cs[i].source).Placed?
    ensures var file := Place(n, target.Keys, cs[i].source).file;
            Class(n, file) == Class(n, cs[i].source) && file in target.Keys + Sources(cs)
  {
    PlaceOf(n, target, cs, i);
    hide Place, InClass, Wanted, Plannable;
  }

  lemma LawfulPair(n: Naming, target: Files, cs: seq<Candidate>, a: string, b: string)
    requires Plannable(n, target, cs) && a in target.Keys + Sources(cs) && b in target.Keys + Sources(cs) && n.fold(a) == n.fold(b)
    ensures Class(n, a) == Class(n, b)
  {}

  /** If the class joins, each of its candidates goes in. */
  lemma JoiningGoesIn(n: Naming, target: Files, cs: seq<Candidate>, i: nat)
    requires Plannable(n, target, cs) && i < |cs| && Joined(n, target, cs, Class(n, cs[i].source)).Some?
    ensures GoesIn(n, target, cs, i)
  {
    JoiningMerges(n, target, cs, i);
    hide Place, Merge, Joined, Plannable, FoldsTo;
    forall j | 0 <= j < i
      ensures !FoldsTo(n, target, cs[j], n.fold(Place(n, target.Keys, cs[i].source).file))
    {
      JoiningIsApart(n, target, cs, i, j);
    }
  }

  lemma JoiningMerges(n: Naming, target: Files, cs: seq<Candidate>, i: nat)
    requires Plannable(n, target, cs) && i < |cs| && Joined(n, target, cs, Class(n, cs[i].source)).Some?
    ensures Place(n, target.Keys, cs[i].source).Placed?
    ensures Merge(Get(target, Place(n, target.Keys, cs[i].source).file), cs[i].content).Some?
  {
    hide Place, Merge, Agree, Plannable, FoldsDiffer;
    var place := Place(n, target.Keys, cs[i].source);
    PlaceOf(n, target, cs, i);
    HomeIsInClass(n, target, cs, i);
    MergesWhenAgreed(target, place.file, cs[i].content);
    assert place.file in target ==> place.file in InClass(n, target, Class(n, cs[i].source));
  }

  lemma JoiningIsApart(n: Naming, target: Files, cs: seq<Candidate>, i: nat, j: nat)
    requires Plannable(n, target, cs) && j < i < |cs| && Joined(n, target, cs, Class(n, cs[i].source)).Some?
    requires Place(n, target.Keys, cs[i].source).Placed?
    ensures !FoldsTo(n, target, cs[j], n.fold(Place(n, target.Keys, cs[i].source).file))
  {
    assert cs[i] != cs[j];
    hide Place, Plannable, Takes, InClass, Wanted, Class;
    PlaceOf(n, target, cs, i);
    PlaceOf(n, target, cs, j);
    if Class(n, cs[i].source) == Class(n, cs[j].source) {
      SameClassApart(n, InClass(n, target, Class(n, cs[i].source)), Wanted(n, cs, Class(n, cs[i].source)), cs[i], cs[j]);
    } else if Place(n, target.Keys, cs[j].source).Placed? {
      OtherClassApart(n, target, cs, i, j);
    }
  }

  /** Two candidates of a class that joins are new to it, under names that differ. */
  lemma SameClassApart(n: Naming, m: Files, w: set<Candidate>, c: Candidate, d: Candidate)
    requires Join(n, m, w).Some? && c in w && d in w && c != d
    ensures m == map[] && n.fold(c.source) != n.fold(d.source)
  {
    hide Takes, Alone;
  }

  lemma OtherClassApart(n: Naming, target: Files, cs: seq<Candidate>, i: nat, j: nat)
    requires Plannable(n, target, cs) && i < |cs| && j < |cs| && Class(n, cs[i].source) != Class(n, cs[j].source)
    requires Place(n, target.Keys, cs[i].source).Placed? && Place(n, target.Keys, cs[j].source).Placed?
    ensures n.fold(Place(n, target.Keys, cs[i].source).file) != n.fold(Place(n, target.Keys, cs[j].source).file)
  {
    hide *;
    if n.fold(Place(n, target.Keys, cs[i].source).file) == n.fold(Place(n, target.Keys, cs[j].source).file) {
      SameFoldSameClass(n, target, cs, i, j);
    }
  }

  lemma MergesWhenAgreed(target: Files, file: string, content: Content)
    ensures Merge(Get(target, file), content).Some? <==> file !in target || Agree(target[file], content)
  {}

  lemma GoesInFirst(n: Naming, target: Files, cs: seq<Candidate>, i: nat, j: nat)
    requires Plannable(n, target, cs) && j < i < |cs| && GoesIn(n, target, cs, i) && GoesIn(n, target, cs, j)
    requires Class(n, cs[i].source) == Class(n, cs[j].source)
    ensures InClass(n, target, Class(n, cs[i].source)) == map[] && n.fold(cs[i].source) != n.fold(cs[j].source)
  {
    hide Place, Merge, Agree, Lawful, Wanted;
    PlaceOf(n, target, cs, i);
    PlaceOf(n, target, cs, j);
    assert !FoldsTo(n, target, cs[j], n.fold(Place(n, target.Keys, cs[i].source).file));
  }

  /** If all candidates of a class go in, the class joins. */
  lemma GoingInJoins(n: Naming, target: Files, cs: seq<Candidate>, k: string)
    requires Plannable(n, target, cs)
    requires forall i :: 0 <= i < |cs| && Class(n, cs[i].source) == k ==> GoesIn(n, target, cs, i)
    ensures Joined(n, target, cs, k).Some?
  {
    hide Place, Merge, Agree, Lawful, GoesIn;
    var m, w := InClass(n, target, k), Wanted(n, cs, k);
    forall c, d | c in w && d in w && c != d
      ensures m == map[] && n.fold(c.source) != n.fold(d.source)
    {
      var i :| 0 <= i < |cs| && cs[i] == c;
      var j :| 0 <= j < |cs| && cs[j] == d;
      if j < i {
        GoesInFirst(n, target, cs, i, j);
      } else {
        GoesInFirst(n, target, cs, j, i);
      }
    }
    forall c, f | c in w && f in m
      ensures Alone(m) && n.identity(f) == n.identity(c.source) && Agree(m[f], c.content)
    {
      var i :| 0 <= i < |cs| && cs[i] == c;
      GoesInAgrees(n, target, cs, i, f);
    }
  }

  lemma GoesInAgrees(n: Naming, target: Files, cs: seq<Candidate>, i: nat, f: string)
    requires Plannable(n, target, cs) && i < |cs| && GoesIn(n, target, cs, i)
    requires f in InClass(n, target, Class(n, cs[i].source))
    ensures var m := InClass(n, target, Class(n, cs[i].source));
            Alone(m) && n.identity(f) == n.identity(cs[i].source) && Agree(m[f], cs[i].content)
  {
    hide Place, Merge, Agree, Lawful;
    var place := Place(n, target.Keys, cs[i].source);
    PlaceOf(n, target, cs, i);
    assert place.file == f;
    MergesWhenAgreed(target, f, cs[i].content);
  }

  /** A tile has no issue exactly when it is not blocked and every class joins. */
  lemma TileByClass(n: Naming, target: Files, tile: Tile)
    requires Plannable(n, target, tile.candidates)
    ensures !PlanTile(n, target, tile).issues <==> !tile.blocked && forall k :: Joined(n, target, tile.candidates, k).Some?
    ensures !PlanTile(n, target, tile).issues ==>
              && PlanTile(n, target, tile).entries == Entries(n, target, tile.candidates)
              && forall i :: 0 <= i < |tile.candidates| ==> GoesIn(n, target, tile.candidates, i)
  {
    var cs := tile.candidates;
    var es := Entries(n, target, cs);
    hide Entries, GoesIn, Joined, Lawful;
    forall i | 0 <= i < |cs|
      ensures es[i].action != Conflict <==> GoesIn(n, target, cs, i)
    {
      EntryOf(n, target, cs, i);
    }
    if HasConflict(es) {
      var e :| e in es && e.action == Conflict;
      var i :| 0 <= i < |es| && es[i] == e;
      if Joined(n, target, cs, Class(n, cs[i].source)).Some? {
        JoiningGoesIn(n, target, cs, i);
      }
    } else {
      forall i | 0 <= i < |cs|
        ensures GoesIn(n, target, cs, i)
      {
        assert es[i] in es;
      }
      forall k
        ensures Joined(n, target, cs, k).Some?
      {
        GoingInJoins(n, target, cs, k);
      }
    }
  }
}

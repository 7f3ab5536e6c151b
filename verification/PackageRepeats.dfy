/** Tiles that are needed twice, and packages outside the conditions under which the order of the tiles has no part in
    the verdict. */
module PackageRepeats {
  import opened Options
  import opened PackageTile
  import opened PackageAggregation
  import opened PackageClasses
  import opened PackageFold
  import opened PackageVerdict
  import opened PackageReordering
  import opened PackageRoom
  import opened PackageOrder

  // ---------- a tile again ----------

  /** The tile needs at most one file of each class. */
  ghost predicate OneOfEach(n: Naming, t: Tile) {
    forall k :: Single(Wanted(n, t.candidates, k))
  }

  lemma RepeatedIsFeasible(n: Naming, snapshot: Files, a: seq<Tile>, t: Tile)
    requires t in a && Feasible(n, snapshot, a)
    ensures Feasible(n, snapshot, a + [t]) && (Unblocked(a + [t]) <==> Unblocked(a))
  {
    forall u
      ensures u in a + [t] <==> u in a
    {}
    ReorderedIsFeasible(n, snapshot, a, a + [t]);
  }

  lemma GivenAgain(lists: seq<set<Candidate>>, x: set<Candidate>)
    requires x in lists
    ensures Given(lists + [x]) == Given(lists) && (AllSingle(lists + [x]) <==> AllSingle(lists))
    ensures FirstWanting(lists) != {} || x == {}
  {
    GivenGrows(lists, x);
    FirstIsGiven(lists);
    NoneGiven(lists);
    hide Single, FirstWanting;
    assert x <= Given(lists);
    assert AllSingle(lists) ==> Single(x);
  }

  lemma AgainCompatible(n: Naming, m: Files, lists: seq<set<Candidate>>, x: set<Candidate>)
    requires x in lists && Compatible(n, m, lists)
    ensures Compatible(n, m, lists + [x]) <==> Single(x)
  {
    GivenAgain(lists, x);
    hide Given, Consistent, FoldsDiffer, Single;
    if x == {} {
      NothingMore(n, m, lists, m);
      assert Single(x) by {
        NothingIsSingle(x);
      }
    } else {
      NoneGiven(lists);
      forall l
        ensures !Spread(n, m, lists + [x], l)
      {
        SpreadGrows(n, m, lists, x, l);
      }
      assert x in lists + [x];
    }
  }

  lemma NothingIsSingle(x: set<Candidate>)
    requires x == {}
    ensures Single(x)
  {}

  lemma AgainSame(n: Naming, m: Files, lists: seq<set<Candidate>>, x: set<Candidate>, r: Files, s: Files)
    requires x in lists && Compatible(n, m, lists) && Single(x)
    requires Outcome(n, m, lists, r) && Outcome(n, m, lists + [x], s)
    ensures r == s
  {
    GivenAgain(lists, x);
    GivenGrows(lists, x);
    hide Given, Consistent, FoldsDiffer, Single, FirstWanting, Outcome;
    forall l
      ensures !Merged(n, m, lists) ==> (Spread(n, m, lists, l) <==> Spread(n, m, lists + [x], l))
    {
      SpreadGrows(n, m, lists, x, l);
      NoneGiven(lists);
    }
    SameOutcome(n, m, lists, lists + [x], r, s);
  }

  /** A package without issues can take one of its tiles again exactly when that tile needs at most one file of each
      class and there is room for what has come out; nothing then changes in the files. */
  lemma RepeatsIffOneOfEach(n: Naming, snapshot: Files, a: seq<Tile>, t: Tile)
    requires Feasible(n, snapshot, a) && !Package(n, snapshot, a).issues && t in a
    ensures !Package(n, snapshot, a + [t]).issues <==> OneOfEach(n, t) && |Out(n, snapshot, a)| <= MAX_FILES
    ensures !Package(n, snapshot, a + [t]).issues ==> Package(n, snapshot, a + [t]).projected == Package(n, snapshot, a).projected
  {
    var p, q := Package(n, snapshot, a).projected, Package(n, snapshot, a + [t]).projected;
    RepeatedIsFeasible(n, snapshot, a, t);
    hide Package, Feasible, Compatible, Outcome, InClass, Unblocked, Single, Wanted, FitsLast;
    PackageVerdictExactly(n, snapshot, a);
    PackageVerdictExactly(n, snapshot, a + [t]);
    forall k
      ensures Compatible(n, InClass(n, snapshot, k), Lists(n, a + [t], k)) <==> Single(Wanted(n, t.candidates, k))
      ensures !Package(n, snapshot, a + [t]).issues ==> InClass(n, p, k) == InClass(n, q, k)
    {
      RepeatedClass(n, snapshot, a, t, k, p, q);
    }
    hide OneOfEach, Lists;
    if AllCompatible(n, snapshot, a + [t]) {
      RepeatFits(n, snapshot, a, t);
    }
    if !Package(n, snapshot, a + [t]).issues {
      SameClasses(n, p, q);
    }
  }

  lemma RepeatFits(n: Naming, snapshot: Files, a: seq<Tile>, t: Tile)
    requires AllCompatible(n, snapshot, a + [t])
    ensures FitsLast(n, snapshot, a + [t], t) <==> |Out(n, snapshot, a)| <= MAX_FILES
  {
    hide Out, Own, AllCompatible;
    CompatibleIffJoin(n, snapshot, a + [t]);
    OutGrows(n, snapshot, a, t);
  }

  lemma RepeatedClass(n: Naming, snapshot: Files, a: seq<Tile>, t: Tile, k: string, p: Files, q: Files)
    requires t in a && Compatible(n, InClass(n, snapshot, k), Lists(n, a, k))
    requires Outcome(n, InClass(n, snapshot, k), Lists(n, a, k), InClass(n, p, k))
    ensures Compatible(n, InClass(n, snapshot, k), Lists(n, a + [t], k)) <==> Single(Wanted(n, t.candidates, k))
    ensures Single(Wanted(n, t.candidates, k)) && Outcome(n, InClass(n, snapshot, k), Lists(n, a + [t], k), InClass(n, q, k))
            ==> InClass(n, p, k) == InClass(n, q, k)
  {
    var lists, x, m := Lists(n, a, k), Wanted(n, t.candidates, k), InClass(n, snapshot, k);
    ListsGrow(n, a, t, k);
    var i :| 0 <= i < |a| && a[i] == t;
    assert lists[i] == x && x in lists;
    hide Compatible, Outcome, InClass, Single, Wanted, Lists;
    AgainCompatible(n, m, lists, x);
    if Single(x) && Outcome(n, m, lists + [x], InClass(n, q, k)) {
      AgainSame(n, m, lists, x, InClass(n, p, k), InClass(n, q, k));
    }
  }

  // ---------- outside the conditions ----------

  function Solo(c: Candidate): Tile {
    Tile([c], false)
  }

  lemma PlanSolo(n: Naming, target: Files, c: Candidate)
    requires |target| <= MAX_FILES
    ensures var e := PlanOne(n, target, {}, c);
            PlanTile(n, target, Solo(c)) == if e.action == Conflict then Plan([Downgraded(e)], true) else Plan([e], false)
  {
    var e := PlanOne(n, target, {}, c);
    assert Entries(n, target, [c]) == [e] by {
      assert [c][..0] == [];
      EntryIsPlanned(n, target, [c], 0);
      hide PlanOne;
    }
    hide PlanOne, Entries;
    assert e in [e];
    assert DowngradeAll([e]) == [Downgraded(e)];
  }

  lemma RecordOne(snapshot: Files, st: State, e: Entry)
    ensures RecordAll(snapshot, st, [e]) == Record(snapshot, st, e)
  {
    hide Record;
    assert [e][..0] == [];
  }

  /** A tile with one file that has its place. */
  lemma AddSolo(n: Naming, snapshot: Files, st: State, c: Candidate, f: string)
    requires !st.issues && |st.projected| <= MAX_FILES && NoConflictAt(st, f)
    requires Place(n, st.projected.Keys, c.source) == Placed(f) && Merge(Get(st.projected, f), c.content).Some?
    ensures var next := AddTile(n, snapshot, st, Solo(c));
            && !next.issues && NoConflictAt(next, f)
            && next.projected == st.projected[f := Merge(Get(st.projected, f), c.content).value]
  {
    hide Place, Merge;
    var e := PlanOne(n, st.projected, {}, c);
    PlanSolo(n, st.projected, c);
    RecordOne(snapshot, st, e);
    hide PlanTile, PlanOne, RecordAll;
    assert e.action != Conflict && e.file == f && e.after == Merge(Get(st.projected, f), c.content) by {
      PlanOneExact(n, st.projected, {}, c);
    }
    assert st.(issues := false) == st;
  }

  /** A tile with one file that has no place. */
  lemma RefuseSolo(n: Naming, snapshot: Files, st: State, c: Candidate)
    requires !Place(n, st.projected.Keys, c.source).Placed?
    ensures AddTile(n, snapshot, st, Solo(c)).issues
  {
    AddTileIssues(n, snapshot, st, Solo(c));
    hide Place, AddTile;
    PlanOneExact(n, st.projected, {}, c);
    if |st.projected| <= MAX_FILES {
      PlanSolo(n, st.projected, c);
    }
  }

  lemma PackageOfTwo(n: Naming, snapshot: Files, s: Tile, t: Tile)
    ensures Package(n, snapshot, [s, t]) == AddTile(n, snapshot, AddTile(n, snapshot, Start(snapshot), s), t)
  {
    hide AddTile;
    assert [s, t][..|[s, t]| - 1] == [s] && [s][..|[s]| - 1] == [];
    assert AddTiles(n, snapshot, Start(snapshot), [s]) == AddTile(n, snapshot, Start(snapshot), s);
  }

  /** Two sources that spell one identity differently are merged into one file, under whichever name comes first. */
  lemma FirstSpellingWins(n: Naming, a: Candidate, b: Candidate)
    requires a.source != b.source && n.identity(a.source) == n.identity(b.source) && Agree(a.content, b.content)
    ensures var st := Package(n, map[], [Solo(a), Solo(b)]);
            !st.issues && st.projected.Keys == {a.source}
  {
    PackageOfTwo(n, map[], Solo(a), Solo(b));
    PlaceBesideNothing(n, a.source);
    PlaceBesideSame(n, a.source, b.source);
    hide AddTile, Place;
    var empty: Files := map[];
    assert empty.Keys == {};
    AddSolo(n, map[], Start(map[]), a, a.source);
    var one := AddTile(n, map[], Start(map[]), Solo(a));
    assert one.projected == map[a.source := a.content] && one.projected.Keys == {a.source};
    AddSolo(n, map[], one, b, a.source);
  }

  lemma PlaceBesideNothing(n: Naming, a: string)
    ensures Place(n, {}, a) == Placed(a)
  {}

  lemma PlaceBesideSame(n: Naming, a: string, b: string)
    requires a != b && n.identity(a) == n.identity(b)
    ensures Place(n, {a}, b) == Placed(a)
  {
    assert Matching(n, {a}, b) == {a};
  }

  /** A destination at the size limit: a tile that creates a file stops every tile after it, none before it. */
  lemma LimitDependsOnOrder(n: Naming, snapshot: Files, c: Candidate)
    requires |snapshot| == MAX_FILES && c.source !in snapshot && Place(n, snapshot.Keys, c.source) == Placed(c.source)
    ensures Package(n, snapshot, [Solo(c), Tile([], false)]).issues
    ensures !Package(n, snapshot, [Tile([], false), Solo(c)]).issues
  {
    var none := Tile([], false);
    PackageOfTwo(n, snapshot, Solo(c), none);
    PackageOfTwo(n, snapshot, none, Solo(c));
    AddSolo(n, snapshot, Start(snapshot), c, c.source);
    assert AddTile(n, snapshot, Start(snapshot), none) == Start(snapshot);
    var one := AddTile(n, snapshot, Start(snapshot), Solo(c));
    assert one.projected.Keys == snapshot.Keys + {c.source};
    AddTileIssues(n, snapshot, one, none);
    hide Place, AddTile;
    assert |one.projected| == MAX_FILES + 1;
  }

  /** Where lower-casing a name changes its class, the order decides: a source whose name is that of a destination file of
      another class, but for case, goes in only after a source of its identity with a name of its own. */
  lemma VerdictNeedsLaw(n: Naming, x: string, text: Content, a: Candidate, b: Candidate)
    requires n.fold(x) == n.fold(a.source) && Class(n, x) != Class(n, a.source)
    requires n.identity(a.source) == n.identity(b.source) && n.fold(b.source) != n.fold(x) && Agree(b.content, a.content)
    ensures Package(n, map[x := text], [Solo(a), Solo(b)]).issues
    ensures !Package(n, map[x := text], [Solo(b), Solo(a)]).issues
  {
    PackageOfTwo(n, map[x := text], Solo(a), Solo(b));
    PackageOfTwo(n, map[x := text], Solo(b), Solo(a));
    PlacesBesideOther(n, x, text, a.source, b.source);
    hide *;
    RefusedFirst(n, map[x := text], a, b);
    TakenSecond(n, x, text, a, b);
  }

  lemma RefusedFirst(n: Naming, snapshot: Files, a: Candidate, b: Candidate)
    requires !Place(n, snapshot.Keys, a.source).Placed?
    ensures AddTile(n, snapshot, AddTile(n, snapshot, Start(snapshot), Solo(a)), Solo(b)).issues
  {
    hide Place, AddTile;
    RefuseSolo(n, snapshot, Start(snapshot), a);
    AddTileIssues(n, snapshot, AddTile(n, snapshot, Start(snapshot), Solo(a)), Solo(b));
  }

  lemma TakenSecond(n: Naming, x: string, text: Content, a: Candidate, b: Candidate)
    requires b.source != x && Agree(b.content, a.content)
    requires Place(n, {x}, b.source) == Place(n, {x, b.source}, a.source) == Placed(b.source)
    ensures var snapshot := map[x := text]; !AddTile(n, snapshot, AddTile(n, snapshot, Start(snapshot), Solo(b)), Solo(a)).issues
  {
    hide Place, AddTile;
    var snapshot := map[x := text];
    assert snapshot.Keys == {x};
    AddSolo(n, snapshot, Start(snapshot), b, b.source);
    var one := AddTile(n, snapshot, Start(snapshot), Solo(b));
    assert one.projected == map[x := text, b.source := b.content] && one.projected.Keys == {x, b.source};
    AddSolo(n, snapshot, one, a, b.source);
  }

  lemma PlacesBesideOther(n: Naming, x: string, text: Content, a: string, b: string)
    requires n.fold(x) == n.fold(a) && Class(n, x) != Class(n, a) && n.identity(a) == n.identity(b) && n.fold(b) != n.fold(x)
    ensures b != x && map[x := text].Keys == {x}
    ensures Place(n, {x}, a) == Collides(a)
    ensures Place(n, {x}, b) == Placed(b)
    ensures Place(n, {x, b}, a) == Placed(b)
  {
    assert Matching(n, {x}, a) == {} && Matching(n, {x}, b) == {} && Matching(n, {x, b}, a) == {b};
  }
}

/** What part the order of the tiles has in a package: in the verdict only through the file limit, in the definitions
    none, and exactly when one in the names and in the entries. */
module PackageOrder {
  import opened Options
  import opened PackageTile
  import opened PackageAggregation
  import opened PackageClasses
  import opened PackageFold
  import opened PackageVerdict
  import opened PackageReordering
  import opened PackageRoom

  ghost predicate AllCompatible(n: Naming, snapshot: Files, tiles: seq<Tile>) {
    forall k :: Compatible(n, InClass(n, snapshot, k), Lists(n, tiles, k))
  }

  lemma CompatibleIffJoin(n: Naming, snapshot: Files, tiles: seq<Tile>)
    ensures AllCompatible(n, snapshot, tiles) <==> AllJoin(n, snapshot, tiles)
  {
    hide Compatible, Outcome, InClass, Lists, JoinAll;
    forall k
      ensures ClassResult(n, snapshot, tiles, k).Some? <==> Compatible(n, InClass(n, snapshot, k), Lists(n, tiles, k))
    {
      ClassComesOut(n, InClass(n, snapshot, k), Lists(n, tiles, k));
    }
  }

  /** The package has no issue exactly when no tile is blocked, what is needed of each class is compatible, and the last
      tile fits; each class then is as its outcome says. */
  lemma PackageVerdictExactly(n: Naming, snapshot: Files, tiles: seq<Tile>)
    requires Feasible(n, snapshot, tiles)
    ensures !Package(n, snapshot, tiles).issues
            <==> Unblocked(tiles) && AllCompatible(n, snapshot, tiles)
                 && (tiles == [] || FitsLast(n, snapshot, tiles, tiles[|tiles| - 1]))
    ensures !Package(n, snapshot, tiles).issues ==>
              forall k :: Outcome(n, InClass(n, snapshot, k), Lists(n, tiles, k), InClass(n, Package(n, snapshot, tiles).projected, k))
  {
    hide Package, Outcome, InClass, Lists, JoinAll, FitsLast, Feasible, AllCompatible, AllJoin, Unblocked, ByClass;
    VerdictByLast(n, snapshot, tiles, tiles);
    CompatibleIffJoin(n, snapshot, tiles);
    PackageByClass(n, snapshot, tiles, tiles);
    if !Package(n, snapshot, tiles).issues {
      forall k
        ensures Outcome(n, InClass(n, snapshot, k), Lists(n, tiles, k), InClass(n, Package(n, snapshot, tiles).projected, k))
      {
        ProjectedClass(n, snapshot, tiles, Package(n, snapshot, tiles), k);
        ClassComesOut(n, InClass(n, snapshot, k), Lists(n, tiles, k));
      }
    }
  }

  // ---------- the verdict ----------

  /** No order of the tiles gives another verdict. */
  ghost predicate VerdictIsFixed(n: Naming, snapshot: Files, a: seq<Tile>) {
    forall b :: Reordered(a, b) ==> (Package(n, snapshot, b).issues <==> Package(n, snapshot, a).issues)
  }

  /** All tiles fit last, or none does. */
  predicate LastsAgree(n: Naming, snapshot: Files, a: seq<Tile>) {
    forall t, u :: t in a && u in a ==> (FitsLast(n, snapshot, a, t) <==> FitsLast(n, snapshot, a, u))
  }

  lemma EndingIn(n: Naming, snapshot: Files, a: seq<Tile>, t: Tile) returns (b: seq<Tile>)
    requires t in a && Feasible(n, snapshot, a)
    ensures Reordered(a, b)
    ensures !Package(n, snapshot, b).issues <==> Unblocked(a) && AllCompatible(n, snapshot, a) && FitsLast(n, snapshot, a, t)
  {
    hide Package, Feasible, AllCompatible, AllJoin, Unblocked, FitsLast;
    var i :| 0 <= i < |a| && a[i] == t;
    b := InBack(a, i);
    assert b[|b| - 1] == t;
    VerdictByLast(n, snapshot, a, b);
    CompatibleIffJoin(n, snapshot, a);
  }

  lemma VerdictOf(n: Naming, snapshot: Files, a: seq<Tile>, b: seq<Tile>)
    requires Reordered(a, b) && Feasible(n, snapshot, a) && b != []
    ensures b[|b| - 1] in a
    ensures !Package(n, snapshot, b).issues <==> Unblocked(a) && AllCompatible(n, snapshot, a) && FitsLast(n, snapshot, a, b[|b| - 1])
  {
    SameMembers(a, b);
    hide *;
    VerdictByLast(n, snapshot, a, b);
    CompatibleIffJoin(n, snapshot, a);
  }

  /** The verdict is the same in every order exactly when a tile is blocked, what is needed of some class is not compatible,
      or all tiles fit last or none does. */
  lemma VerdictIgnoresOrderIffLastsAgree(n: Naming, snapshot: Files, a: seq<Tile>)
    requires Feasible(n, snapshot, a)
    ensures VerdictIsFixed(n, snapshot, a) <==> !Unblocked(a) || !AllCompatible(n, snapshot, a) || LastsAgree(n, snapshot, a)
  {
    hide Package, Feasible, AllCompatible, Unblocked, FitsLast, Reordered;
    if VerdictIsFixed(n, snapshot, a) && Unblocked(a) && AllCompatible(n, snapshot, a) {
      forall t, u | t in a && u in a
        ensures FitsLast(n, snapshot, a, t) <==> FitsLast(n, snapshot, a, u)
      {
        var b := EndingIn(n, snapshot, a, t);
        var c := EndingIn(n, snapshot, a, u);
      }
    }
    if !Unblocked(a) || !AllCompatible(n, snapshot, a) || LastsAgree(n, snapshot, a) {
      forall b | Reordered(a, b)
        ensures Package(n, snapshot, b).issues <==> Package(n, snapshot, a).issues
      {
        SameVerdict(n, snapshot, a, b);
      }
    }
  }

  lemma SameVerdict(n: Naming, snapshot: Files, a: seq<Tile>, b: seq<Tile>)
    requires Feasible(n, snapshot, a) && Reordered(a, b)
    requires !Unblocked(a) || !AllCompatible(n, snapshot, a) || LastsAgree(n, snapshot, a)
    ensures Package(n, snapshot, b).issues <==> Package(n, snapshot, a).issues
  {
    assert |multiset(a)| == |a| && |multiset(b)| == |b|;
    assert Reordered(a, a);
    hide Package, Feasible, AllCompatible, Unblocked, FitsLast;
    if a == [] {
      assert b == [];
    } else {
      VerdictOf(n, snapshot, a, a);
      VerdictOf(n, snapshot, a, b);
    }
  }

  /** No order has an issue exactly when no tile is blocked, what is needed is compatible, and every tile fits last. */
  lemma NoOrderHasIssues(n: Naming, snapshot: Files, a: seq<Tile>)
    requires Feasible(n, snapshot, a) && a != []
    ensures (forall b :: Reordered(a, b) ==> !Package(n, snapshot, b).issues)
            <==> Unblocked(a) && AllCompatible(n, snapshot, a) && forall t :: t in a ==> FitsLast(n, snapshot, a, t)
  {
    hide Package, Feasible, AllCompatible, Unblocked, FitsLast;
    if forall b :: Reordered(a, b) ==> !Package(n, snapshot, b).issues {
      forall t | t in a
        ensures Unblocked(a) && AllCompatible(n, snapshot, a) && FitsLast(n, snapshot, a, t)
      {
        var b := EndingIn(n, snapshot, a, t);
      }
      assert a[0] in a;
    }
    if Unblocked(a) && AllCompatible(n, snapshot, a) && forall t :: t in a ==> FitsLast(n, snapshot, a, t) {
      forall b | Reordered(a, b)
        ensures !Package(n, snapshot, b).issues
      {
        assert |multiset(a)| == |a| && |multiset(b)| == |b|;
        VerdictOf(n, snapshot, a, b);
      }
    }
  }

  // ---------- the definitions ----------

  /** In two orders without issues, each class of files is the same, or one file of one identity with the same definitions
      under another name. */
  lemma OrderKeepsDefinitions(n: Naming, snapshot: Files, a: seq<Tile>, b: seq<Tile>)
    requires Reordered(a, b) && Feasible(n, snapshot, a) && !Package(n, snapshot, a).issues && !Package(n, snapshot, b).issues
    ensures forall k :: Alike(n, InClass(n, Package(n, snapshot, a).projected, k), InClass(n, Package(n, snapshot, b).projected, k))
  {
    SameMembers(a, b);
    ReorderedIsFeasible(n, snapshot, a, b);
    hide Package, Alike, InClass, Lists, Feasible, Reordered, ClassResult, ByClass;
    PackageByClass(n, snapshot, a, a);
    PackageByClass(n, snapshot, b, b);
    forall k
      ensures Alike(n, InClass(n, Package(n, snapshot, a).projected, k), InClass(n, Package(n, snapshot, b).projected, k))
    {
      ClassReordered(n, snapshot, a, b, k);
      ProjectedClass(n, snapshot, a, Package(n, snapshot, a), k);
      ProjectedClass(n, snapshot, b, Package(n, snapshot, b), k);
    }
  }

  // ---------- the names ----------

  /** Two tiles need different files of one identity. */
  ghost predicate Apart(n: Naming, t: Tile, u: Tile, c: Candidate, d: Candidate) {
    t != u && c in t.candidates && d in u.candidates && c.source != d.source && n.identity(c.source) == n.identity(d.source)
  }

  /** The destination has a file of this identity. */
  predicate Known(n: Naming, snapshot: Files, source: string) {
    exists f :: f in snapshot && n.identity(f) == n.identity(source)
  }

  /** Some order that starts with this tile ends with one that fits last. */
  predicate MayStart(n: Naming, snapshot: Files, tiles: seq<Tile>, t: Tile) {
    exists w :: w in Others(tiles, t) && FitsLast(n, snapshot, tiles, w)
  }

  /** Two tiles, each of which may be the first, need different files of one identity that is new to the destination. */
  ghost predicate Contested(n: Naming, snapshot: Files, tiles: seq<Tile>) {
    exists t, u, c, d :: t in tiles && u in tiles && Apart(n, t, u, c, d) && !Known(n, snapshot, c.source)
                         && MayStart(n, snapshot, tiles, t) && MayStart(n, snapshot, tiles, u)
  }

  /** No order of the tiles without issues makes other files. */
  ghost predicate NamesAreFixed(n: Naming, snapshot: Files, a: seq<Tile>) {
    forall b :: Reordered(a, b) && !Package(n, snapshot, b).issues ==> Package(n, snapshot, b).projected == Package(n, snapshot, a).projected
  }

  /** The class as it comes out, and what there is to say about it. */
  lemma ClassOutcome(n: Naming, snapshot: Files, a: seq<Tile>, k: string)
    requires Feasible(n, snapshot, a) && !Package(n, snapshot, a).issues
    ensures Compatible(n, InClass(n, snapshot, k), Lists(n, a, k))
    ensures Outcome(n, InClass(n, snapshot, k), Lists(n, a, k), InClass(n, Package(n, snapshot, a).projected, k))
  {
    PackageVerdictExactly(n, snapshot, a);
  }

  lemma SameClasses(n: Naming, p: Files, q: Files)
    requires forall k :: InClass(n, p, k) == InClass(n, q, k)
    ensures p == q
  {
    forall f
      ensures f in p <==> f in q
      ensures f in p ==> f in q && p[f] == q[f]
    {
      assert f in p <==> f in InClass(n, p, Class(n, f));
      assert f in q <==> f in InClass(n, q, Class(n, f));
    }
  }

  lemma {:induction false} FirstIsSome(lists: seq<set<Candidate>>) returns (i: nat)
    requires FirstWanting(lists) != {}
    ensures i < |lists| && lists[i] == FirstWanting(lists) && forall j :: 0 <= j < i ==> lists[j] == {}
  {
    var n := |lists| - 1;
    var front := lists[..n];
    assert lists == front + [lists[n]];
    if FirstWanting(front) != {} {
      i := FirstIsSome(front);
    } else {
      i := n;
      FirstIsGiven(front);
      NoneGiven(front);
      assert forall j :: 0 <= j < n ==> lists[j] == front[j] && front[j] in front;
    }
  }

  lemma {:induction false} LastIsSome(lists: seq<set<Candidate>>) returns (i: nat)
    requires LastWanting(lists) != {}
    ensures i < |lists| && lists[i] == LastWanting(lists) && forall j :: i < j < |lists| ==> lists[j] == {}
  {
    var n := |lists| - 1;
    if lists[n] != {} {
      i := n;
    } else {
      i := LastIsSome(lists[..n]);
    }
  }

  lemma {:induction false} LastIsGiven(lists: seq<set<Candidate>>)
    ensures LastWanting(lists) == {} <==> Given(lists) == {}
  {
    if lists != [] {
      var front, x := lists[..|lists| - 1], lists[|lists| - 1];
      assert lists == front + [x];
      LastIsGiven(front);
      GivenGrows(front, x);
    }
  }

  lemma {:induction false} FirstInFront(x: set<Candidate>, rest: seq<set<Candidate>>)
    requires x != {}
    ensures FirstWanting([x] + rest) == x
  {
    if rest != [] {
      var front := rest[..|rest| - 1];
      FirstInFront(x, front);
      assert ([x] + rest)[..|rest|] == [x] + front;
    } else {
      assert [x] + rest == [x] && [x][..0] == [];
    }
  }

  lemma NeedOf(n: Naming, tiles: seq<Tile>, t: Tile, c: Candidate) returns (i: nat)
    requires t in tiles && c in t.candidates
    ensures i < |tiles| && tiles[i] == t
    ensures var lists := Lists(n, tiles, Class(n, c.source));
            lists[i] == Wanted(n, t.candidates, Class(n, c.source)) && lists[i] in lists && c in lists[i] && c in Given(lists)
  {
    i :| 0 <= i < |tiles| && tiles[i] == t;
    var lists := Lists(n, tiles, Class(n, c.source));
    assert lists[i] in lists;
  }

  lemma TwiceIsMerged(n: Naming, m: Files, lists: seq<set<Candidate>>, i: nat, j: nat)
    requires Compatible(n, m, lists) && i < |lists| && j < |lists| && i != j && lists[i] != {} && lists[j] != {}
    ensures Merged(n, m, lists)
  {
    hide Consistent, FoldsDiffer, Merged, Single;
    NoneGiven(lists);
    assert lists[i] in lists && lists[j] in lists;
    if l :| Spread(n, m, lists, l) {
      TwiceIn(lists, i, j, l);
    }
  }

  /** Two tiles that are apart in a package without issues each need one file of the class. */
  lemma ApartIsMerged(n: Naming, snapshot: Files, a: seq<Tile>, t: Tile, u: Tile, c: Candidate, d: Candidate)
    requires Feasible(n, snapshot, a) && !Package(n, snapshot, a).issues
    requires t in a && u in a && Apart(n, t, u, c, d)
    ensures var k := Class(n, c.source);
            && Merged(n, InClass(n, snapshot, k), Lists(n, a, k))
            && Wanted(n, t.candidates, k) == {c}
            && c in Given(Lists(n, a, k))
  {
    hide Compatible, Package, InClass, Outcome, Feasible, Lists, Given, Consistent, Wanted;
    var k := Class(n, c.source);
    var lists := Lists(n, a, k);
    ClassOutcome(n, snapshot, a, k);
    assert Class(n, d.source) == k;
    var i := NeedOf(n, a, t, c);
    var j := NeedOf(n, a, u, d);
    TwiceIsMerged(n, InClass(n, snapshot, k), lists, i, j);
    assert Single(lists[i]);
  }

  lemma ReorderedPackage(n: Naming, snapshot: Files, a: seq<Tile>, b: seq<Tile>)
    requires Feasible(n, snapshot, a) && Reordered(a, b)
    ensures Feasible(n, snapshot, b) && forall t :: t in a <==> t in b
  {
    SameMembers(a, b);
    ReorderedIsFeasible(n, snapshot, a, b);
  }

  /** An order that ends with a tile that fits is without issues when some order is. */
  lemma EndsWithoutIssues(n: Naming, snapshot: Files, a: seq<Tile>, b: seq<Tile>)
    requires Feasible(n, snapshot, a) && !Package(n, snapshot, a).issues && Reordered(a, b) && b != []
    ensures FitsLast(n, snapshot, a, b[|b| - 1]) <==> !Package(n, snapshot, b).issues
    ensures Feasible(n, snapshot, b) && forall t :: t in a <==> t in b
  {
    hide *;
    ReorderedPackage(n, snapshot, a, b);
    VerdictOf(n, snapshot, a, b);
    PackageVerdictExactly(n, snapshot, a);
  }

  /** The name when the tile comes first. */
  lemma NameOfFirst(n: Naming, snapshot: Files, a: seq<Tile>, t: Tile, u: Tile, c: Candidate, d: Candidate) returns (b: seq<Tile>)
    requires Feasible(n, snapshot, a) && !Package(n, snapshot, a).issues
    requires t in a && u in a && Apart(n, t, u, c, d) && !Known(n, snapshot, c.source) && MayStart(n, snapshot, a, t)
    ensures Reordered(a, b) && !Package(n, snapshot, b).issues
    ensures InClass(n, Package(n, snapshot, b).projected, Class(n, c.source)).Keys == {c.source}
  {
    hide Feasible, Package, FitsLast, Reordered, InClass, Class, Apart, Known, Others;
    var w :| w in Others(a, t) && FitsLast(n, snapshot, a, w);
    var mid := Between(a, t, w);
    b := [t] + (mid + [w]);
    assert b[|b| - 1] == w;
    EndsWithoutIssues(n, snapshot, a, b);
    NamedByFirst(n, snapshot, t, mid + [w], u, c, d);
  }

  lemma NamedByFirst(n: Naming, snapshot: Files, t: Tile, rest: seq<Tile>, u: Tile, c: Candidate, d: Candidate)
    requires Feasible(n, snapshot, [t] + rest) && !Package(n, snapshot, [t] + rest).issues
    requires u in [t] + rest && Apart(n, t, u, c, d) && !Known(n, snapshot, c.source)
    ensures InClass(n, Package(n, snapshot, [t] + rest).projected, Class(n, c.source)).Keys == {c.source}
  {
    var k, a := Class(n, c.source), [t] + rest;
    var m, lists := InClass(n, snapshot, k), Lists(n, a, k);
    assert t == a[0] && t in a;
    ApartIsMerged(n, snapshot, a, t, u, c, d);
    ClassOutcome(n, snapshot, a, k);
    FirstOfLists(n, t, rest, k, c);
    hide *;
    if m != map[] {
      InDestination(n, snapshot, lists, c);
    }
    NamedAsFirst(n, lists, InClass(n, Package(n, snapshot, a).projected, k), c);
  }

  lemma FirstOfLists(n: Naming, t: Tile, rest: seq<Tile>, k: string, c: Candidate)
    requires Wanted(n, t.candidates, k) == {c}
    ensures FirstWanting(Lists(n, [t] + rest, k)) == {c}
  {
    ListsJoin(n, [t], rest, k);
    assert Lists(n, [t], k) == [{c}];
    FirstInFront({c}, Lists(n, rest, k));
  }

  lemma NamedAsFirst(n: Naming, lists: seq<set<Candidate>>, r: Files, c: Candidate)
    requires Merged(n, map[], lists) && Outcome(n, map[], lists, r) && FirstWanting(lists) == {c} && c in Given(lists)
    ensures r.Keys == {c.source}
  {
    hide Merged, Given, Spread, FirstWanting, Holds;
  }

  lemma InDestination(n: Naming, snapshot: Files, lists: seq<set<Candidate>>, c: Candidate)
    requires Merged(n, InClass(n, snapshot, Class(n, c.source)), lists) && c in Given(lists)
    requires InClass(n, snapshot, Class(n, c.source)) != map[]
    ensures Known(n, snapshot, c.source)
  {
    hide Given, Agree, AllSingle;
    var f :| f in InClass(n, snapshot, Class(n, c.source));
    assert n.identity(f) == n.identity(c.source);
  }

  lemma ApartIsSymmetric(n: Naming, snapshot: Files, t: Tile, u: Tile, c: Candidate, d: Candidate)
    requires Apart(n, t, u, c, d)
    ensures Apart(n, u, t, d, c) && Class(n, c.source) == Class(n, d.source) && {c.source} != {d.source}
    ensures Known(n, snapshot, c.source) <==> Known(n, snapshot, d.source)
  {
    assert c.source in {c.source} && c.source !in {d.source};
  }

  lemma ContestedNamesDiffer(n: Naming, snapshot: Files, a: seq<Tile>)
    requires Feasible(n, snapshot, a) && !Package(n, snapshot, a).issues && Contested(n, snapshot, a)
    ensures !NamesAreFixed(n, snapshot, a)
  {
    hide Feasible, Package, InClass, Reordered, Known, Apart, Class, MayStart;
    var t, u, c, d :| t in a && u in a && Apart(n, t, u, c, d) && !Known(n, snapshot, c.source)
                      && MayStart(n, snapshot, a, t) && MayStart(n, snapshot, a, u);
    ApartIsSymmetric(n, snapshot, t, u, c, d);
    var b := NameOfFirst(n, snapshot, a, t, u, c, d);
    var b' := NameOfFirst(n, snapshot, a, u, t, d, c);
  }

  // ---------- names that are not contested ----------

  lemma SameOutcome(n: Naming, m: Files, a: seq<set<Candidate>>, b: seq<set<Candidate>>, r: Files, s: Files)
    requires Compatible(n, m, a) && Outcome(n, m, a, r) && Outcome(n, m, b, s)
    requires Given(a) == Given(b) && (Merged(n, m, a) <==> Merged(n, m, b))
    requires !Merged(n, m, a) ==> forall l :: Spread(n, m, a, l) <==> Spread(n, m, b, l)
    requires Merged(n, m, a) && m == map[] ==> SourcesOf(FirstWanting(a)) == SourcesOf(FirstWanting(b))
    ensures r == s
  {
    hide Given, Merged, Spread, FirstWanting, SourcesOf, MergedResult;
    if Given(a) != {} && Merged(n, m, a) {
      SameFiles(n, m, Given(a), FirstWanting(a), FirstWanting(b), r, s);
    }
  }

  lemma SameFiles(n: Naming, m: Files, given: set<Candidate>, first: set<Candidate>, other: set<Candidate>, r: Files, s: Files)
    requires given != {} && MergedResult(n, m, given, first, r) && MergedResult(n, m, given, other, s)
    requires m == map[] ==> SourcesOf(first) == SourcesOf(other)
    ensures r == s
  {
    assert r.Keys == s.Keys;
    forall f | f in r
      ensures r[f] == s[f]
    {
      assert Holds(n, m, given, f, r[f]) && Holds(n, m, given, f, s[f]);
      hide MergedResult, GivenDefinition;
      SameDefinitions(r[f], s[f]);
    }
  }

  /** Two tiles that need one file of a class each need the same one, or they are apart. */
  lemma OneSource(n: Naming, snapshot: Files, a: seq<Tile>, k: string, t: Tile, u: Tile, c: Candidate, d: Candidate)
    requires Merged(n, InClass(n, snapshot, k), Lists(n, a, k)) && t in a && u in a
    requires c in Wanted(n, t.candidates, k) && d in Wanted(n, u.candidates, k) && c.source != d.source
    ensures Apart(n, t, u, c, d) && Class(n, c.source) == Class(n, d.source) == k
  {
    var i := NeedOf(n, a, t, c);
    var j := NeedOf(n, a, u, d);
    assert SameFile(n, c, d);
    assert Single(Wanted(n, t.candidates, k));
    hide Lists, Given, Takes, Agree;
  }

  /** A tile before another may start, if there is no issue in this order. */
  lemma EarlierMayStart(n: Naming, snapshot: Files, a: seq<Tile>, i: nat, j: nat)
    requires Feasible(n, snapshot, a) && !Package(n, snapshot, a).issues && i < j < |a|
    ensures MayStart(n, snapshot, a, a[i])
  {
    hide *;
    LastFits(n, snapshot, a);
    AnotherPlace(a, i, |a| - 1);
    StartsBefore(n, snapshot, a, a[i], a[|a| - 1]);
  }

  lemma StartsBefore(n: Naming, snapshot: Files, a: seq<Tile>, t: Tile, w: Tile)
    requires w in Others(a, t) && FitsLast(n, snapshot, a, w)
    ensures MayStart(n, snapshot, a, t)
  {
    hide FitsLast, Others;
  }

  lemma LastFits(n: Naming, snapshot: Files, a: seq<Tile>)
    requires Feasible(n, snapshot, a) && !Package(n, snapshot, a).issues && a != []
    ensures FitsLast(n, snapshot, a, a[|a| - 1])
  {
    hide *;
    PackageVerdictExactly(n, snapshot, a);
  }

  lemma StartReordered(n: Naming, snapshot: Files, a: seq<Tile>, b: seq<Tile>, t: Tile)
    requires Reordered(a, b) && MayStart(n, snapshot, b, t)
    ensures MayStart(n, snapshot, a, t)
  {
    var w :| w in Others(b, t) && FitsLast(n, snapshot, b, w);
    FitsReordered(n, snapshot, a, b, w);
    hide FitsLast;
  }

  /** A tile that is the first to need a class may start, when another tile needs the class as well. */
  lemma FirstMayStart(n: Naming, snapshot: Files, a: seq<Tile>, k: string, i: nat, u: Tile)
    requires Feasible(n, snapshot, a) && !Package(n, snapshot, a).issues && i < |a| && u in a && u != a[i]
    requires Wanted(n, u.candidates, k) != {} && forall j :: 0 <= j < i ==> Lists(n, a, k)[j] == {}
    ensures MayStart(n, snapshot, a, a[i])
  {
    hide Feasible, Package, MayStart, Wanted;
    var j :| 0 <= j < |a| && a[j] == u;
    assert Lists(n, a, k)[j] == Wanted(n, u.candidates, k);
    EarlierMayStart(n, snapshot, a, i, j);
  }

  lemma UncontestedFirst(n: Naming, snapshot: Files, a: seq<Tile>, b: seq<Tile>, k: string)
    requires Feasible(n, snapshot, a) && Feasible(n, snapshot, b) && Reordered(a, b)
    requires !Package(n, snapshot, a).issues && !Package(n, snapshot, b).issues
    requires !Contested(n, snapshot, a) && InClass(n, snapshot, k) == map[] && Merged(n, map[], Lists(n, a, k))
    ensures SourcesOf(FirstWanting(Lists(n, a, k))) == SourcesOf(FirstWanting(Lists(n, b, k)))
  {
    hide Feasible, Package, InClass, Merged, Reordered, Contested, Given, FirstWanting, Single, MayStart, Apart;
    var la, lb := Lists(n, a, k), Lists(n, b, k);
    ReorderedLists(n, a, b, k);
    SameMembers(a, b);
    SameLists(la, lb);
    FirstIsGiven(la);
    FirstIsGiven(lb);
    if Given(la) != {} {
      var i := FirstIsSome(la);
      var j := FirstIsSome(lb);
      FirstsAgree(n, snapshot, a, b, k, i, j);
    }
  }

  lemma FirstsAgree(n: Naming, snapshot: Files, a: seq<Tile>, b: seq<Tile>, k: string, i: nat, j: nat)
    requires Feasible(n, snapshot, a) && Feasible(n, snapshot, b) && Reordered(a, b) && forall t :: t in a <==> t in b
    requires !Package(n, snapshot, a).issues && !Package(n, snapshot, b).issues
    requires !Contested(n, snapshot, a) && InClass(n, snapshot, k) == map[] && Merged(n, map[], Lists(n, a, k))
    requires i < |a| && j < |b| && Lists(n, a, k)[i] != {} && Lists(n, b, k)[j] != {}
    requires forall x :: 0 <= x < i ==> Lists(n, a, k)[x] == {}
    requires forall x :: 0 <= x < j ==> Lists(n, b, k)[x] == {}
    ensures SourcesOf(Lists(n, a, k)[i]) == SourcesOf(Lists(n, b, k)[j])
  {
    var t, u := a[i], b[j];
    var c :| c in Wanted(n, t.candidates, k);
    var d :| d in Wanted(n, u.candidates, k);
    assert Lists(n, a, k)[i] == {c} && Lists(n, b, k)[j] == {d} by {
      OneEach(n, a, k, t, c);
      OneEach(n, a, k, u, d);
    }
    if c.source != d.source {
      hide Feasible, Package, InClass, Merged, Reordered, MayStart, Apart, Wanted;
      OneSource(n, snapshot, a, k, t, u, c, d);
      assert t != u && u in a && t in b by {
        ApartDiffer(n, t, u, c, d);
      }
      NotKnown(n, snapshot, c.source);
      FirstMayStart(n, snapshot, a, k, i, u);
      FirstMayStart(n, snapshot, b, k, j, t);
      StartReordered(n, snapshot, a, b, u);
    }
  }

  lemma ApartDiffer(n: Naming, t: Tile, u: Tile, c: Candidate, d: Candidate)
    requires Apart(n, t, u, c, d)
    ensures t != u
  {}

  /** In a merged class a tile needs one file. */
  lemma OneEach(n: Naming, a: seq<Tile>, k: string, t: Tile, c: Candidate)
    requires AllSingle(Lists(n, a, k)) && t in a && c in Wanted(n, t.candidates, k)
    ensures Wanted(n, t.candidates, k) == {c}
  {
    var i := NeedOf(n, a, t, c);
  }

  lemma NotKnown(n: Naming, snapshot: Files, source: string)
    requires InClass(n, snapshot, Class(n, source)) == map[]
    ensures !Known(n, snapshot, source)
  {
    forall f | f in snapshot && n.identity(f) == n.identity(source)
      ensures f in InClass(n, snapshot, Class(n, source))
    {}
  }

  lemma SameSpread(n: Naming, m: Files, a: seq<set<Candidate>>, b: seq<set<Candidate>>)
    requires multiset(a) == multiset(b)
    ensures Given(a) == Given(b) && (Merged(n, m, a) <==> Merged(n, m, b))
    ensures forall l :: Spread(n, m, a, l) <==> Spread(n, m, b, l)
  {
    SameLists(a, b);
    hide Given, AllSingle, Consistent, FoldsDiffer, Single, Alone;
  }

  lemma UncontestedClass(n: Naming, snapshot: Files, a: seq<Tile>, b: seq<Tile>, k: string)
    requires Feasible(n, snapshot, a) && !Package(n, snapshot, a).issues && !Package(n, snapshot, b).issues
    requires Reordered(a, b) && !Contested(n, snapshot, a)
    ensures InClass(n, Package(n, snapshot, a).projected, k) == InClass(n, Package(n, snapshot, b).projected, k)
  {
    var m := InClass(n, snapshot, k);
    ReorderedPackage(n, snapshot, a, b);
    ClassOutcome(n, snapshot, a, k);
    ClassOutcome(n, snapshot, b, k);
    ReorderedLists(n, a, b, k);
    hide Package, Feasible, InClass, Contested, Lists, Reordered, Outcome, Compatible, Merged, Spread;
    SameSpread(n, m, Lists(n, a, k), Lists(n, b, k));
    if Merged(n, m, Lists(n, a, k)) && m == map[] {
      UncontestedFirst(n, snapshot, a, b, k);
    }
    SameOutcome(n, m, Lists(n, a, k), Lists(n, b, k), InClass(n, Package(n, snapshot, a).projected, k),
                InClass(n, Package(n, snapshot, b).projected, k));
  }

  /** The projected files are the same in every order without issues exactly when no identity that is new to the destination
      is needed under two names by tiles that may start. */
  lemma NamesIgnoreOrderIffUncontested(n: Naming, snapshot: Files, a: seq<Tile>)
    requires Feasible(n, snapshot, a) && !Package(n, snapshot, a).issues
    ensures NamesAreFixed(n, snapshot, a) <==> !Contested(n, snapshot, a)
  {
    hide Package, Feasible, Contested, InClass, Reordered;
    if Contested(n, snapshot, a) {
      ContestedNamesDiffer(n, snapshot, a);
    } else {
      forall b | Reordered(a, b) && !Package(n, snapshot, b).issues
        ensures Package(n, snapshot, b).projected == Package(n, snapshot, a).projected
      {
        forall k
          ensures InClass(n, Package(n, snapshot, a).projected, k) == InClass(n, Package(n, snapshot, b).projected, k)
        {
          UncontestedClass(n, snapshot, a, b, k);
        }
        SameClasses(n, Package(n, snapshot, a).projected, Package(n, snapshot, b).projected);
      }
    }
  }

  // ---------- the entries ----------

  /** Some order in which no tile after this one needs the class ends with one that fits last. */
  predicate MayClose(n: Naming, snapshot: Files, tiles: seq<Tile>, t: Tile, k: string) {
    || FitsLast(n, snapshot, tiles, t)
    || exists w :: w in tiles && Wanted(n, w.candidates, k) == {} && FitsLast(n, snapshot, tiles, w)
  }

  /** Two tiles, each of which may be the last to need its identity, need it under two names. */
  ghost predicate Shared(n: Naming, snapshot: Files, tiles: seq<Tile>) {
    exists t, u, c, d :: t in tiles && u in tiles && Apart(n, t, u, c, d)
                         && MayClose(n, snapshot, tiles, t, Class(n, c.source)) && MayClose(n, snapshot, tiles, u, Class(n, d.source))
  }

  /** No order of the tiles without issues makes another package. */
  ghost predicate PackageIsFixed(n: Naming, snapshot: Files, a: seq<Tile>) {
    forall b :: Reordered(a, b) && !Package(n, snapshot, b).issues ==> Package(n, snapshot, b) == Package(n, snapshot, a)
  }

  lemma EntriesOf(n: Naming, snapshot: Files, a: seq<Tile>, f: string)
    requires Feasible(n, snapshot, a) && !Package(n, snapshot, a).issues
    ensures FileAt(n, snapshot, a, Package(n, snapshot, a), f)
  {
    PackageByClass(n, snapshot, a, a);
    hide Feasible, Package, FileAt;
  }

  /** Each file of the class is listed under this source. */
  predicate ListedUnder(st: State, files: Files, source: string) {
    files != map[] && forall f :: f in files ==> f in st.files && st.files[f].source == source
  }

  lemma ListedByLast(n: Naming, snapshot: Files, a: seq<Tile>, t: Tile, u: Tile, c: Candidate, d: Candidate)
    requires Feasible(n, snapshot, a) && !Package(n, snapshot, a).issues && t in a && u in a && Apart(n, t, u, c, d)
    requires LastWanting(Lists(n, a, Class(n, c.source))) == Wanted(n, t.candidates, Class(n, c.source))
    ensures var st := Package(n, snapshot, a); ListedUnder(st, InClass(n, st.projected, Class(n, c.source)), c.source)
  {
    hide *;
    var k := Class(n, c.source);
    ApartIsMerged(n, snapshot, a, t, u, c, d);
    ClassOutcome(n, snapshot, a, k);
    MergedIsThere(n, InClass(n, snapshot, k), Lists(n, a, k), InClass(n, Package(n, snapshot, a).projected, k), c);
    ListedClass(n, snapshot, a, k, c);
  }

  lemma ListedClass(n: Naming, snapshot: Files, a: seq<Tile>, k: string, c: Candidate)
    requires Feasible(n, snapshot, a) && !Package(n, snapshot, a).issues && LastWanting(Lists(n, a, k)) == {c}
    requires InClass(n, Package(n, snapshot, a).projected, k) != map[]
    ensures var st := Package(n, snapshot, a); ListedUnder(st, InClass(n, st.projected, k), c.source)
  {
    var st := Package(n, snapshot, a);
    hide Package, Feasible, LastWanting, Lists;
    forall f | f in InClass(n, st.projected, k)
      ensures f in st.files && st.files[f].source == c.source
    {
      EntriesOf(n, snapshot, a, f);
      SourceOfFile(n, snapshot, a, st, f, c);
    }
  }

  lemma MergedIsThere(n: Naming, m: Files, lists: seq<set<Candidate>>, r: Files, c: Candidate)
    requires Merged(n, m, lists) && Outcome(n, m, lists, r) && c in Given(lists)
    ensures r != map[]
  {
    hide Merged, Given, Spread, Holds;
  }

  lemma SourceOfFile(n: Naming, snapshot: Files, a: seq<Tile>, st: State, f: string, c: Candidate)
    requires FileAt(n, snapshot, a, st, f) && f in st.projected && LastWanting(Lists(n, a, Class(n, f))) == {c}
    ensures f in st.files && st.files[f].source == c.source
  {
    hide LastWanting, Lists, ClassResult, Class;
    var r := ClassResult(n, snapshot, a, Class(n, f));
    assert At(st, f).0 == Get(r.value, f) == Some(st.projected[f]);
    assert c in {c};
  }

  /** An order in which no tile after this one needs the class. */
  lemma ClosedBy(n: Naming, snapshot: Files, a: seq<Tile>, t: Tile, k: string) returns (b: seq<Tile>)
    requires Feasible(n, snapshot, a) && !Package(n, snapshot, a).issues && t in a
    requires Wanted(n, t.candidates, k) != {} && MayClose(n, snapshot, a, t, k)
    ensures Reordered(a, b) && !Package(n, snapshot, b).issues && Feasible(n, snapshot, b) && forall x :: x in a <==> x in b
    ensures LastWanting(Lists(n, b, k)) == Wanted(n, t.candidates, k)
  {
    hide Feasible, Package, FitsLast, Reordered, Wanted, Lists, LastWanting;
    if FitsLast(n, snapshot, a, t) {
      var i :| 0 <= i < |a| && a[i] == t;
      b := InBack(a, i);
      ClassGrows(n, snapshot, a[..i] + a[i + 1..], t, k);
      assert b[|b| - 1] == t;
    } else {
      var w :| w in a && Wanted(n, w.candidates, k) == {} && FitsLast(n, snapshot, a, w);
      var i :| 0 <= i < |a| && a[i] == t;
      var j :| 0 <= j < |a| && a[j] == w;
      AnotherPlace(a, i, j);
      var mid := Between(a, t, w);
      b := (mid + [t]) + [w];
      ClassGrows(n, snapshot, mid, t, k);
      ClassGrows(n, snapshot, mid + [t], w, k);
      assert b[|b| - 1] == w;
    }
    EndsWithoutIssues(n, snapshot, a, b);
  }

  lemma ListedAfterLast(n: Naming, snapshot: Files, a: seq<Tile>, t: Tile, u: Tile, c: Candidate, d: Candidate) returns (b: seq<Tile>)
    requires Feasible(n, snapshot, a) && !Package(n, snapshot, a).issues
    requires t in a && u in a && Apart(n, t, u, c, d) && MayClose(n, snapshot, a, t, Class(n, c.source))
    ensures Reordered(a, b) && !Package(n, snapshot, b).issues
    ensures var st := Package(n, snapshot, b); ListedUnder(st, InClass(n, st.projected, Class(n, c.source)), c.source)
  {
    assert c in Wanted(n, t.candidates, Class(n, c.source));
    hide *;
    b := ClosedBy(n, snapshot, a, t, Class(n, c.source));
    ListedByLast(n, snapshot, b, t, u, c, d);
  }

  lemma ListedOnce(st: State, files: Files, x: string, y: string)
    requires ListedUnder(st, files, x) && ListedUnder(st, files, y)
    ensures x == y
  {
    var f :| f in files;
  }

  lemma SharedEntriesDiffer(n: Naming, snapshot: Files, a: seq<Tile>)
    requires Feasible(n, snapshot, a) && !Package(n, snapshot, a).issues && Shared(n, snapshot, a)
    ensures !PackageIsFixed(n, snapshot, a)
  {
    hide Feasible, Package, InClass, Reordered, Apart, Class, ListedUnder, MayClose;
    var t, u, c, d :| t in a && u in a && Apart(n, t, u, c, d)
                      && MayClose(n, snapshot, a, t, Class(n, c.source)) && MayClose(n, snapshot, a, u, Class(n, d.source));
    ApartIsSymmetric(n, snapshot, t, u, c, d);
    var b := ListedAfterLast(n, snapshot, a, t, u, c, d);
    var b' := ListedAfterLast(n, snapshot, a, u, t, d, c);
    if Package(n, snapshot, b) == Package(n, snapshot, b') {
      var st := Package(n, snapshot, b);
      ListedOnce(st, InClass(n, st.projected, Class(n, c.source)), c.source, d.source);
    }
  }

  /** A tile that is the last to need a class may close it. */
  lemma LastMayClose(n: Naming, snapshot: Files, a: seq<Tile>, k: string, i: nat)
    requires Feasible(n, snapshot, a) && !Package(n, snapshot, a).issues && i < |a|
    requires forall j :: i < j < |a| ==> Lists(n, a, k)[j] == {}
    ensures MayClose(n, snapshot, a, a[i], k)
  {
    hide Feasible, Package, FitsLast;
    LastFits(n, snapshot, a);
    assert i < |a| - 1 ==> a[|a| - 1] in a && Lists(n, a, k)[|a| - 1] == {};
  }

  lemma CloseReordered(n: Naming, snapshot: Files, a: seq<Tile>, b: seq<Tile>, t: Tile, k: string)
    requires Reordered(a, b) && MayClose(n, snapshot, b, t, k)
    ensures MayClose(n, snapshot, a, t, k)
  {
    SameMembers(a, b);
    FitsReordered(n, snapshot, a, b, t);
    hide FitsLast, Reordered;
    if !FitsLast(n, snapshot, b, t) {
      var w :| w in b && Wanted(n, w.candidates, k) == {} && FitsLast(n, snapshot, b, w);
      FitsReordered(n, snapshot, a, b, w);
    }
  }

  /** Two orders without issues. */
  ghost predicate BothGood(n: Naming, snapshot: Files, a: seq<Tile>, b: seq<Tile>) {
    && Feasible(n, snapshot, a) && Feasible(n, snapshot, b) && Reordered(a, b) && (forall t :: t in a <==> t in b)
    && !Package(n, snapshot, a).issues && !Package(n, snapshot, b).issues
  }

  lemma SameSource(n: Naming, snapshot: Files, a: seq<Tile>, b: seq<Tile>, f: string, x: string, y: string)
    requires BothGood(n, snapshot, a, b) && !Shared(n, snapshot, a)
    requires Compatible(n, InClass(n, snapshot, Class(n, f)), Lists(n, a, Class(n, f)))
    requires ComesFrom(n, LastWanting(Lists(n, a, Class(n, f))), f, x) && ComesFrom(n, LastWanting(Lists(n, b, Class(n, f))), f, y)
    ensures x == y
  {
    var k := Class(n, f);
    var la, lb, m := Lists(n, a, k), Lists(n, b, k), InClass(n, snapshot, k);
    var c :| c in LastWanting(la) && c.source == x;
    var d :| d in LastWanting(lb) && d.source == y;
    var i := LastIsSome(la);
    var j := LastIsSome(lb);
    hide LastWanting, Class, InClass, Single, Feasible, Package, Reordered, Shared, Merged, Wanted;
    if Merged(n, m, la) {
      hide ComesFrom, BothGood;
      LastsHaveOneSource(n, snapshot, a, b, k, i, j, c, d);
    } else {
      hide Given;
      ReorderedLists(n, a, b, k);
      SameLists(la, lb);
      assert la[i] in la && lb[j] in lb;
      NoneGiven(la);
      assert la[i] == lb[j];
    }
  }

  lemma LastsHaveOneSource(n: Naming, snapshot: Files, a: seq<Tile>, b: seq<Tile>, k: string, i: nat, j: nat, c: Candidate, d: Candidate)
    requires BothGood(n, snapshot, a, b) && !Shared(n, snapshot, a) && Merged(n, InClass(n, snapshot, k), Lists(n, a, k))
    requires i < |a| && j < |b| && c in Lists(n, a, k)[i] && d in Lists(n, b, k)[j]
    requires forall x :: i < x < |a| ==> Lists(n, a, k)[x] == {}
    requires forall x :: j < x < |b| ==> Lists(n, b, k)[x] == {}
    ensures c.source == d.source
  {
    hide Feasible, Package, InClass, Merged, Reordered, MayClose, Apart, Wanted, Class;
    if c.source != d.source {
      OneSource(n, snapshot, a, k, a[i], b[j], c, d);
      LastMayClose(n, snapshot, a, k, i);
      LastMayClose(n, snapshot, b, k, j);
      CloseReordered(n, snapshot, a, b, b[j], k);
    }
  }

  lemma SoundlySame(snapshot: Files, s: State, t: State, f: string)
    requires Sound(snapshot, s) && Sound(snapshot, t) && s.projected == t.projected && NoConflictAt(s, f) && NoConflictAt(t, f)
    requires f in s.files && f in t.files && s.files[f].source == t.files[f].source
    ensures s.files[f] == t.files[f]
  {
    assert SoundEntry(snapshot, s.projected, f, s.files[f]) && SoundEntry(snapshot, t.projected, f, t.files[f]);
    hide Sound, Extends;
  }

  lemma UnsharedEntry(n: Naming, snapshot: Files, a: seq<Tile>, b: seq<Tile>, s: State, t: State, f: string)
    requires BothGood(n, snapshot, a, b) && !Shared(n, snapshot, a)
    requires Compatible(n, InClass(n, snapshot, Class(n, f)), Lists(n, a, Class(n, f)))
    requires FileAt(n, snapshot, a, s, f) && FileAt(n, snapshot, b, t, f) && s.projected == t.projected
    ensures f in s.files <==> f in t.files
    ensures f in s.files ==> s.files[f].source == t.files[f].source
    ensures NoConflictAt(s, f) && NoConflictAt(t, f)
  {
    hide Lists, LastWanting, Class, InClass, Shared, Compatible, ComesFrom, Given, JoinAll, Feasible, Package, Reordered;
    var la, lb := Lists(n, a, Class(n, f)), Lists(n, b, Class(n, f));
    ReorderedLists(n, a, b, Class(n, f));
    SameLists(la, lb);
    LastIsGiven(la);
    LastIsGiven(lb);
    if f in s.files && f in t.files {
      SameSource(n, snapshot, a, b, f, s.files[f].source, t.files[f].source);
    }
  }

  lemma UnsharedPackage(n: Naming, snapshot: Files, a: seq<Tile>, b: seq<Tile>)
    requires BothGood(n, snapshot, a, b) && !Shared(n, snapshot, a)
    requires Package(n, snapshot, a).projected == Package(n, snapshot, b).projected
    ensures Package(n, snapshot, b) == Package(n, snapshot, a)
  {
    var s, t := Package(n, snapshot, a), Package(n, snapshot, b);
    assert s.issues == t.issues;
    hide *;
    forall f
      ensures f in s.files <==> f in t.files
      ensures f in s.files ==> s.files[f] == t.files[f]
    {
      UnsharedFile(n, snapshot, a, b, f);
    }
    assert s.files == t.files;
  }

  lemma UnsharedFile(n: Naming, snapshot: Files, a: seq<Tile>, b: seq<Tile>, f: string)
    requires BothGood(n, snapshot, a, b) && !Shared(n, snapshot, a)
    requires Package(n, snapshot, a).projected == Package(n, snapshot, b).projected
    ensures f in Package(n, snapshot, a).files <==> f in Package(n, snapshot, b).files
    ensures f in Package(n, snapshot, a).files ==> Package(n, snapshot, a).files[f] == Package(n, snapshot, b).files[f]
  {
    hide Feasible, Package, Reordered, Shared, FileAt, Sound, NoConflictAt, Compatible, Outcome, InClass, Lists, Class;
    var s, t := Package(n, snapshot, a), Package(n, snapshot, b);
    PackageIsSound(n, snapshot, a);
    PackageIsSound(n, snapshot, b);
    EntriesOf(n, snapshot, a, f);
    EntriesOf(n, snapshot, b, f);
    ClassOutcome(n, snapshot, a, Class(n, f));
    UnsharedEntry(n, snapshot, a, b, s, t, f);
    if f in s.files {
      SoundlySame(snapshot, s, t, f);
    }
  }

  /** The whole package is the same in every order without issues exactly when no names are contested and no identity is
      needed under two names by tiles that may close it: where the destination has the file, its name does not depend on
      the order, but the source that is shown does. */
  lemma PackageIgnoresOrderIffUnshared(n: Naming, snapshot: Files, a: seq<Tile>)
    requires Feasible(n, snapshot, a) && !Package(n, snapshot, a).issues
    ensures PackageIsFixed(n, snapshot, a) <==> !Contested(n, snapshot, a) && !Shared(n, snapshot, a)
  {
    hide Package, Feasible, Shared, Contested, Reordered;
    NamesIgnoreOrderIffUncontested(n, snapshot, a);
    if Shared(n, snapshot, a) {
      SharedEntriesDiffer(n, snapshot, a);
    } else if !Contested(n, snapshot, a) {
      forall b | Reordered(a, b) && !Package(n, snapshot, b).issues
        ensures Package(n, snapshot, b) == Package(n, snapshot, a)
      {
        ReorderedPackage(n, snapshot, a, b);
        UnsharedPackage(n, snapshot, a, b);
      }
    }
  }
}

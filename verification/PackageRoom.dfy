/** The file limit: how many files come out of the tiles, and how many of them each tile alone is the cause of. */
module PackageRoom {
  import opened Options
  import opened PackageTile
  import opened PackageAggregation
  import opened PackageClasses
  import opened PackageFold
  import opened PackageVerdict
  import opened PackageReordering

  /** The destination lacks the class, and no other tile needs it. */
  predicate OnlyNeed(n: Naming, snapshot: Files, tiles: seq<Tile>, t: Tile, k: string) {
    InClass(n, snapshot, k) == map[] && forall u :: u in Others(tiles, t) ==> Wanted(n, u.candidates, k) == {}
  }

  /** The files that only this tile adds. */
  function Own(n: Naming, snapshot: Files, tiles: seq<Tile>, t: Tile): set<string> {
    set c | c in t.candidates && OnlyNeed(n, snapshot, tiles, t, Class(n, c.source)) :: c.source
  }

  /** There is room for the files that come out without those that only this tile adds. */
  predicate FitsLast(n: Naming, snapshot: Files, tiles: seq<Tile>, t: Tile) {
    |Out(n, snapshot, tiles)| - |Own(n, snapshot, tiles, t)| <= MAX_FILES
  }

  // ---------- one tile more ----------

  lemma {:induction false} NeverEmptied(n: Naming, m: Files, lists: seq<set<Candidate>>)
    requires JoinAll(n, m, lists).Some?
    ensures JoinAll(n, m, lists).value == map[] <==> m == map[] && forall l :: l in lists ==> l == {}
  {
    if lists != [] {
      var front, x := lists[..|lists| - 1], lists[|lists| - 1];
      assert lists == front + [x];
      NeverEmptied(n, m, front);
      JoinNames(n, JoinAll(n, m, front).value, x);
      hide Join, SourcesOf;
      assert x in lists && forall l :: l in lists <==> l in front || l == x;
    }
  }

  lemma JoinNames(n: Naming, m: Files, cs: set<Candidate>)
    requires Join(n, m, cs).Some?
    ensures Join(n, m, cs).value.Keys == if m == map[] then SourcesOf(cs) else m.Keys
    ensures Join(n, m, cs).value == map[] <==> m == map[] && cs == {}
  {
    hide Takes, FoldsDiffer, Alone;
    var r := Join(n, m, cs).value;
    if m == map[] && cs != {} {
      var c :| c in cs;
      assert c.source in r;
    } else if m != map[] {
      var f :| f in m;
      assert f in r;
    }
  }

  lemma OthersOfLast(front: seq<Tile>, t: Tile)
    ensures Others(front + [t], t) == multiset(front)
    ensures forall u :: u in multiset(front) <==> u in front
  {}

  /** A class is empty before the last tile exactly when that tile alone can fill it. */
  lemma EmptyBeforeLast(n: Naming, snapshot: Files, front: seq<Tile>, t: Tile, k: string)
    requires ClassResult(n, snapshot, front, k).Some?
    ensures ClassResult(n, snapshot, front, k).value == map[] <==> OnlyNeed(n, snapshot, front + [t], t, k)
  {
    hide JoinAll, InClass, Wanted;
    var lists := Lists(n, front, k);
    NeverEmptied(n, InClass(n, snapshot, k), lists);
    OthersOfLast(front, t);
    forall i | 0 <= i < |front|
      ensures lists[i] == Wanted(n, front[i].candidates, k) && lists[i] in lists && front[i] in front
    {}
  }

  lemma OwnExactly(n: Naming, snapshot: Files, tiles: seq<Tile>, t: Tile, f: string)
    ensures f in Own(n, snapshot, tiles, t)
            <==> OnlyNeed(n, snapshot, tiles, t, Class(n, f)) && f in SourcesOf(Wanted(n, t.candidates, Class(n, f)))
  {
    hide OnlyNeed;
    if OnlyNeed(n, snapshot, tiles, t, Class(n, f)) && f in SourcesOf(Wanted(n, t.candidates, Class(n, f))) {
      var c :| c in Wanted(n, t.candidates, Class(n, f)) && c.source == f;
      assert c in t.candidates;
    }
  }

  lemma OutNext(n: Naming, snapshot: Files, front: seq<Tile>, t: Tile, f: string)
    requires ClassResult(n, snapshot, front + [t], Class(n, f)).Some?
    ensures f in Out(n, snapshot, front + [t]) <==> f in Out(n, snapshot, front) || f in Own(n, snapshot, front + [t], t)
    ensures !(f in Out(n, snapshot, front) && f in Own(n, snapshot, front + [t], t))
  {
    hide Out, Own, OnlyNeed, ClassResult, Join, SourcesOf, Wanted, Lists, LastWanting;
    var k := Class(n, f);
    ClassGrows(n, snapshot, front, t, k);
    JoinNames(n, ClassResult(n, snapshot, front, k).value, Wanted(n, t.candidates, k));
    EmptyBeforeLast(n, snapshot, front, t, k);
    OwnExactly(n, snapshot, front + [t], t, f);
    OutExactly(n, snapshot, front, f);
    OutExactly(n, snapshot, front + [t], f);
  }

  lemma JoinsBefore(n: Naming, snapshot: Files, front: seq<Tile>, t: Tile)
    requires AllJoin(n, snapshot, front + [t])
    ensures AllJoin(n, snapshot, front)
  {
    hide ClassResult, Join, LastWanting, Lists, Wanted;
    forall k
      ensures ClassResult(n, snapshot, front, k).Some?
    {
      ClassGrows(n, snapshot, front, t, k);
    }
  }

  /** The last tile adds its own files and no others. */
  lemma OutGrows(n: Naming, snapshot: Files, front: seq<Tile>, t: Tile)
    requires AllJoin(n, snapshot, front + [t])
    ensures |Out(n, snapshot, front)| == |Out(n, snapshot, front + [t])| - |Own(n, snapshot, front + [t], t)|
  {
    hide Out, Own, ClassResult;
    forall f
      ensures f in Out(n, snapshot, front + [t]) <==> f in Out(n, snapshot, front) || f in Own(n, snapshot, front + [t], t)
      ensures !(f in Out(n, snapshot, front) && f in Own(n, snapshot, front + [t], t))
    {
      OutNext(n, snapshot, front, t, f);
    }
    assert Out(n, snapshot, front + [t]) == Out(n, snapshot, front) + Own(n, snapshot, front + [t], t);
    assert Out(n, snapshot, front) !! Own(n, snapshot, front + [t], t);
  }

  /** Where there is room for what comes out, there was room before each tile. */
  lemma {:induction false} RoomBefore(n: Naming, snapshot: Files, tiles: seq<Tile>)
    requires AllJoin(n, snapshot, tiles) && |Out(n, snapshot, tiles)| <= MAX_FILES
    ensures Roomy(n, snapshot, tiles)
  {
    hide AllJoin, Out, Own;
    if tiles != [] {
      var front, t := tiles[..|tiles| - 1], tiles[|tiles| - 1];
      assert tiles == front + [t];
      JoinsBefore(n, snapshot, front, t);
      OutGrows(n, snapshot, front, t);
      RoomBefore(n, snapshot, front);
      hide Roomy;
      RoomyGrows(n, snapshot, front, t);
    }
  }

  /** There is room before each tile exactly when the last one fits. */
  lemma RoomyByLast(n: Naming, snapshot: Files, tiles: seq<Tile>)
    requires AllJoin(n, snapshot, tiles)
    ensures Roomy(n, snapshot, tiles) <==> tiles == [] || FitsLast(n, snapshot, tiles, tiles[|tiles| - 1])
  {
    hide AllJoin, Out, Own;
    if tiles != [] {
      var front, t := tiles[..|tiles| - 1], tiles[|tiles| - 1];
      assert tiles == front + [t];
      hide Roomy;
      JoinsBefore(n, snapshot, front, t);
      OutGrows(n, snapshot, front, t);
      RoomyGrows(n, snapshot, front, t);
      if |Out(n, snapshot, front)| <= MAX_FILES {
        RoomBefore(n, snapshot, front);
      }
    }
  }

  // ---------- other orders ----------

  /** In another order a class comes out as well, and alike. */
  lemma ClassReordered(n: Naming, snapshot: Files, a: seq<Tile>, b: seq<Tile>, k: string)
    requires Reordered(a, b)
    ensures ClassResult(n, snapshot, a, k).Some? <==> ClassResult(n, snapshot, b, k).Some?
    ensures ClassResult(n, snapshot, a, k).Some? ==> Alike(n, ClassResult(n, snapshot, a, k).value, ClassResult(n, snapshot, b, k).value)
  {
    hide JoinAll, Alike, InClass, Lists, Reordered;
    ReorderedLists(n, a, b, k);
    ClassIgnoresOrder(n, InClass(n, snapshot, k), Lists(n, a, k), Lists(n, b, k));
  }

  lemma JoinReordered(n: Naming, snapshot: Files, a: seq<Tile>, b: seq<Tile>)
    requires Reordered(a, b)
    ensures AllJoin(n, snapshot, a) <==> AllJoin(n, snapshot, b)
  {
    hide ClassResult, Alike, Reordered;
    forall k
      ensures ClassResult(n, snapshot, a, k).Some? <==> ClassResult(n, snapshot, b, k).Some?
    {
      ClassReordered(n, snapshot, a, b, k);
    }
  }

  /** The same file, or the one file of its class under its other name. */
  ghost predicate Renamed(n: Naming, snapshot: Files, a: seq<Tile>, b: seq<Tile>, f: string, g: string) {
    f == g || (Class(n, f) == Class(n, g)
               && ClassResult(n, snapshot, a, Class(n, f)).Some? && ClassResult(n, snapshot, a, Class(n, f)).value.Keys == {f}
               && ClassResult(n, snapshot, b, Class(n, f)).Some? && ClassResult(n, snapshot, b, Class(n, f)).value.Keys == {g})
  }

  lemma RenamedFile(n: Naming, snapshot: Files, a: seq<Tile>, b: seq<Tile>, f: string) returns (g: string)
    requires Reordered(a, b) && f in Out(n, snapshot, a)
    ensures g in Out(n, snapshot, b) && Renamed(n, snapshot, a, b, f, g)
  {
    hide Out, ClassResult, Class, Reordered;
    var k := Class(n, f);
    ClassReordered(n, snapshot, a, b, k);
    OutExactly(n, snapshot, a, f);
    var r, s := ClassResult(n, snapshot, a, k).value, ClassResult(n, snapshot, b, k).value;
    if r == s {
      g := f;
    } else {
      var x, y :| x in r && y in s && r.Keys == {x} && s.Keys == {y} && n.identity(x) == n.identity(y) && r[x] == s[y];
      g := y;
      ResultNames(n, snapshot, b, k, g);
    }
    OutExactly(n, snapshot, b, g);
  }

  lemma RenamedOnce(n: Naming, snapshot: Files, a: seq<Tile>, b: seq<Tile>, f: string, f': string, g: string)
    requires f in Out(n, snapshot, a) && f' in Out(n, snapshot, a)
    requires Renamed(n, snapshot, a, b, f, g) && Renamed(n, snapshot, a, b, f', g)
    ensures f == f'
  {
    hide Out, ClassResult, Class;
    OutExactly(n, snapshot, a, f);
    OutExactly(n, snapshot, a, f');
  }

  lemma {:induction false} NoMoreFiles(n: Naming, snapshot: Files, a: seq<Tile>, b: seq<Tile>, x: set<string>, y: set<string>)
    requires Reordered(a, b) && x <= Out(n, snapshot, a)
    requires forall f :: f in x ==> exists g :: g in y && Renamed(n, snapshot, a, b, f, g)
    ensures |x| <= |y|
    decreases |x|
  {
    hide Out, Renamed, Reordered;
    if x != {} {
      var f :| f in x;
      var g :| g in y && Renamed(n, snapshot, a, b, f, g);
      forall f' | f' in x - {f}
        ensures exists g' :: g' in y - {g} && Renamed(n, snapshot, a, b, f', g')
      {
        var g' :| g' in y && Renamed(n, snapshot, a, b, f', g');
        if g' == g {
          RenamedOnce(n, snapshot, a, b, f, f', g);
        }
        assert g' in y - {g};
      }
      NoMoreFiles(n, snapshot, a, b, x - {f}, y - {g});
    }
  }

  lemma NoMoreOut(n: Naming, snapshot: Files, a: seq<Tile>, b: seq<Tile>)
    requires Reordered(a, b)
    ensures |Out(n, snapshot, a)| <= |Out(n, snapshot, b)|
  {
    hide Out, Renamed, Reordered;
    forall f | f in Out(n, snapshot, a)
      ensures exists g :: g in Out(n, snapshot, b) && Renamed(n, snapshot, a, b, f, g)
    {
      var g := RenamedFile(n, snapshot, a, b, f);
    }
    NoMoreFiles(n, snapshot, a, b, Out(n, snapshot, a), Out(n, snapshot, b));
  }

  /** In another order as many files come out, and the same tiles fit last. */
  lemma FitsReordered(n: Naming, snapshot: Files, a: seq<Tile>, b: seq<Tile>, t: Tile)
    requires Reordered(a, b)
    ensures |Out(n, snapshot, a)| == |Out(n, snapshot, b)|
    ensures FitsLast(n, snapshot, a, t) <==> FitsLast(n, snapshot, b, t)
  {
    NoMoreOut(n, snapshot, a, b);
    NoMoreOut(n, snapshot, b, a);
    hide Out;
    assert Own(n, snapshot, a, t) == Own(n, snapshot, b, t);
  }

  // ---------- the verdict ----------

  /** All orders of the tiles that have a last one which fits are without issues, or none is. */
  lemma VerdictByLast(n: Naming, snapshot: Files, a: seq<Tile>, b: seq<Tile>)
    requires Reordered(a, b) && Feasible(n, snapshot, a)
    ensures !Package(n, snapshot, b).issues
            <==> Unblocked(a) && AllJoin(n, snapshot, a) && (b == [] || FitsLast(n, snapshot, a, b[|b| - 1]))
  {
    hide Package, Feasible, AllJoin, FitsLast, AllFilesAt, Roomy;
    SameMembers(a, b);
    ReorderedIsFeasible(n, snapshot, a, b);
    JoinReordered(n, snapshot, a, b);
    PackageByClass(n, snapshot, b, b);
    hide Reordered, Unblocked;
    if AllJoin(n, snapshot, b) {
      RoomyByLast(n, snapshot, b);
      if b != [] {
        FitsReordered(n, snapshot, a, b, b[|b| - 1]);
      }
    }
  }
}

/** The tiles of a package in another order. */
module PackageReordering {
  import opened PackageTile
  import opened PackageClasses
  import opened PackageFold

  predicate Reordered(a: seq<Tile>, b: seq<Tile>) {
    multiset(a) == multiset(b)
  }

  lemma SameMembers(a: seq<Tile>, b: seq<Tile>)
    requires Reordered(a, b)
    ensures forall t :: t in a <==> t in b
  {
    forall t
      ensures t in a <==> t in b
    {
      assert t in a <==> multiset(a)[t] > 0;
      assert t in b <==> multiset(b)[t] > 0;
    }
  }

  lemma ReorderedIsFeasible(n: Naming, snapshot: Files, a: seq<Tile>, b: seq<Tile>)
    requires (forall t :: t in a <==> t in b) && Feasible(n, snapshot, a)
    ensures Feasible(n, snapshot, b) && (Unblocked(a) <==> Unblocked(b))
  {
    assert AllNames(snapshot, a) == AllNames(snapshot, b);
    hide NoRepeats, Lawful, AllNames;
  }

  lemma Split<T>(s: seq<T>, i: nat)
    requires i < |s|
    ensures multiset(s) == multiset(s[..i] + s[i + 1..]) + multiset{s[i]}
  {
    assert s == s[..i] + [s[i]] + s[i + 1..];
  }

  lemma Cancel<T>(p: multiset<T>, q: multiset<T>, x: T)
    requires p + multiset{x} == q + multiset{x}
    ensures p == q
  {
    assert p == (p + multiset{x}) - multiset{x};
    assert q == (q + multiset{x}) - multiset{x};
  }

  lemma TakeOut(a: seq<Tile>, b: seq<Tile>) returns (i: nat)
    requires a != [] && Reordered(a, b)
    ensures i < |b| && b[i] == a[|a| - 1] && Reordered(a[..|a| - 1], b[..i] + b[i + 1..])
  {
    var x := a[|a| - 1];
    SameMembers(a, b);
    assert x in a && x in b;
    i :| 0 <= i < |b| && b[i] == x;
    Split(b, i);
    Split(a, |a| - 1);
    assert a[..|a| - 1] + a[|a|..] == a[..|a| - 1];
    Cancel(multiset(a[..|a| - 1]), multiset(b[..i] + b[i + 1..]), x);
  }

  lemma ListsJoin(n: Naming, a: seq<Tile>, b: seq<Tile>, k: string)
    ensures Lists(n, a + b, k) == Lists(n, a, k) + Lists(n, b, k)
  {}

  lemma {:induction false} ReorderedLists(n: Naming, a: seq<Tile>, b: seq<Tile>, k: string)
    requires Reordered(a, b)
    ensures multiset(Lists(n, a, k)) == multiset(Lists(n, b, k))
  {
    if a == [] {
      assert |multiset(b)| == 0;
    } else {
      var front := a[..|a| - 1];
      var i := TakeOut(a, b);
      var x, before, after := a[|a| - 1], b[..i], b[i + 1..];
      assert a == front + [x] && b == before + ([x] + after);
      ReorderedLists(n, front, before + after, k);
      ListsJoin(n, front, [x], k);
      ListsJoin(n, before, [x] + after, k);
      ListsJoin(n, [x], after, k);
      ListsJoin(n, before, after, k);
      hide Lists, Reordered;
    }
  }

  lemma TwiceIn<T>(s: seq<T>, i: nat, j: nat, x: T)
    requires i < |s| && j < |s| && i != j && s[i] == x == s[j]
    ensures multiset(s)[x] >= 2
  {
    Split(s, i);
    var rest := s[..i] + s[i + 1..];
    assert x == if j < i then rest[j] else rest[j - 1];
    assert x in multiset(rest);
  }

  /** An order in which this tile is the last. */
  function InBack(a: seq<Tile>, i: nat): (b: seq<Tile>)
    requires i < |a|
    ensures Reordered(a, b)
  {
    assert a == a[..i] + [a[i]] + a[i + 1..];
    (a[..i] + a[i + 1..]) + [a[i]]
  }

  function Others(tiles: seq<Tile>, t: Tile): multiset<Tile> {
    multiset(tiles) - multiset{t}
  }

  lemma WithoutOne(a: seq<Tile>, x: Tile) returns (rest: seq<Tile>)
    requires x in a
    ensures multiset(rest) == Others(a, x) && multiset(a) == multiset(rest) + multiset{x}
  {
    var i :| 0 <= i < |a| && a[i] == x;
    Split(a, i);
    rest := a[..i] + a[i + 1..];
  }

  lemma InAnyPlace(mid: seq<Tile>, t: Tile, w: Tile)
    ensures multiset([t] + (mid + [w])) == multiset((mid + [t]) + [w]) == multiset(mid) + multiset{w} + multiset{t}
  {}

  /** The tiles between one that comes first and another that comes last. */
  lemma Between(a: seq<Tile>, t: Tile, w: Tile) returns (mid: seq<Tile>)
    requires t in a && w in Others(a, t)
    ensures Reordered(a, [t] + (mid + [w])) && Reordered(a, (mid + [t]) + [w])
  {
    hide Others;
    var rest := WithoutOne(a, t);
    assert w in multiset(rest);
    mid := WithoutOne(rest, w);
    InAnyPlace(mid, t, w);
  }

  lemma AnotherPlace(a: seq<Tile>, i: nat, j: nat)
    requires i < |a| && j < |a| && i != j
    ensures a[j] in Others(a, a[i])
  {
    Split(a, i);
    var rest := a[..i] + a[i + 1..];
    assert a[j] == if j < i then rest[j] else rest[j - 1];
    assert a[j] in multiset(rest);
    assert multiset(a) - multiset{a[i]} == multiset(rest);
  }
}

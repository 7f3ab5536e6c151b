/** The selected joins do not depend on the order in which the relationships are listed. */
module JoinOrder {
  import opened Options
  import opened JoinGraph
  import opened JoinSelection

  /** Position i of list a holds the edge at position there[i] of list b, and back is the inverse. */
  ghost predicate Renumbers(a: seq<Edge>, b: seq<Edge>, there: seq<nat>, back: seq<nat>) {
    && |a| == |b| == |there| == |back|
    && (forall i :: 0 <= i < |a| ==> there[i] < |a| && back[there[i]] == i && b[there[i]] == a[i])
    && (forall i :: 0 <= i < |a| ==> back[i] < |a| && there[back[i]] == i)
  }

  ghost predicate Reordered(a: seq<Edge>, b: seq<Edge>) {
    exists there, back :: Renumbers(a, b, there, back)
  }

  lemma RenumberBack(a: seq<Edge>, b: seq<Edge>, there: seq<nat>, back: seq<nat>)
    requires Renumbers(a, b, there, back)
    ensures Renumbers(b, a, back, there)
  {}

  /** The same walk in the other list. */
  ghost function Renumbered(w: Walk, there: seq<nat>): (r: Walk)
    requires forall k :: 0 <= k < |w| ==> w[k] < |there|
    ensures |r| == |w| && forall k :: 0 <= k < |w| ==> r[k] == there[w[k]]
  {
    seq(|w|, k requires 0 <= k < |w| => there[w[k]])
  }

  lemma {:induction false} RenumberedEnd(a: seq<Edge>, b: seq<Edge>, there: seq<nat>, back: seq<nat>, src: View, w: Walk)
    requires Renumbers(a, b, there, back)
    requires End(a, src, w).Some?
    ensures forall k :: 0 <= k < |w| ==> w[k] < |there|
    ensures End(b, src, Renumbered(w, there)) == End(a, src, w)
    decreases |w|
  {
    WalkIndicesInRange(a, src, w);
    if w != [] {
      RenumberedEnd(a, b, there, back, src, DropLast(w));
      assert DropLast(Renumbered(w, there)) == Renumbered(DropLast(w), there);
    }
  }

  lemma RenumberedShortest(a: seq<Edge>, b: seq<Edge>, there: seq<nat>, back: seq<nat>, src: View, w: Walk, v: View)
    requires Renumbers(a, b, there, back)
    requires IsShortest(a, src, w, v)
    ensures forall k :: 0 <= k < |w| ==> w[k] < |there|
    ensures IsShortest(b, src, Renumbered(w, there), v)
  {
    RenumberedEnd(a, b, there, back, src, w);
    forall other | Reaches(b, src, other, v)
      ensures |w| <= |other|
    {
      RenumberBack(a, b, there, back);
      RenumberedEnd(b, a, back, there, src, other);
      assert Reaches(a, src, Renumbered(other, back), v);
    }
  }

  lemma RenumberedAmbiguous(a: seq<Edge>, b: seq<Edge>, there: seq<nat>, back: seq<nat>, src: View, v: View)
    requires Renumbers(a, b, there, back)
    requires Ambiguous(a, src, v)
    ensures Ambiguous(b, src, v)
  {
    var x, y :| x != y && IsShortest(a, src, x, v) && IsShortest(a, src, y, v);
    RenumberedShortest(a, b, there, back, src, x, v);
    RenumberedShortest(a, b, there, back, src, y, v);
    assert |x| == |y|;
    var k :| 0 <= k < |x| && x[k] != y[k];
    assert Renumbered(x, there)[k] != Renumbered(y, there)[k] by {
      assert back[there[x[k]]] == x[k] && back[there[y[k]]] == y[k];
    }
  }

  /** The relationships that a set of indices names. */
  ghost function Chosen(edges: seq<Edge>, needed: set<nat>): set<Edge> {
    set i | i in needed && i < |edges| :: edges[i]
  }

  /** With no multiple-path finding, an edge needed under one order is needed under the other. */
  lemma NeededEitherWay(a: seq<Edge>, b: seq<Edge>, there: seq<nat>, back: seq<nat>, src: View, views: seq<View>,
                        neededA: set<nat>, neededB: set<nat>, i: nat)
    requires Renumbers(a, b, there, back)
    requires Selects(a, src, views, neededA, {})
    requires Selects(b, src, views, neededB, {})
    requires i in neededA
    ensures i < |a| && there[i] in neededB
  {
    var v, w :| v in views && IsShortest(a, src, w, v) && i in w;
    RenumberedShortest(a, b, there, back, src, w, v);
    assert Connected(b, src, v);
    var w' :| IsShortest(b, src, w', v) && forall j :: j in w' ==> j in neededB;
    assert !Ambiguous(b, src, v);
    assert w' == Renumbered(w, there);
    var k :| 0 <= k < |w| && w[k] == i;
    assert w'[k] == there[i];
  }

  lemma SameUnclear(a: seq<Edge>, b: seq<Edge>, src: View, views: seq<View>,
                    neededA: set<nat>, unclearA: set<View>, neededB: set<nat>, unclearB: set<View>)
    requires Reordered(a, b)
    requires Selects(a, src, views, neededA, unclearA)
    requires Selects(b, src, views, neededB, unclearB)
    ensures unclearA == unclearB
  {
    var there, back :| Renumbers(a, b, there, back);
    RenumberBack(a, b, there, back);
    forall v
      ensures Ambiguous(a, src, v) <==> Ambiguous(b, src, v)
    {
      if Ambiguous(a, src, v) {
        RenumberedAmbiguous(a, b, there, back, src, v);
      }
      if Ambiguous(b, src, v) {
        RenumberedAmbiguous(b, a, back, there, src, v);
      }
    }
  }

  /** Relationship by relationship, the renumbering carries one choice to the other. */
  ghost predicate CarriesOver(there: seq<nat>, neededA: set<nat>, neededB: set<nat>) {
    forall i :: 0 <= i < |there| ==> (i in neededA <==> there[i] in neededB)
  }

  lemma NeededCarriesOver(a: seq<Edge>, b: seq<Edge>, there: seq<nat>, back: seq<nat>, src: View, views: seq<View>,
                          neededA: set<nat>, neededB: set<nat>)
    requires Renumbers(a, b, there, back)
    requires Selects(a, src, views, neededA, {})
    requires Selects(b, src, views, neededB, {})
    ensures CarriesOver(there, neededA, neededB)
  {
    RenumberBack(a, b, there, back);
    hide Selects;
    forall i: nat | i < |there|
      ensures i in neededA <==> there[i] in neededB
    {
      if i in neededA {
        NeededEitherWay(a, b, there, back, src, views, neededA, neededB, i);
      }
      if there[i] in neededB {
        NeededEitherWay(b, a, back, there, src, views, neededB, neededA, there[i]);
      }
    }
  }

  /** Any two selections over the same relationships, listed in any order, flag the same views; and
      if they flag none, they choose the same relationships, one by one. */
  lemma SelectionIgnoresOrder(a: seq<Edge>, b: seq<Edge>, src: View, views: seq<View>,
                              neededA: set<nat>, unclearA: set<View>, neededB: set<nat>, unclearB: set<View>)
    requires Reordered(a, b)
    requires Selects(a, src, views, neededA, unclearA)
    requires Selects(b, src, views, neededB, unclearB)
    ensures unclearA == unclearB
    ensures unclearA == {} ==> forall there, back :: Renumbers(a, b, there, back) ==> CarriesOver(there, neededA, neededB)
    ensures unclearA == {} ==> Chosen(a, neededA) == Chosen(b, neededB)
  {
    SameUnclear(a, b, src, views, neededA, unclearA, neededB, unclearB);
    if unclearA == {} {
      hide Selects, CarriesOver;
      forall there, back | Renumbers(a, b, there, back)
        ensures CarriesOver(there, neededA, neededB)
      {
        NeededCarriesOver(a, b, there, back, src, views, neededA, neededB);
      }
      var there, back :| Renumbers(a, b, there, back);
      SameChosen(a, b, there, back, neededA, neededB);
    }
  }

  lemma SameChosen(a: seq<Edge>, b: seq<Edge>, there: seq<nat>, back: seq<nat>, neededA: set<nat>, neededB: set<nat>)
    requires Renumbers(a, b, there, back) && CarriesOver(there, neededA, neededB)
    ensures Chosen(a, neededA) == Chosen(b, neededB)
  {
    forall e | e in Chosen(a, neededA)
      ensures e in Chosen(b, neededB)
    {
      var i :| i in neededA && i < |a| && a[i] == e;
      assert b[there[i]] == e;
    }
    forall e | e in Chosen(b, neededB)
      ensures e in Chosen(a, neededA)
    {
      var i :| i in neededB && i < |b| && b[i] == e;
      assert there[back[i]] == i && a[back[i]] == e;
    }
  }
}

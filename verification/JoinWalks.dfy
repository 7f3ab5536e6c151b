/** Walks told by the views they pass: every relationship joins its two views both ways. */
module JoinWalks {
  import opened Options
  import opened JoinGraph
  import JoinSearch

  /** The walk passes these views from src to v; each step is along a relationship between two of them. */
  predicate Passes(edges: seq<Edge>, src: View, w: Walk, v: View, views: seq<View>) {
    && |views| == |w| + 1 && views[0] == src && views[|w|] == v
    && forall k :: 0 <= k < |w| ==> w[k] < |edges| && {views[k], views[k + 1]} == {edges[w[k]].joinFrom, edges[w[k]].joinTo}
  }

  /** Crossing a relationship from one of its views leads to the other. */
  lemma AcrossJoins(e: Edge, u: View, v: View)
    ensures Across(e, u) == Some(v) <==> {u, v} == {e.joinFrom, e.joinTo}
  {
    if {u, v} == {e.joinFrom, e.joinTo} {
      assert u in {e.joinFrom, e.joinTo} && v in {e.joinFrom, e.joinTo};
      assert e.joinFrom in {u, v} && e.joinTo in {u, v};
    }
  }

  lemma {:induction false} PassedReaches(edges: seq<Edge>, src: View, w: Walk, v: View, views: seq<View>)
    requires Passes(edges, src, w, v, views)
    ensures Reaches(edges, src, w, v)
    decreases |w|
  {
    if w != [] {
      var n := |w| - 1;
      PassedReaches(edges, src, DropLast(w), views[n], views[..n + 1]);
      AcrossJoins(edges[w[n]], views[n], views[n + 1]);
    }
  }

  lemma {:induction false} ReachedPasses(edges: seq<Edge>, src: View, w: Walk, v: View) returns (views: seq<View>)
    requires Reaches(edges, src, w, v)
    ensures Passes(edges, src, w, v, views)
    decreases |w|
  {
    if w == [] {
      views := [src];
    } else {
      var u := End(edges, src, DropLast(w)).value;
      var before := ReachedPasses(edges, src, DropLast(w), u);
      views := before + [v];
      AcrossJoins(edges[Last(w)], u, v);
      forall k | 0 <= k < |w|
        ensures w[k] < |edges| && {views[k], views[k + 1]} == {edges[w[k]].joinFrom, edges[w[k]].joinTo}
      {
        assert k < |w| - 1 ==> w[k] == DropLast(w)[k];
      }
    }
  }

  /** A walk leads from src to v exactly when it passes views from src to v, joined two by two by its relationships. */
  lemma WalksPassViews(edges: seq<Edge>, src: View, w: Walk, v: View)
    ensures Reaches(edges, src, w, v) <==> exists views :: Passes(edges, src, w, v, views)
  {
    hide Passes, Reaches;
    if Reaches(edges, src, w, v) {
      var views := ReachedPasses(edges, src, w, v);
    }
    if views :| Passes(edges, src, w, v, views) {
      PassedReaches(edges, src, w, v, views);
    }
  }

  // ---------- back and forth ----------

  function Backwards<T>(s: seq<T>): (r: seq<T>)
    ensures |r| == |s| && forall k :: 0 <= k < |s| ==> r[k] == s[|s| - 1 - k]
  {
    seq(|s|, k requires 0 <= k < |s| => s[|s| - 1 - k])
  }

  /** A walk leads back the way it came. */
  lemma BackwardsReaches(edges: seq<Edge>, src: View, w: Walk, v: View)
    requires Reaches(edges, src, w, v)
    ensures Reaches(edges, v, Backwards(w), src)
  {
    var views := ReachedPasses(edges, src, w, v);
    var back := Backwards(views);
    forall k | 0 <= k < |w|
      ensures Backwards(w)[k] < |edges| && {back[k], back[k + 1]} == {edges[Backwards(w)[k]].joinFrom, edges[Backwards(w)[k]].joinTo}
    {
      var j := |w| - 1 - k;
      assert {views[j], views[j + 1]} == {edges[w[j]].joinFrom, edges[w[j]].joinTo};
      assert back[k] == views[j + 1] && back[k + 1] == views[j];
    }
    PassedReaches(edges, v, Backwards(w), src, back);
  }

  /** Two views are connected both ways, by shortest walks that are as long. */
  lemma ConnectedBothWays(edges: seq<Edge>, src: View, v: View)
    ensures Connected(edges, src, v) <==> Connected(edges, v, src)
    ensures forall w, back :: IsShortest(edges, src, w, v) && IsShortest(edges, v, back, src) ==> |w| == |back|
  {
    hide IsShortest, Connected;
    if Connected(edges, src, v) {
      ConnectedBack(edges, src, v);
    }
    if Connected(edges, v, src) {
      ConnectedBack(edges, v, src);
    }
    forall w, back | IsShortest(edges, src, w, v) && IsShortest(edges, v, back, src)
      ensures |w| == |back|
    {
      NoLonger(edges, src, v, w, back);
      NoLonger(edges, v, src, back, w);
    }
  }

  lemma ConnectedBack(edges: seq<Edge>, src: View, v: View)
    requires Connected(edges, src, v)
    ensures Connected(edges, v, src)
  {
    var w :| Reaches(edges, src, w, v);
    hide Reaches;
    BackwardsReaches(edges, src, w, v);
  }

  lemma NoLonger(edges: seq<Edge>, src: View, v: View, w: Walk, back: Walk)
    requires IsShortest(edges, src, w, v) && IsShortest(edges, v, back, src)
    ensures |w| <= |back|
  {
    hide Reaches;
    BackwardsReaches(edges, v, back, src);
    assert |Backwards(back)| == |back|;
  }

  // ---------- the two ends of a relationship ----------

  /** The same relationships, some of them written the other way round. */
  predicate Turned(a: seq<Edge>, b: seq<Edge>) {
    |a| == |b| && forall i :: 0 <= i < |a| ==> b[i] == a[i] || b[i] == Edge(a[i].joinTo, a[i].joinFrom)
  }

  lemma TurnedReaches(a: seq<Edge>, b: seq<Edge>, src: View, w: Walk, v: View)
    requires Turned(a, b) && Reaches(a, src, w, v)
    ensures Reaches(b, src, w, v)
  {
    var views := ReachedPasses(a, src, w, v);
    hide Reaches;
    assert Passes(b, src, w, v, views);
    PassedReaches(b, src, w, v, views);
  }

  lemma TurnedWalks(a: seq<Edge>, b: seq<Edge>, src: View, w: Walk, v: View)
    requires Turned(a, b)
    ensures Reaches(a, src, w, v) <==> Reaches(b, src, w, v)
  {
    assert Turned(b, a);
    hide Turned, Reaches;
    if Reaches(a, src, w, v) {
      TurnedReaches(a, b, src, w, v);
    }
    if Reaches(b, src, w, v) {
      TurnedReaches(b, a, src, w, v);
    }
  }

  /** What a search finds does not depend on which view of a relationship is written first: the same views are recorded,
      at the same distances and with the same counts. */
  lemma SearchIgnoresDirection(a: seq<Edge>, b: seq<Edge>, src: View, pathsA: map<View, Walk>, waysA: map<View, nat>,
                               pathsB: map<View, Walk>, waysB: map<View, nat>)
    requires Turned(a, b)
    requires JoinSearch.Found(a, src, pathsA, waysA) && JoinSearch.Found(b, src, pathsB, waysB)
    ensures pathsA.Keys == pathsB.Keys && waysA == waysB
    ensures forall v :: v in pathsA ==> |pathsA[v]| == |pathsB[v]|
  {
    hide *;
    forall v
      ensures v in pathsA <==> v in pathsB
      ensures v in waysA <==> v in waysB
      ensures v in pathsA ==> |pathsA[v]| == |pathsB[v]| && v in waysA && waysA[v] == waysB[v]
    {
      TurnedView(a, b, src, v);
      FoundAt(a, src, pathsA, waysA, v);
      FoundAt(b, src, pathsB, waysB, v);
    }
    assert pathsA.Keys == pathsB.Keys;
    assert forall v :: v in waysA <==> v in pathsA by {
      forall v
        ensures v in waysA <==> v in pathsA
      {
        FoundAt(a, src, pathsA, waysA, v);
      }
    }
  }

  lemma FoundAt(edges: seq<Edge>, src: View, paths: map<View, Walk>, ways: map<View, nat>, v: View)
    requires JoinSearch.Found(edges, src, paths, ways)
    ensures v in paths <==> v in ways
    ensures v in paths <==> Connected(edges, src, v)
    ensures v in paths ==> IsShortest(edges, src, paths[v], v) && ways[v] == |Walks(edges, src, v, |paths[v]|)|
  {
    hide Connected, IsShortest, Walks;
    assert v in paths.Keys <==> v in ways.Keys;
  }

  lemma TurnedView(a: seq<Edge>, b: seq<Edge>, src: View, v: View)
    requires Turned(a, b)
    ensures Connected(a, src, v) <==> Connected(b, src, v)
    ensures forall w, x :: IsShortest(a, src, w, v) && IsShortest(b, src, x, v) ==> |w| == |x|
    ensures forall n :: Walks(a, src, v, n) == Walks(b, src, v, n)
  {
    hide Turned, Reaches;
    forall w
      ensures Reaches(a, src, w, v) <==> Reaches(b, src, w, v)
    {
      TurnedWalks(a, b, src, w, v);
    }
    hide Walks;
    forall n
      ensures Walks(a, src, v, n) == Walks(b, src, v, n)
    {
      assert forall w :: w in Walks(a, src, v, n) <==> w in Walks(b, src, v, n);
    }
  }
}

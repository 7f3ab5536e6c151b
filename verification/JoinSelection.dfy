/** Which relationships a dashboard's referenced views need, and when that choice is unique. */
module JoinSelection {
  import opened Options
  import opened JoinGraph
  import JoinSearch

  /** The recorded count exceeds one just when two shortest walks differ. */
  lemma ManyWaysIsAmbiguous(edges: seq<Edge>, src: View, v: View, path: Walk)
    requires IsShortest(edges, src, path, v)
    ensures |Walks(edges, src, v, |path|)| > 1 <==> Ambiguous(edges, src, v)
  {
    var walks := Walks(edges, src, v, |path|);
    MoreThanOne(walks);
    assert forall w :: w in walks <==> IsShortest(edges, src, w, v);
  }

  /** Some shortest walk from src to one of `views` uses edge i. */
  ghost predicate OnShortestWalk(edges: seq<Edge>, src: View, views: seq<View>, i: nat) {
    exists v, w :: v in views && IsShortest(edges, src, w, v) && i in w
  }

  /** Edges of `needed` alone make a shortest walk from src to v. */
  ghost predicate Linked(edges: seq<Edge>, src: View, v: View, needed: set<nat>) {
    exists w :: IsShortest(edges, src, w, v) && forall i :: i in w ==> i in needed
  }

  /** What a selection of join edges from src to `views` satisfies: `unclear` are the views that have
      several shortest walks, every needed edge is on a shortest walk, and the needed edges link every
      connected view. */
  ghost predicate Selects(edges: seq<Edge>, src: View, views: seq<View>, needed: set<nat>, unclear: set<View>) {
    && (forall v :: v in unclear <==> v in views && Ambiguous(edges, src, v))
    && (forall i :: i in needed ==> OnShortestWalk(edges, src, views, i))
    && (forall v :: v in views && Connected(edges, src, v) ==> Linked(edges, src, v, needed))
  }

  /** One more referenced view: its shortest walk, if any, joins the needed edges. */
  lemma SelectOneMore(edges: seq<Edge>, src: View, views: seq<View>, needed: set<nat>, unclear: set<View>, view: View,
                      added: set<nat>, flagged: set<View>)
    requires Selects(edges, src, views, needed, unclear)
    requires flagged == if Ambiguous(edges, src, view) then {view} else {}
    requires forall i :: i in added ==> OnShortestWalk(edges, src, [view], i)
    requires Connected(edges, src, view) ==> Linked(edges, src, view, added)
    ensures Selects(edges, src, views + [view], needed + added, unclear + flagged)
  {}

  lemma WalkLinks(edges: seq<Edge>, src: View, view: View, path: Walk)
    requires IsShortest(edges, src, path, view)
    ensures Linked(edges, src, view, set i | i in path)
    ensures forall i :: i in path ==> OnShortestWalk(edges, src, [view], i)
  {}

  /** One search, read at the view it was made for: a shortest walk if there is one, and whether there are more. */
  method FindJoinPath(edges: seq<Edge>, src: View, terminal: View) returns (path: Option<Walk>, several: bool)
    ensures path.Some? <==> Connected(edges, src, terminal)
    ensures path.Some? ==> IsShortest(edges, src, path.value, terminal)
    ensures several <==> Ambiguous(edges, src, terminal)
  {
    var paths, ways := JoinSearch.Search(edges, src);
    path := if terminal in paths then Some(paths[terminal]) else None;
    several := terminal in ways && ways[terminal] > 1;
    if terminal in paths {
      ManyWaysIsAmbiguous(edges, src, terminal, paths[terminal]);
    }
  }

  /** The join part of the readiness inspection. `unclear` are the views for which a multiple-path
      finding is raised; the needed edges connect every reachable referenced view to the first one. */
  method SelectJoins(edges: seq<Edge>, terminals: seq<View>) returns (needed: set<nat>, unclear: set<View>)
    requires terminals != []
    ensures Selects(edges, terminals[0], terminals[1..], needed, unclear)
  {
    var src, views := terminals[0], terminals[1..];
    needed, unclear := {}, {};
    for k := 0 to |views|
      invariant Selects(edges, src, views[..k], needed, unclear)
    {
      hide Selects, Connected, IsShortest, Ambiguous, Linked, OnShortestWalk;
      var terminal := views[k];
      var path, several := FindJoinPath(edges, src, terminal);
      var added := if path.Some? then set i | i in path.value else {};
      if path.Some? {
        WalkLinks(edges, src, terminal, path.value);
      }
      SelectOneMore(edges, src, views[..k], needed, unclear, terminal, added, if several then {terminal} else {});
      assert views[..k + 1] == views[..k] + [terminal];
      needed := needed + added;
      unclear := unclear + if several then {terminal} else {};
    }
    assert views[..|views|] == views;
  }
}

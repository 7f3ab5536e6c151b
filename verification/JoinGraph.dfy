/** Walks over the undirected multigraph of authored relationships.
    A walk is the list of edge indices it follows; its vertices are determined by where it starts. */
module JoinGraph {
  import opened Options

  type View = string

  /** One authored relationship, reduced to the two views it joins. */
  datatype Edge = Edge(joinFrom: View, joinTo: View)

  type Walk = seq<nat>

  /** The view on the other side of `e`, if `e` touches `v`. A self-loop leads back to `v`. */
  function Across(e: Edge, v: View): Option<View> {
    if e.joinFrom == v then Some(e.joinTo)
    else if e.joinTo == v then Some(e.joinFrom)
    else None
  }

  function DropLast(w: Walk): Walk
    requires w != []
  {
    w[..|w| - 1]
  }

  function Last(w: Walk): nat
    requires w != []
  {
    w[|w| - 1]
  }

  /** Where a walk from `src` ends, or None when it is not a walk. */
  function End(edges: seq<Edge>, src: View, w: Walk): Option<View>
    decreases |w|
  {
    if w == [] then Some(src)
    else
      match End(edges, src, DropLast(w))
      case None => None
      case Some(u) => if Last(w) < |edges| then Across(edges[Last(w)], u) else None
  }

  ghost predicate Reaches(edges: seq<Edge>, src: View, w: Walk, v: View) {
    End(edges, src, w) == Some(v)
  }

  ghost predicate Connected(edges: seq<Edge>, src: View, v: View) {
    exists w :: Reaches(edges, src, w, v)
  }

  ghost predicate IsShortest(edges: seq<Edge>, src: View, w: Walk, v: View) {
    && Reaches(edges, src, w, v)
    && forall other :: Reaches(edges, src, other, v) ==> |w| <= |other|
  }

  /** More than one shortest walk leads to `v`. */
  ghost predicate Ambiguous(edges: seq<Edge>, src: View, v: View) {
    exists a, b :: a != b && IsShortest(edges, src, a, v) && IsShortest(edges, src, b, v)
  }

  /** All index lists of length n. */
  ghost function IndexLists(n: nat, bound: nat): (r: set<Walk>)
    ensures forall w: Walk :: w in r <==> |w| == n && forall k :: 0 <= k < n ==> w[k] < bound
  {
    if n == 0 then {[]}
    else
      var r := set w, i | w in IndexLists(n - 1, bound) && 0 <= i < bound :: Append(w, i);
      assert forall w: Walk | |w| == n && (forall k :: 0 <= k < n ==> w[k] < bound) :: w in r by {
        forall w: Walk | |w| == n && (forall k :: 0 <= k < n ==> w[k] < bound)
          ensures w in r
        {
          AppendInjective(w, Append(DropLast(w), Last(w)));
          assert DropLast(w) in IndexLists(n - 1, bound);
        }
      }
      r
  }

  lemma {:induction false} WalkIndicesInRange(edges: seq<Edge>, src: View, w: Walk)
    requires End(edges, src, w).Some?
    ensures forall k :: 0 <= k < |w| ==> w[k] < |edges|
    decreases |w|
  {
    if w != [] {
      WalkIndicesInRange(edges, src, DropLast(w));
      assert forall k :: 0 <= k < |w| - 1 ==> w[k] == DropLast(w)[k];
    }
  }

  /** The walks of length n from `src` to `v`, as a finite set that can be counted. */
  ghost function Walks(edges: seq<Edge>, src: View, v: View, n: nat): (r: set<Walk>)
    ensures forall w: Walk :: w in r <==> |w| == n && Reaches(edges, src, w, v)
  {
    var r := set w | w in IndexLists(n, |edges|) && Reaches(edges, src, w, v);
    assert forall w: Walk | |w| == n && Reaches(edges, src, w, v) :: w in r by {
      forall w: Walk | |w| == n && Reaches(edges, src, w, v)
        ensures w in r
      {
        WalkIndicesInRange(edges, src, w);
      }
    }
    r
  }

  function Append(w: Walk, i: nat): (r: Walk)
    ensures r != [] && DropLast(r) == w && Last(r) == i
  {
    w + [i]
  }

  lemma AppendInjective(a: Walk, b: Walk)
    requires a != [] && b != [] && DropLast(a) == DropLast(b) && Last(a) == Last(b)
    ensures a == b
  {}

  /** If the members of `after` that are not in `before` are those of `heads` with edge i appended,
      then they are as many as `heads`. */
  lemma {:induction false} AppendCount(before: set<Walk>, after: set<Walk>, heads: set<Walk>, i: nat)
    requires before <= after
    requires forall w :: w in after && w !in before ==> w != [] && Last(w) == i && DropLast(w) in heads
    requires forall p {:trigger Append(p, i)} :: p in heads ==> Append(p, i) in after && Append(p, i) !in before
    ensures |after| == |before| + |heads|
    decreases heads
  {
    if heads == {} {
      assert after == before;
    } else {
      var p :| p in heads;
      var w := Append(p, i);
      forall w' | w' in after - {w} && w' !in before
        ensures DropLast(w') in heads - {p}
      {
        if DropLast(w') == p {
          AppendInjective(w, w');
        }
      }
      AppendCount(before, after - {w}, heads - {p}, i);
    }
  }

  /** |walks| > 1 just when two different members can be named. */
  lemma MoreThanOne<T>(s: set<T>)
    ensures |s| > 1 <==> exists a, b :: a in s && b in s && a != b
  {
    if |s| > 1 {
      var a :| a in s;
      assert |s - {a}| >= 1;
      var b :| b in s - {a};
    }
    if a, b :| a in s && b in s && a != b {
      assert {a, b} <= s;
      assert |s - {a, b}| == |s| - |{a, b}|;
    }
  }
}

/** The breadth-first join search: it records one shortest walk to every connected view and
    counts how many shortest walks there are. */
module JoinSearch {
  import opened Options
  import opened JoinGraph

  /** The search reads a count back with a fallback of one, which a count of at least one never needs. */
  function OrOne(n: nat): nat {
    if n == 0 then 1 else n
  }

  /** A snapshot of the search. `done` holds the views taken off the queue and finished. */
  datatype Progress = Progress(edges: seq<Edge>, src: View, paths: map<View, Walk>, ways: map<View, nat>,
                               queue: seq<View>, done: set<View>)
  {
    /** The view across edge i from u has been seen, at most one step further away than u. */
    ghost predicate Relaxed(u: View, i: nat)
      requires i < |edges| && Across(edges[i], u).Some? && u in paths
    {
      var to := Across(edges[i], u).value;
      to in paths && |paths[to]| <= |paths[u]| + 1
    }

    ghost predicate Walked() {
      && src in paths && paths[src] == []
      && (forall v :: v in paths ==> Reaches(edges, src, paths[v], v))
    }

    /** Every recorded view is either finished or queued, once, and the queue is in order of distance. */
    ghost predicate Ordered() {
      && (forall v :: v in paths <==> v in done || v in queue)
      && (forall a, b :: 0 <= a < b < |queue| ==> queue[a] != queue[b])
      && (forall a :: 0 <= a < |queue| ==> queue[a] !in done)
      && (forall a, b :: 0 <= a <= b < |queue| ==> |paths[queue[a]]| <= |paths[queue[b]]| <= |paths[queue[0]]| + 1)
      && (forall u :: u in done && queue != [] ==> |paths[u]| <= |paths[queue[0]]|)
    }

    /** Everything next to a finished view has been seen. */
    ghost predicate Closed()
      requires done <= paths.Keys
    {
      forall u, i: nat :: u in done && i < |edges| && Across(edges[i], u).Some? ==> Relaxed(u, i)
    }

    ghost predicate Frontier() {
      Walked() && Ordered() && Closed()
    }

    /** What the frontier says about the head of the queue. */
    ghost predicate HeadIsNext() {
      && queue != [] && queue[0] in paths && queue[0] !in done
      && (forall v :: v in paths ==> |paths[v]| <= |paths[queue[0]]| + 1)
      && (forall w :: Reaches(edges, src, w, queue[0]) ==> |paths[queue[0]]| <= |w|)
      && (forall w :: Reaches(edges, src, w, queue[0]) && |w| == |paths[queue[0]]| ==> Taken(0, w))
    }

    /** The last step of w has been taken: it leaves a finished view, or leaves the head of the
        queue by an edge below `upto`. */
    ghost predicate Taken(upto: nat, w: Walk) {
      w != [] ==>
        var before := End(edges, src, DropLast(w));
        && before.Some?
        && (before.value in done || (queue != [] && before.value == queue[0] && Last(w) < upto))
    }

    /** The walks of the recorded length to v whose last step has been taken. */
    ghost function Countable(upto: nat, v: View): (r: set<Walk>)
      requires v in paths
      ensures forall w :: w in r <==> |w| == |paths[v]| && Reaches(edges, src, w, v) && Taken(upto, w)
    {
      set w | w in Walks(edges, src, v, |paths[v]|) && Taken(upto, w)
    }

    /** ways[v] is how many walks to v are countable. */
    ghost predicate Counted(upto: nat) {
      ways.Keys == paths.Keys && forall v :: v in paths ==> CountedAt(upto, v)
    }

    ghost predicate CountedAt(upto: nat, v: View)
      requires v in paths && v in ways
    {
      ways[v] == |Countable(upto, v)| && Taken(upto, paths[v])
    }

    /** The edge `index` leads from the head of the queue to a view seen now for the first time,
        or one step further away than the head. */
    ghost predicate StepsTo(index: nat, to: View) {
      && queue != [] && queue[0] in paths
      && index < |edges| && Across(edges[index], queue[0]) == Some(to)
      && (to in paths ==> |paths[to]| == |paths[queue[0]]| + 1)
    }

    ghost predicate HeadRelaxed(upto: nat) {
      && queue != [] && queue[0] in paths
      && forall i: nat :: i < upto && i < |edges| && Across(edges[i], queue[0]).Some? ==> Relaxed(queue[0], i)
    }

    ghost predicate Processing(index: nat) {
      queue != [] && queue[0] in paths && paths.Keys == ways.Keys && index < |edges|
    }

    /** What one edge does to the search while the head of the queue is being processed. */
    ghost function Cross(index: nat): (t: Progress)
      requires Processing(index)
      ensures t.edges == edges && t.src == src && t.done == done && t.Processing(index) && t.queue[0] == queue[0]
      ensures forall v :: v in paths ==> v in t.paths && t.paths[v] == paths[v]
      ensures forall v :: v in t.paths && v !in paths ==> Across(edges[index], queue[0]) == Some(v)
    {
      match Across(edges[index], queue[0])
      case None => this
      case Some(to) =>
        var next := Append(paths[queue[0]], index);
        if to !in paths then
          this.(paths := paths[to := next], ways := ways[to := OrOne(ways[queue[0]])], queue := queue + [to])
        else if |paths[to]| == |next| then
          this.(ways := ways[to := OrOne(ways[to]) + OrOne(ways[queue[0]])])
        else this
    }

    ghost function Dequeue(): Progress
      requires queue != []
    {
      this.(queue := queue[1..], done := done + {queue[0]})
    }
  }

  // ---------- recorded walks are shortest ----------

  lemma {:induction false} ReachedOrBeyond(s: Progress, w: Walk, x: View)
    requires s.Frontier()
    requires Reaches(s.edges, s.src, w, x)
    ensures (x in s.paths && |s.paths[x]| <= |w|) || (s.queue != [] && |w| > |s.paths[s.queue[0]]|)
    decreases |w|
  {
    if w != [] {
      var u := End(s.edges, s.src, DropLast(w)).value;
      ReachedOrBeyond(s, DropLast(w), u);
      if u in s.paths && |s.paths[u]| <= |w| - 1 {
        if u in s.done {
          assert s.Relaxed(u, Last(w));
        } else {
          assert u in s.queue;
        }
      }
    }
  }

  lemma RecordedIsShortest(s: Progress, v: View)
    requires s.Frontier()
    requires v in s.paths
    ensures IsShortest(s.edges, s.src, s.paths[v], v)
  {
    forall other | Reaches(s.edges, s.src, other, v)
      ensures |s.paths[v]| <= |other|
    {
      ReachedOrBeyond(s, other, v);
    }
  }

  lemma HeadOfFrontier(s: Progress)
    requires s.Frontier() && s.queue != []
    ensures s.HeadIsNext()
  {
    RecordedIsShortest(s, s.queue[0]);
    forall w: Walk | Reaches(s.edges, s.src, w, s.queue[0]) && |w| == |s.paths[s.queue[0]]|
      ensures s.Taken(0, w)
    {
      if w != [] {
        ReachedOrBeyond(s, DropLast(w), End(s.edges, s.src, DropLast(w)).value);
      }
    }
  }

  // ---------- one edge at a time ----------

  /** A walk that becomes countable with edge `index` crosses it from the head of the queue. */
  lemma NewlyCountable(s: Progress, index: nat, v: View, w: Walk)
    requires s.HeadIsNext() && index < |s.edges| && v in s.paths
    requires w in s.Countable(index + 1, v) && w !in s.Countable(index, v)
    ensures s.StepsTo(index, v)
    ensures w != [] && Last(w) == index && DropLast(w) in s.Countable(index, s.queue[0])
  {}

  /** Every shortest walk to the head can be extended across an edge that leads one step further. */
  lemma ExtendsHeadWalk(s: Progress, index: nat, v: View, p: Walk)
    requires s.HeadIsNext() && v in s.paths && s.StepsTo(index, v)
    requires p in s.Countable(index, s.queue[0])
    ensures Append(p, index) in s.Countable(index + 1, v) && Append(p, index) !in s.Countable(index, v)
  {
    assert End(s.edges, s.src, Append(p, index)) == Some(v);
  }

  /** What edge `index` adds to the walks to v: nothing, unless it leads from the head of the
      queue to v and v is one step further away; then one walk per shortest walk to the head. */
  lemma EdgeCount(s: Progress, index: nat, v: View)
    requires s.HeadIsNext() && index < |s.edges| && v in s.paths
    ensures |s.Countable(index + 1, v)| ==
            |s.Countable(index, v)| + if s.StepsTo(index, v) then |s.Countable(index, s.queue[0])| else 0
  {
    var before, after, heads := s.Countable(index, v), s.Countable(index + 1, v), s.Countable(index, s.queue[0]);
    assert before <= after;
    hide Reaches, Walks, Progress.Taken, Progress.StepsTo, Progress.HeadIsNext;
    forall w | w in after && w !in before
      ensures s.StepsTo(index, v) && w != [] && Last(w) == index && DropLast(w) in heads
    {
      NewlyCountable(s, index, v, w);
    }
    if s.StepsTo(index, v) {
      forall p | p in heads
        ensures Append(p, index) in after && Append(p, index) !in before
      {
        ExtendsHeadWalk(s, index, v, p);
      }
      AppendCount(before, after, heads, index);
    } else {
      assert after == before;
    }
  }

  /** Countable walks depend on the graph, the finished views, the head and the recorded length only. */
  lemma SameCountable(s: Progress, t: Progress, upto: nat, v: View)
    requires s.queue != [] && t.queue != [] && s.queue[0] == t.queue[0]
    requires s.edges == t.edges && s.src == t.src && s.done == t.done
    requires v in s.paths && v in t.paths && s.paths[v] == t.paths[v]
    ensures s.Countable(upto, v) == t.Countable(upto, v)
  {}

  lemma AtLeastOneWay(s: Progress, upto: nat, v: View)
    requires s.Frontier() && s.Counted(upto) && v in s.paths
    ensures s.ways[v] >= 1
  {
    assert s.paths[v] in s.Countable(upto, v);
  }

  lemma EnqueueKeepsOrder(s: Progress, t: Progress, to: View)
    requires s.Ordered() && s.queue != [] && to !in s.paths
    requires t.queue == s.queue + [to] && t.done == s.done
    requires t.paths.Keys == s.paths.Keys + {to} && (forall v :: v in s.paths ==> t.paths[v] == s.paths[v])
    requires |t.paths[to]| == |s.paths[s.queue[0]]| + 1
    ensures t.Ordered()
  {}

  lemma CrossKeepsWalked(s: Progress, index: nat)
    requires s.Processing(index) && s.Walked()
    ensures s.Cross(index).Walked()
  {}

  lemma CrossKeepsOrder(s: Progress, index: nat)
    requires s.Processing(index) && s.Ordered()
    ensures s.Cross(index).Ordered()
  {
    if Across(s.edges[index], s.queue[0]).Some? && Across(s.edges[index], s.queue[0]).value !in s.paths {
      EnqueueKeepsOrder(s, s.Cross(index), Across(s.edges[index], s.queue[0]).value);
    }
  }

  lemma CrossKeepsClosed(s: Progress, index: nat)
    requires s.Processing(index) && s.done <= s.paths.Keys && s.Closed()
    ensures s.Cross(index).Closed()
  {}

  lemma CrossRelaxes(s: Progress, index: nat)
    requires s.Processing(index) && s.HeadRelaxed(index)
    requires forall v :: v in s.paths ==> |s.paths[v]| <= |s.paths[s.queue[0]]| + 1
    ensures s.Cross(index).HeadRelaxed(index + 1)
  {}

  lemma CrossKeepsFrontier(s: Progress, index: nat)
    requires s.Processing(index) && s.Frontier() && s.HeadRelaxed(index)
    ensures s.Cross(index).Frontier() && s.Cross(index).HeadRelaxed(index + 1)
  {
    HeadOfFrontier(s);
    hide Progress.Walked, Progress.Closed, Progress.HeadRelaxed;
    CrossKeepsWalked(s, index);
    CrossKeepsOrder(s, index);
    CrossKeepsClosed(s, index);
    CrossRelaxes(s, index);
  }

  /** A walk whose last step has been taken ends at a view that has been seen. */
  lemma TakenIsSeen(s: Progress, index: nat, to: View, w: Walk)
    requires s.Frontier() && s.queue != [] && s.HeadRelaxed(index) && index <= |s.edges|
    requires Reaches(s.edges, s.src, w, to) && s.Taken(index, w)
    ensures to in s.paths
  {}

  lemma WaysOfKnown(s: Progress, index: nat, v: View)
    requires s.Processing(index) && v in s.paths
    requires s.ways[v] >= 1 && s.ways[s.queue[0]] >= 1
    ensures s.Cross(index).ways[v] == s.ways[v] + if s.StepsTo(index, v) then s.ways[s.queue[0]] else 0
  {}

  /** The count of a view that had been seen. */
  lemma CountOfKnown(s: Progress, index: nat, v: View)
    requires s.Processing(index) && s.HeadIsNext() && v in s.paths
    requires s.CountedAt(index, v) && s.CountedAt(index, s.queue[0])
    requires s.ways[v] >= 1 && s.ways[s.queue[0]] >= 1
    ensures s.Cross(index).CountedAt(index + 1, v)
  {
    hide Progress.Countable, Progress.Cross, Progress.HeadIsNext, Progress.StepsTo, Reaches, Walks;
    var t := s.Cross(index);
    EdgeCount(s, index, v);
    SameCountable(s, t, index + 1, v);
    WaysOfKnown(s, index, v);
  }

  /** The count of the view that this edge discovers. */
  lemma CountOfDiscovered(s: Progress, index: nat, to: View)
    requires s.Processing(index) && s.Frontier() && s.Counted(index) && s.HeadRelaxed(index)
    requires Across(s.edges[index], s.queue[0]) == Some(to) && to !in s.paths
    ensures s.Cross(index).CountedAt(index + 1, to)
  {
    var t := s.Cross(index);
    assert t.HeadIsNext() by {
      CrossKeepsFrontier(s, index);
      HeadOfFrontier(t);
    }
    EdgeCount(t, index, to);
    SameCountable(s, t, index, s.queue[0]);
    AtLeastOneWay(s, index, s.queue[0]);
    assert t.Countable(index, to) == {} by {
      forall w | w in t.Countable(index, to)
        ensures false
      {
        TakenIsSeen(s, index, to, w);
      }
    }
    hide Progress.Frontier, Progress.HeadIsNext, Progress.Countable;
    assert Reaches(s.edges, s.src, s.paths[s.queue[0]], s.queue[0]);
  }

  lemma CrossKeepsCount(s: Progress, index: nat)
    requires s.Processing(index) && s.Frontier() && s.Counted(index) && s.HeadRelaxed(index)
    ensures s.Cross(index).Counted(index + 1)
  {
    hide Progress.Frontier, Progress.Cross, Progress.HeadRelaxed, Progress.CountedAt;
    var t := s.Cross(index);
    forall v | v in t.paths
      ensures t.CountedAt(index + 1, v)
    {
      if v in s.paths {
        HeadOfFrontier(s);
        AtLeastOneWay(s, index, v);
        AtLeastOneWay(s, index, s.queue[0]);
        assert s.CountedAt(index, v) && s.CountedAt(index, s.queue[0]);
        CountOfKnown(s, index, v);
      } else {
        CountOfDiscovered(s, index, v);
      }
    }
  }

  // ---------- one view at a time ----------

  /** A finished view is as good as a head all of whose edges have been crossed. */
  lemma DequeueKeepsTaken(s: Progress, w: Walk)
    requires s.queue != []
    ensures s.Taken(|s.edges|, w) && End(s.edges, s.src, w).Some? ==> s.Dequeue().Taken(0, w)
    ensures s.Dequeue().Taken(0, w) && End(s.edges, s.src, w).Some? ==> s.Taken(|s.edges|, w)
  {}

  lemma DequeueKeepsCountAt(s: Progress, v: View)
    requires s.queue != [] && v in s.paths && v in s.ways
    requires Reaches(s.edges, s.src, s.paths[v], v)
    requires s.CountedAt(|s.edges|, v)
    ensures s.Dequeue().CountedAt(0, v)
  {
    hide Progress.Countable, Progress.Taken, Walks;
    var t := s.Dequeue();
    DequeueKeepsTaken(s, s.paths[v]);
    forall w: Walk
      ensures w in s.Countable(|s.edges|, v) <==> w in t.Countable(0, v)
    {
      DequeueKeepsTaken(s, w);
    }
    assert s.Countable(|s.edges|, v) == t.Countable(0, v);
  }

  lemma DequeueKeepsCount(s: Progress)
    requires s.queue != [] && s.Frontier() && s.Counted(|s.edges|)
    ensures s.Dequeue().Counted(0)
  {
    hide Reaches, Progress.CountedAt;
    forall v | v in s.paths
      ensures s.Dequeue().CountedAt(0, v)
    {
      DequeueKeepsCountAt(s, v);
    }
  }

  lemma DequeueKeepsFrontier(s: Progress)
    requires s.queue != [] && s.Frontier() && s.HeadRelaxed(|s.edges|)
    ensures s.Dequeue().Frontier()
    ensures s.Dequeue().queue != [] ==> s.Dequeue().HeadRelaxed(0)
  {
    var t := s.Dequeue();
    assert t.Ordered() by {
      DequeueKeepsOrder(s);
    }
    forall u, i: nat | u in t.done && i < |t.edges| && Across(t.edges[i], u).Some?
      ensures t.Relaxed(u, i)
    {
      assert s.Relaxed(u, i);
    }
  }

  lemma DequeueKeepsOrder(s: Progress)
    requires s.queue != [] && s.Ordered()
    ensures s.Dequeue().Ordered()
  {
    var t := s.Dequeue();
    forall a | 0 <= a < |t.queue|
      ensures t.queue[a] == s.queue[a + 1] && t.queue[a] !in t.done && t.queue[a] in t.paths
    {
      assert s.queue[0] != s.queue[a + 1];
    }
    forall a, b | 0 <= a < b < |t.queue|
      ensures t.queue[a] != t.queue[b]
    {
      assert s.queue[a + 1] != s.queue[b + 1];
    }
    forall a, b | 0 <= a <= b < |t.queue|
      ensures |t.paths[t.queue[a]]| <= |t.paths[t.queue[b]]| <= |t.paths[t.queue[0]]| + 1
    {
      assert |s.paths[s.queue[a + 1]]| <= |s.paths[s.queue[b + 1]]| <= |s.paths[s.queue[0]]| + 1;
      assert |s.paths[s.queue[0]]| <= |s.paths[s.queue[1]]|;
    }
    forall u | u in t.done && t.queue != []
      ensures |t.paths[u]| <= |t.paths[t.queue[0]]|
    {
      assert |s.paths[s.queue[0]]| <= |s.paths[s.queue[1]]|;
    }
  }

  /** When the queue is empty, every walk of the recorded length has been counted. */
  lemma AllCounted(s: Progress, v: View)
    requires s.Frontier() && s.queue == [] && s.Counted(0) && v in s.paths
    ensures s.ways[v] == |Walks(s.edges, s.src, v, |s.paths[v]|)|
  {
    hide Progress.Frontier, Progress.Taken, Reaches, Walks, Progress.Countable;
    assert s.CountedAt(0, v);
    hide Progress.Counted;
    forall w
      ensures w in s.Countable(0, v) <==> w in Walks(s.edges, s.src, v, |s.paths[v]|)
    {
      if w in Walks(s.edges, s.src, v, |s.paths[v]|) {
        AllTaken(s, v, w);
      }
    }
    assert s.Countable(0, v) == Walks(s.edges, s.src, v, |s.paths[v]|);
  }

  lemma AllTaken(s: Progress, v: View, w: Walk)
    requires s.Frontier() && s.queue == []
    requires Reaches(s.edges, s.src, w, v)
    ensures s.Taken(0, w)
  {
    if w != [] {
      ReachedOrBeyond(s, DropLast(w), End(s.edges, s.src, DropLast(w)).value);
    }
  }

  lemma StartIsCounted(edges: seq<Edge>, src: View)
    ensures var s := Progress(edges, src, map[src := []], map[src := 1], [src], {});
            s.Frontier() && s.Counted(0) && s.HeadRelaxed(0)
  {
    var s := Progress(edges, src, map[src := []], map[src := 1], [src], {});
    assert s.Countable(0, src) == {[]};
    assert s.CountedAt(0, src);
  }

  /** All views an edge list mentions, and the view the search starts from. */
  ghost function Mentioned(edges: seq<Edge>, src: View): (r: set<View>)
    ensures src in r
    ensures forall i, v :: 0 <= i < |edges| && Across(edges[i], v).Some? ==> Across(edges[i], v).value in r
  {
    {src} + (set i | 0 <= i < |edges| :: edges[i].joinFrom) + (set i | 0 <= i < |edges| :: edges[i].joinTo)
  }

  /** What the search establishes for one view. */
  lemma SearchEnds(s: Progress, v: View)
    requires s.Frontier() && s.queue == [] && s.Counted(0)
    ensures v in s.paths <==> Connected(s.edges, s.src, v)
    ensures v in s.paths ==> IsShortest(s.edges, s.src, s.paths[v], v)
    ensures v in s.paths ==> s.ways[v] == |Walks(s.edges, s.src, v, |s.paths[v]|)|
  {
    if v in s.paths {
      RecordedIsShortest(s, v);
      AllCounted(s, v);
    } else {
      forall w
        ensures !Reaches(s.edges, s.src, w, v)
      {
        if Reaches(s.edges, s.src, w, v) {
          ReachedOrBeyond(s, w, v);
        }
      }
    }
  }

  lemma QueuedOnce(s: Progress)
    requires s.Frontier() && s.queue != []
    ensures s.queue[0] in s.paths && s.queue[0] !in s.done
  {}

  /** Crosses every edge that touches `from`, which has just been taken off the queue. */
  method CrossAll(edges: seq<Edge>, src: View, from: View, paths0: map<View, Walk>, ways0: map<View, nat>,
                  queue0: seq<View>, ghost done: set<View>)
    returns (paths: map<View, Walk>, ways: map<View, nat>, queue: seq<View>)
    requires from in paths0 && paths0.Keys == ways0.Keys && paths0.Keys <= Mentioned(edges, src)
    requires var s := Progress(edges, src, paths0, ways0, [from] + queue0, done);
             s.Frontier() && s.Counted(0) && s.HeadRelaxed(0)
    ensures paths.Keys == ways.Keys && paths.Keys <= Mentioned(edges, src)
    ensures var s := Progress(edges, src, paths, ways, [from] + queue, done);
            s.Frontier() && s.Counted(|edges|) && s.HeadRelaxed(|edges|)
  {
    hide Progress.Frontier, Progress.Counted, Progress.HeadRelaxed, Mentioned;
    paths, ways, queue := paths0, ways0, queue0;
    ghost var s := Progress(edges, src, paths, ways, [from] + queue, done);
    for index := 0 to |edges|
      invariant s == Progress(edges, src, paths, ways, [from] + queue, done)
      invariant from in paths && paths.Keys == ways.Keys && paths.Keys <= Mentioned(edges, src)
      invariant s.Frontier() && s.Counted(index) && s.HeadRelaxed(index)
    {
      CrossKeepsFrontier(s, index);
      CrossKeepsCount(s, index);
      s := s.Cross(index);
      match Across(edges[index], from)
      case None =>
      case Some(to) =>
        var next := Append(paths[from], index);
        if to !in paths {
          paths, ways, queue := paths[to := next], ways[to := OrOne(ways[from])], queue + [to];
          assert s.queue == [from] + queue;
        } else if |paths[to]| == |next| {
          ways := ways[to := OrOne(ways[to]) + OrOne(ways[from])];
        }
    }
  }

  /** A view has a recorded walk just when some walk leads to it; the recorded walk is a shortest one; and `ways` is the
      number of shortest walks, parallel edges counted apart. */
  ghost predicate Found(edges: seq<Edge>, src: View, paths: map<View, Walk>, ways: map<View, nat>) {
    && paths.Keys == ways.Keys
    && (forall v :: v in paths <==> Connected(edges, src, v))
    && (forall v :: v in paths ==> IsShortest(edges, src, paths[v], v))
    && (forall v :: v in paths ==> ways[v] == |Walks(edges, src, v, |paths[v]|)|)
  }

  method Search(edges: seq<Edge>, src: View) returns (paths: map<View, Walk>, ways: map<View, nat>)
    ensures Found(edges, src, paths, ways)
  {
    hide Progress.Frontier, Progress.Counted, Progress.HeadRelaxed, IsShortest, Connected, Walks;
    paths, ways := map[src := []], map[src := 1];
    var queue := [src];
    ghost var s := Progress(edges, src, paths, ways, queue, {});
    StartIsCounted(edges, src);
    while queue != []
      invariant s == Progress(edges, src, paths, ways, queue, s.done)
      invariant s.Frontier() && s.Counted(0) && (queue != [] ==> s.HeadRelaxed(0))
      invariant paths.Keys == ways.Keys && paths.Keys <= Mentioned(edges, src)
      decreases Mentioned(edges, src) - s.done
    {
      QueuedOnce(s);
      var from := queue[0];
      assert queue == [from] + queue[1..];
      paths, ways, queue := CrossAll(edges, src, from, paths, ways, queue[1..], s.done);
      s := Progress(edges, src, paths, ways, [from] + queue, s.done);
      DequeueKeepsCount(s);
      DequeueKeepsFrontier(s);
      s := s.Dequeue();
    }
    forall v
      ensures v in paths <==> Connected(edges, src, v)
      ensures v in paths ==> IsShortest(edges, src, paths[v], v) && ways[v] == |Walks(edges, src, v, |paths[v]|)|
    {
      SearchEnds(s, v);
    }
  }
}

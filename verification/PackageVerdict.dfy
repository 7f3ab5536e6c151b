/** When a class of files comes out of a package without a conflict, and what it then holds: in terms of the class in the
    destination and of what the tiles need of it, with no regard to their order. */
module PackageVerdict {
  import opened Options
  import opened PackageTile
  import opened PackageClasses

  /** All candidates that some tile needs. */
  function Given(lists: seq<set<Candidate>>): set<Candidate> {
    set l, c | l in lists && c in l :: c
  }

  predicate SameFile(n: Naming, c: Candidate, d: Candidate) {
    n.identity(c.source) == n.identity(d.source) && Agree(c.content, d.content)
  }

  /** All versions of a file agree with each other and with the one there is. */
  predicate Consistent(n: Naming, m: Files, given: set<Candidate>) {
    && (forall c, d :: c in given && d in given ==> SameFile(n, c, d))
    && Takes(n, m, given)
  }

  predicate AllSingle(lists: seq<set<Candidate>>) {
    forall l :: l in lists ==> Single(l)
  }

  /** Each tile needs at most one file of the class, and all are versions of one. */
  predicate Merged(n: Naming, m: Files, lists: seq<set<Candidate>>) {
    Alone(m) && AllSingle(lists) && Consistent(n, m, Given(lists))
  }

  /** One tile alone needs several files of the class, under names that differ, and the destination has none. */
  predicate Spread(n: Naming, m: Files, lists: seq<set<Candidate>>, l: set<Candidate>) {
    && m == map[] && !Single(l) && FoldsDiffer(n, l)
    && multiset(lists)[l] == 1 && forall x :: x in lists ==> x == l || x == {}
  }

  ghost predicate Compatible(n: Naming, m: Files, lists: seq<set<Candidate>>) {
    Given(lists) == {} || Merged(n, m, lists) || exists l :: Spread(n, m, lists, l)
  }

  predicate Defines(content: Content, k: string, v: string) {
    k in content && content[k] == v
  }

  predicate GivenDefinition(given: set<Candidate>, k: string, v: string) {
    exists c :: c in given && Defines(c.content, k, v)
  }

  /** What the first tile that needs the class needs of it. */
  function FirstWanting(lists: seq<set<Candidate>>): set<Candidate> {
    if lists == [] then {}
    else
      var before := FirstWanting(lists[..|lists| - 1]);
      if before != {} then before else lists[|lists| - 1]
  }

  function SourcesOf(cs: set<Candidate>): set<string> {
    set c | c in cs :: c.source
  }

  /** File f of the identity of all that was given, with the definitions it had and those given, and no others. */
  ghost predicate Holds(n: Naming, m: Files, given: set<Candidate>, f: string, content: Content) {
    && (forall c :: c in given ==> n.identity(f) == n.identity(c.source))
    && (forall k, v :: Defines(content, k, v) <==> (f in m && Defines(m[f], k, v)) || GivenDefinition(given, k, v))
  }

  /** One such file; its name is the one in the destination, or else that of the first source. */
  ghost predicate MergedResult(n: Naming, m: Files, given: set<Candidate>, first: set<Candidate>, r: Files) {
    && r != map[] && Alone(r)
    && r.Keys == (if m != map[] then m.Keys else SourcesOf(first))
    && forall f :: f in r ==> Holds(n, m, given, f, r[f])
  }

  ghost predicate Outcome(n: Naming, m: Files, lists: seq<set<Candidate>>, r: Files) {
    && (Given(lists) == {} ==> r == m)
    && (Given(lists) != {} && Merged(n, m, lists) ==> MergedResult(n, m, Given(lists), FirstWanting(lists), r))
    && (forall l :: Spread(n, m, lists, l) ==> r == Created(n, l))
  }

  // ---------- one list more ----------

  lemma GivenGrows(lists: seq<set<Candidate>>, x: set<Candidate>)
    ensures Given(lists + [x]) == Given(lists) + x
    ensures AllSingle(lists + [x]) <==> AllSingle(lists) && Single(x)
    ensures FirstWanting(lists + [x]) == if FirstWanting(lists) != {} then FirstWanting(lists) else x
  {
    hide Single;
    var all := lists + [x];
    assert all[..|lists|] == lists;
    forall l
      ensures l in all <==> l in lists || l == x
    {}
    assert x in all;
  }

  lemma {:induction false} FirstIsGiven(lists: seq<set<Candidate>>)
    ensures FirstWanting(lists) == {} <==> Given(lists) == {}
    ensures FirstWanting(lists) <= Given(lists)
  {
    if lists != [] {
      var front, x := lists[..|lists| - 1], lists[|lists| - 1];
      assert lists == front + [x];
      FirstIsGiven(front);
      GivenGrows(front, x);
    }
  }

  lemma NoneGiven(lists: seq<set<Candidate>>)
    ensures Given(lists) == {} <==> forall l :: l in lists ==> l == {}
  {
    if Given(lists) == {} {
      forall l | l in lists
        ensures l == {}
      {
        assert l <= Given(lists);
      }
    }
  }

  lemma SpreadGrows(n: Naming, m: Files, lists: seq<set<Candidate>>, x: set<Candidate>, l: set<Candidate>)
    ensures Spread(n, m, lists + [x], l) <==>
            if x == {} then Spread(n, m, lists, l)
            else x == l && Given(lists) == {} && m == map[] && !Single(l) && FoldsDiffer(n, l)
  {
    hide FoldsDiffer;
    NoneGiven(lists);
    var all := lists + [x];
    assert multiset(all)[l] == multiset(lists)[l] + if l == x then 1 else 0;
    assert multiset(lists)[l] > 0 <==> l in lists;
    forall y
      ensures y in all <==> y in lists || y == x
    {}
    assert x in all;
  }

  lemma ConsistentGrows(n: Naming, m: Files, given: set<Candidate>, x: set<Candidate>)
    ensures Consistent(n, m, given + x) <==>
            Consistent(n, m, given) && Consistent(n, m, x) && forall c, d :: c in x && d in given ==> SameFile(n, c, d)
  {
    AgreeIsSymmetric();
    hide Agree;
  }

  lemma AgreeIsSymmetric()
    ensures forall a, b :: Agree(a, b) <==> Agree(b, a)
    ensures forall a :: Agree(a, a)
  {}

  lemma OneIsConsistent(n: Naming, m: Files, x: set<Candidate>)
    requires Single(x)
    ensures Consistent(n, m, x) <==> Takes(n, m, x)
  {
    AgreeIsSymmetric();
    hide Agree;
  }

  /** More lists never make a class compatible. */
  lemma CompatibleShrinks(n: Naming, m: Files, lists: seq<set<Candidate>>, x: set<Candidate>)
    requires Compatible(n, m, lists + [x])
    ensures Compatible(n, m, lists)
  {
    GivenGrows(lists, x);
    ConsistentGrows(n, m, Given(lists), x);
    hide Consistent, Spread, Given;
    if l :| Spread(n, m, lists + [x], l) {
      SpreadGrows(n, m, lists, x, l);
    }
  }

  lemma NothingMore(n: Naming, m: Files, lists: seq<set<Candidate>>, r: Files)
    ensures Compatible(n, m, lists + [{}]) <==> Compatible(n, m, lists)
    ensures Outcome(n, m, lists, r) ==> Outcome(n, m, lists + [{}], r)
  {
    GivenGrows(lists, {});
    assert Given(lists) + {} == Given(lists);
    forall l
      ensures Spread(n, m, lists + [{}], l) <==> Spread(n, m, lists, l)
    {
      SpreadGrows(n, m, lists, {}, l);
    }
    hide Consistent, Spread, Given, MergedResult, FirstWanting, AllSingle;
  }

  /** The first need of a class. */
  lemma FirstNeed(n: Naming, m: Files, lists: seq<set<Candidate>>, x: set<Candidate>)
    requires Given(lists) == {} && x != {}
    ensures Join(n, m, x).Some? <==> Compatible(n, m, lists + [x])
    ensures Join(n, m, x).Some? ==> Outcome(n, m, lists + [x], Join(n, m, x).value)
  {
    var all := lists + [x];
    FirstLists(n, m, lists, x);
    forall l
      ensures Spread(n, m, all, l) <==> x == l && m == map[] && !Single(l) && FoldsDiffer(n, l)
    {
      SpreadGrows(n, m, lists, x, l);
    }
    hide Merged, Spread, Given, FirstWanting, Takes, MergedResult;
    if Single(x) && Join(n, m, x).Some? {
      FirstMerge(n, m, x);
    }
  }

  lemma FirstLists(n: Naming, m: Files, lists: seq<set<Candidate>>, x: set<Candidate>)
    requires Given(lists) == {} && x != {}
    ensures Given(lists + [x]) == FirstWanting(lists + [x]) == x
    ensures Merged(n, m, lists + [x]) <==> Alone(m) && Single(x) && Takes(n, m, x)
  {
    NoneGiven(lists);
    GivenGrows(lists, x);
    FirstIsGiven(lists);
    if Single(x) {
      OneIsConsistent(n, m, x);
    }
    assert AllSingle(lists);
    hide Consistent, Given, FirstWanting, AllSingle, Takes;
    assert {} + x == x;
  }

  lemma OnlyOne(m: Files) returns (f: string)
    requires m != map[] && Alone(m)
    ensures f in m && m.Keys == {f}
  {
    f :| f in m;
  }

  lemma FirstMerge(n: Naming, m: Files, x: set<Candidate>)
    requires x != {} && Single(x) && Join(n, m, x).Some? && Alone(m)
    ensures MergedResult(n, m, x, x, Join(n, m, x).value)
  {
    var c :| c in x;
    assert x == {c};
    var r := Join(n, m, x).value;
    assert forall k, v :: GivenDefinition(x, k, v) <==> Defines(c.content, k, v);
    hide GivenDefinition, Defines;
    if m == map[] {
      assert r == map[c.source := c.content] && SourcesOf(x) == {c.source};
      assert c.source in r && r.Keys == {c.source};
      assert Holds(n, m, x, c.source, r[c.source]);
    } else {
      var f := OnlyOne(m);
      JoinsOne(n, m, f, c);
      UnionDefines(m[f], c.content);
    }
  }

  lemma JoinsOne(n: Naming, m: Files, f: string, c: Candidate)
    requires f in m && m.Keys == {f}
    ensures Join(n, m, {c}) == if n.identity(f) == n.identity(c.source) && Agree(m[f], c.content) then Some(map[f := m[f] + c.content]) else None
  {
    assert m != map[];
    if Join(n, m, {c}).Some? {
      assert Extended(m, {c}) == map[f := m[f] + c.content];
    }
  }

  lemma UnionDefines(a: Content, b: Content)
    requires Agree(a, b)
    ensures forall k, v :: Defines(a + b, k, v) <==> Defines(a, k, v) || Defines(b, k, v)
  {}

  /** A later need of a class that has been merged. */
  lemma LaterNeed(n: Naming, m: Files, given: set<Candidate>, first: set<Candidate>, x: set<Candidate>, r: Files)
    requires given != {} && Consistent(n, m, given) && Alone(m) && x != {} && MergedResult(n, m, given, first, r)
    ensures Join(n, r, x).Some? <==> Single(x) && Consistent(n, m, given + x)
    ensures Join(n, r, x).Some? ==> MergedResult(n, m, given + x, first, Join(n, r, x).value)
  {
    if Single(x) {
      var c :| c in x;
      assert x == {c};
      var f := OnlyOne(r);
      ConsistentGrows(n, m, given, x);
      OneIsConsistent(n, m, x);
      JoinsOne(n, r, f, c);
      TakesExactly(n, m, given, f, r[f], c);
      hide Consistent, Join;
      if Join(n, r, x).Some? {
        HoldsMore(n, m, given, f, r[f], c);
      }
    }
  }

  lemma HoldsMore(n: Naming, m: Files, given: set<Candidate>, f: string, content: Content, c: Candidate)
    requires Holds(n, m, given, f, content) && n.identity(f) == n.identity(c.source) && Agree(content, c.content)
    ensures Holds(n, m, given + {c}, f, content + c.content)
  {
    UnionDefines(content, c.content);
    hide Defines;
    forall k, v
      ensures GivenDefinition(given + {c}, k, v) <==> GivenDefinition(given, k, v) || Defines(c.content, k, v)
    {}
  }

  /** The merged file takes a candidate exactly when everything it was merged from does. */
  lemma TakesExactly(n: Naming, m: Files, given: set<Candidate>, f: string, content: Content, c: Candidate)
    requires given != {} && Holds(n, m, given, f, content) && Alone(m) && (m != map[] ==> f in m)
    ensures n.identity(f) == n.identity(c.source) && Agree(content, c.content)
            <==> Takes(n, m, {c}) && forall d :: d in given ==> SameFile(n, c, d)
  {
    if n.identity(f) == n.identity(c.source) {
      AgreesExactly(n, m, given, f, content, c.content);
    }
    AgreeIsSymmetric();
    hide Agree;
    var d :| d in given;
  }

  lemma AgreesExactly(n: Naming, m: Files, given: set<Candidate>, f: string, content: Content, other: Content)
    requires Holds(n, m, given, f, content)
    ensures Agree(content, other) <==> (f in m ==> Agree(m[f], other)) && forall d :: d in given ==> Agree(d.content, other)
  {
    if Agree(content, other) {
      forall k, v | Defines(content, k, v) && k in other
        ensures other[k] == v
      {}
      assert f in m ==> forall k :: k in m[f] ==> Defines(m[f], k, m[f][k]);
      forall d, k | d in given && k in d.content && k in other
        ensures d.content[k] == other[k]
      {
        assert Defines(d.content, k, d.content[k]);
        assert GivenDefinition(given, k, d.content[k]);
      }
    } else {
      var k :| k in content && k in other && content[k] != other[k];
      assert Defines(content, k, content[k]);
    }
  }

  // ---------- all lists ----------

  /** A class comes out exactly when what is needed of it is compatible, and as its outcome says. */
  lemma {:induction false} ClassComesOut(n: Naming, m: Files, lists: seq<set<Candidate>>)
    ensures JoinAll(n, m, lists).Some? <==> Compatible(n, m, lists)
    ensures JoinAll(n, m, lists).Some? ==> Outcome(n, m, lists, JoinAll(n, m, lists).value)
  {
    if lists == [] {
      NoneGiven(lists);
    } else {
      var front, x := lists[..|lists| - 1], lists[|lists| - 1];
      assert lists == front + [x];
      ClassComesOut(n, m, front);
      hide Compatible, Outcome, Join, Given;
      if JoinAll(n, m, front).None? {
        if Compatible(n, m, lists) {
          CompatibleShrinks(n, m, front, x);
        }
      } else {
        OneMoreList(n, m, front, x, JoinAll(n, m, front).value);
      }
    }
  }

  lemma OneMoreList(n: Naming, m: Files, lists: seq<set<Candidate>>, x: set<Candidate>, r: Files)
    requires Compatible(n, m, lists) && Outcome(n, m, lists, r)
    ensures Join(n, r, x).Some? <==> Compatible(n, m, lists + [x])
    ensures Join(n, r, x).Some? ==> Outcome(n, m, lists + [x], Join(n, r, x).value)
  {
    if x == {} {
      NothingMore(n, m, lists, r);
      assert Join(n, r, x) == Some(r);
    } else if Given(lists) == {} {
      FirstNeed(n, m, lists, x);
    } else {
      NeededAgain(n, m, lists, x, r);
    }
  }

  lemma NeededAgain(n: Naming, m: Files, lists: seq<set<Candidate>>, x: set<Candidate>, r: Files)
    requires Compatible(n, m, lists) && Outcome(n, m, lists, r) && Given(lists) != {} && x != {}
    ensures Join(n, r, x).Some? <==> Compatible(n, m, lists + [x])
    ensures Join(n, r, x).Some? ==> Outcome(n, m, lists + [x], Join(n, r, x).value)
  {
    MeantByCompatible(n, m, lists);
    MeantByCompatible(n, m, lists + [x]);
    hide *;
    MoreGiven(n, m, lists, x);
    if Merged(n, m, lists) {
      MergedAgain(n, m, lists, x, r);
    } else {
      var l :| Spread(n, m, lists, l);
      SpreadAgain(n, m, lists, x, r, l);
    }
  }

  lemma MeantByCompatible(n: Naming, m: Files, lists: seq<set<Candidate>>)
    ensures Compatible(n, m, lists) <==> Given(lists) == {} || Merged(n, m, lists) || exists l :: Spread(n, m, lists, l)
  {}

  lemma MoreGiven(n: Naming, m: Files, lists: seq<set<Candidate>>, x: set<Candidate>)
    requires Given(lists) != {} && x != {}
    ensures Given(lists + [x]) != {} && forall l :: !Spread(n, m, lists + [x], l)
  {
    GivenGrows(lists, x);
    forall l
      ensures !Spread(n, m, lists + [x], l)
    {
      SpreadGrows(n, m, lists, x, l);
    }
  }

  lemma MergedAgain(n: Naming, m: Files, lists: seq<set<Candidate>>, x: set<Candidate>, r: Files)
    requires Merged(n, m, lists) && Outcome(n, m, lists, r) && Given(lists) != {} && x != {}
    requires forall l :: !Spread(n, m, lists + [x], l)
    ensures Join(n, r, x).Some? <==> Merged(n, m, lists + [x])
    ensures Join(n, r, x).Some? ==> Outcome(n, m, lists + [x], Join(n, r, x).value)
  {
    GivenGrows(lists, x);
    FirstIsGiven(lists);
    ConsistentGrows(n, m, Given(lists), x);
    hide Given, Consistent, AllSingle, FirstWanting, MergedResult, Join, Spread;
    LaterNeed(n, m, Given(lists), FirstWanting(lists), x, r);
  }

  lemma SpreadAgain(n: Naming, m: Files, lists: seq<set<Candidate>>, x: set<Candidate>, r: Files, l: set<Candidate>)
    requires Spread(n, m, lists, l) && Outcome(n, m, lists, r) && x != {}
    ensures Join(n, r, x).None? && !Merged(n, m, lists + [x])
  {
    assert r == Created(n, l);
    SpreadIsFull(n, l, x);
    assert l in lists by {
      assert multiset(lists)[l] > 0;
    }
    assert l in lists + [x];
    hide Consistent, Single, FoldsDiffer;
  }

  lemma SpreadIsFull(n: Naming, l: set<Candidate>, x: set<Candidate>)
    requires !Single(l) && FoldsDiffer(n, l) && x != {}
    ensures Join(n, Created(n, l), x).None?
  {
    var c, d :| c in l && d in l && c != d;
    assert c.source in Created(n, l) && d.source in Created(n, l);
  }

  // ---------- order ----------

  /** The same files; or one file each, of one identity and with the same definitions, under two names. */
  predicate Alike(n: Naming, r: Files, s: Files) {
    r == s || exists f, g :: f in r && g in s && r.Keys == {f} && s.Keys == {g} && n.identity(f) == n.identity(g) && r[f] == s[g]
  }

  lemma SameLists(a: seq<set<Candidate>>, b: seq<set<Candidate>>)
    requires multiset(a) == multiset(b)
    ensures forall l :: l in a <==> l in b
    ensures Given(a) == Given(b) && (AllSingle(a) <==> AllSingle(b))
  {
    forall l
      ensures l in a <==> l in b
    {
      assert l in a <==> multiset(a)[l] > 0;
      assert l in b <==> multiset(b)[l] > 0;
    }
  }

  /** Whether a class comes out does not depend on the order of the tiles, and what comes out only in the name of a merged
      file that the destination did not have. */
  lemma ClassIgnoresOrder(n: Naming, m: Files, a: seq<set<Candidate>>, b: seq<set<Candidate>>)
    requires multiset(a) == multiset(b)
    ensures JoinAll(n, m, a).Some? <==> JoinAll(n, m, b).Some?
    ensures JoinAll(n, m, a).Some? ==> Alike(n, JoinAll(n, m, a).value, JoinAll(n, m, b).value)
  {
    SameLists(a, b);
    assert forall l :: Spread(n, m, a, l) <==> Spread(n, m, b, l);
    ClassComesOut(n, m, a);
    ClassComesOut(n, m, b);
    hide JoinAll, Given, Consistent, AllSingle, Alike, MergedResult, Spread;
    if JoinAll(n, m, a).Some? && Given(a) != {} && Merged(n, m, a) {
      SameMerge(n, m, Given(a), FirstWanting(a), FirstWanting(b), JoinAll(n, m, a).value, JoinAll(n, m, b).value);
    } else if JoinAll(n, m, a).Some? {
      SameIsAlike(n, JoinAll(n, m, a).value);
    }
  }

  lemma SameIsAlike(n: Naming, r: Files)
    ensures Alike(n, r, r)
  {}

  lemma SameMerge(n: Naming, m: Files, given: set<Candidate>, first: set<Candidate>, other: set<Candidate>, r: Files, s: Files)
    requires given != {} && MergedResult(n, m, given, first, r) && MergedResult(n, m, given, other, s)
    ensures Alike(n, r, s)
  {
    var f := OnlyOne(r);
    var g := OnlyOne(s);
    var c :| c in given;
    assert Holds(n, m, given, f, r[f]) && Holds(n, m, given, g, s[g]);
    assert m != map[] ==> f == g;
    hide MergedResult, GivenDefinition;
    SameDefinitions(r[f], s[g]);
  }

  lemma SameDefinitions(x: Content, y: Content)
    requires forall k, v :: Defines(x, k, v) <==> Defines(y, k, v)
    ensures x == y
  {
    forall k
      ensures k in x <==> k in y
      ensures k in x ==> k in y && x[k] == y[k]
    {
      assert k in x ==> Defines(y, k, x[k]);
      assert k in y ==> Defines(x, k, y[k]);
    }
  }
}

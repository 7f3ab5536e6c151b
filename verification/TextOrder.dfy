/** Texts in the order of their characters, and sets of texts as strictly increasing lists. */
module TextOrder {

  function Compare(a: string, b: string): (c: int)
    ensures c == 0 <==> a == b
    ensures -1 <= c <= 1
  {
    if a == b then 0
    else if a == "" then -1
    else if b == "" then 1
    else if a[0] != b[0] then (if a[0] < b[0] then -1 else 1)
    else
      assert a == [a[0]] + a[1..] && b == [b[0]] + b[1..];
      Compare(a[1..], b[1..])
  }

  predicate Before(a: string, b: string) {
    Compare(a, b) < 0
  }

  /** After k common characters a ends, or has the lesser character. */
  predicate ComesFirstAt(a: string, b: string, k: nat) {
    k <= |a| && k < |b| && a[..k] == b[..k] && (k == |a| || a[k] < b[k])
  }

  lemma {:induction false} FirstDifference(a: string, b: string) returns (k: nat)
    requires Before(a, b)
    ensures ComesFirstAt(a, b, k)
  {
    k := 0;
    if a != "" && a[0] == b[0] {
      var n := FirstDifference(a[1..], b[1..]);
      k := n + 1;
      assert a[..k] == [a[0]] + a[1..][..n] && b[..k] == [b[0]] + b[1..][..n];
    }
  }

  lemma {:induction false} DifferenceOrders(a: string, b: string, k: nat)
    requires ComesFirstAt(a, b, k)
    ensures Before(a, b)
  {
    if k > 0 {
      assert a[0] == a[..k][0] && b[0] == b[..k][0];
      assert a[1..][..k - 1] == a[..k][1..] && b[1..][..k - 1] == b[..k][1..];
      DifferenceOrders(a[1..], b[1..], k - 1);
    }
  }

  /** A text comes before another exactly when it is a proper start of it, or has the lesser character where they differ
      first. */
  lemma BeforeExactly(a: string, b: string)
    ensures Before(a, b) <==> exists k :: ComesFirstAt(a, b, k)
  {
    hide Before, ComesFirstAt;
    if Before(a, b) {
      var k := FirstDifference(a, b);
    }
    if k :| ComesFirstAt(a, b, k) {
      DifferenceOrders(a, b, k);
    }
  }

  lemma {:induction false} CompareIsAntisymmetric(a: string, b: string)
    ensures Compare(a, b) == -Compare(b, a)
  {
    if a != "" && b != "" && a[0] == b[0] && a != b {
      CompareIsAntisymmetric(a[1..], b[1..]);
    }
  }

  lemma {:induction false} BeforeIsTransitive(a: string, b: string, c: string)
    requires Before(a, b) && Before(b, c)
    ensures Before(a, c)
  {
    if a != "" && b != "" && c != "" && a[0] == b[0] == c[0] {
      BeforeIsTransitive(a[1..], b[1..], c[1..]);
    }
  }

  predicate Increasing(s: seq<string>) {
    forall i, j :: 0 <= i < j < |s| ==> Before(s[i], s[j])
  }

  /** x in its place; a text that is there already is not repeated. */
  function Insert(s: seq<string>, x: string): seq<string> {
    if s == [] then [x]
    else if x == s[0] then s
    else if Before(x, s[0]) then [x] + s
    else [s[0]] + Insert(s[1..], x)
  }

  lemma {:induction false} InsertKeepsOrder(s: seq<string>, x: string)
    requires Increasing(s)
    ensures Increasing(Insert(s, x)) && forall y :: y in Insert(s, x) <==> y in s || y == x
  {
    if s != [] && x != s[0] {
      CompareIsAntisymmetric(x, s[0]);
      if Before(x, s[0]) {
        forall i | 0 < i < |s|
          ensures Before(x, s[i])
        {
          BeforeIsTransitive(x, s[0], s[i]);
        }
      } else {
        InsertKeepsOrder(s[1..], x);
        forall y | y in Insert(s[1..], x)
          ensures Before(s[0], y)
        {}
      }
    }
  }

  /** The texts of a list in order, each once. */
  function Sorted(texts: seq<string>): seq<string> {
    if texts == [] then [] else Insert(Sorted(texts[..|texts| - 1]), texts[|texts| - 1])
  }

  lemma {:induction false} SortedIsIncreasing(texts: seq<string>)
    ensures Increasing(Sorted(texts)) && forall x :: x in Sorted(texts) <==> x in texts
  {
    if texts != [] {
      var front, last := texts[..|texts| - 1], texts[|texts| - 1];
      SortedIsIncreasing(front);
      InsertKeepsOrder(Sorted(front), last);
      assert texts == front + [last];
    }
  }

  /** A set of texts has one increasing list. */
  lemma {:induction false} IncreasingIsUnique(a: seq<string>, b: seq<string>)
    requires Increasing(a) && Increasing(b) && forall x :: x in a <==> x in b
    ensures a == b
  {
    assert b != [] ==> b[0] in a;
    if a != [] {
      assert a[0] in b && b != [];
      FirstIsLeast(a, b[0]);
      FirstIsLeast(b, a[0]);
      CompareIsAntisymmetric(a[0], b[0]);
      forall x
        ensures x in a[1..] <==> x in b[1..]
      {
        RestIsOthers(a, x);
        RestIsOthers(b, x);
      }
      IncreasingIsUnique(a[1..], b[1..]);
    }
  }

  lemma FirstIsLeast(s: seq<string>, x: string)
    requires Increasing(s) && x in s
    ensures x == s[0] || Before(s[0], x)
  {}

  lemma RestIsOthers(s: seq<string>, x: string)
    requires Increasing(s) && s != []
    ensures x in s[1..] <==> x in s && x != s[0]
  {}

  lemma SortedIsDetermined(a: seq<string>, b: seq<string>)
    requires forall x :: x in a <==> x in b
    ensures Sorted(a) == Sorted(b)
  {
    SortedIsIncreasing(a);
    SortedIsIncreasing(b);
    IncreasingIsUnique(Sorted(a), Sorted(b));
  }

  lemma IncreasingIsSorted(s: seq<string>)
    requires Increasing(s)
    ensures Sorted(s) == s
  {
    SortedIsIncreasing(s);
    IncreasingIsUnique(Sorted(s), s);
  }

  /** Sorting does not make a list longer. */
  lemma {:induction false} SortedIsNoLonger(texts: seq<string>)
    ensures |Sorted(texts)| <= |texts|
  {
    if texts != [] {
      SortedIsNoLonger(texts[..|texts| - 1]);
      InsertLength(Sorted(texts[..|texts| - 1]), texts[|texts| - 1]);
    }
  }

  lemma {:induction false} InsertLength(s: seq<string>, x: string)
    ensures |s| <= |Insert(s, x)| <= |s| + 1
  {
    if s != [] && x != s[0] && !Before(x, s[0]) {
      InsertLength(s[1..], x);
    }
  }

  predicate IsLeast(s: set<string>, x: string) {
    x in s && forall y :: y in s ==> y == x || Before(x, y)
  }

  lemma {:induction false} LeastExists(s: set<string>)
    requires s != {}
    ensures exists x :: IsLeast(s, x)
  {
    var a :| a in s;
    if s == {a} {
      assert IsLeast(s, a);
    } else {
      var rest := s - {a};
      assert rest != {};
      LeastExists(rest);
      var b :| IsLeast(rest, b);
      CompareIsAntisymmetric(a, b);
      if Before(a, b) {
        forall y | y in s
          ensures y == a || Before(a, y)
        {
          if y != a && y != b {
            BeforeIsTransitive(a, b, y);
          }
        }
        assert IsLeast(s, a);
      } else {
        assert IsLeast(s, b);
      }
    }
  }

  function Least(s: set<string>): (x: string)
    requires s != {}
    ensures IsLeast(s, x)
  {
    LeastExists(s);
    assert forall x, y :: IsLeast(s, x) && IsLeast(s, y) ==> x == y by {
      forall x, y | IsLeast(s, x) && IsLeast(s, y)
        ensures x == y
      {
        CompareIsAntisymmetric(x, y);
      }
    }
    var x :| x in s && IsLeast(s, x);
    x
  }

  // ---------- values in the order of their keys ----------

  /** The last value of each key. */
  function ByKey<T>(keys: seq<string>, values: seq<T>): (m: map<string, T>)
    requires |keys| == |values|
    ensures forall k :: k in m <==> k in keys
  {
    if keys == [] then map[]
    else
      var n := |keys| - 1;
      assert keys == keys[..n] + [keys[n]];
      ByKey(keys[..n], values[..n])[keys[n] := values[n]]
  }

  lemma ByKeyGrows<T>(keys: seq<string>, values: seq<T>, k: string, v: T)
    requires |keys| == |values|
    ensures ByKey(keys + [k], values + [v]) == ByKey(keys, values)[k := v]
  {
    assert (keys + [k])[..|keys|] == keys && (values + [v])[..|values|] == values;
  }

  lemma {:induction false} ByKeyIsAValue<T>(keys: seq<string>, values: seq<T>, k: string) returns (a: nat)
    requires |keys| == |values| && k in keys
    ensures a < |keys| && keys[a] == k && ByKey(keys, values)[k] == values[a]
  {
    var n := |keys| - 1;
    assert keys == keys[..n] + [keys[n]];
    if k == keys[n] {
      a := n;
    } else {
      a := ByKeyIsAValue(keys[..n], values[..n], k);
    }
  }

  /** The values of these keys, each once, in the order of the keys. */
  function Arrange<T>(m: map<string, T>, keys: seq<string>): (r: seq<T>)
    requires forall k :: k in keys ==> k in m
    ensures |r| == |Sorted(keys)|
    ensures forall i :: 0 <= i < |r| ==> Sorted(keys)[i] in m && r[i] == m[Sorted(keys)[i]]
  {
    SortedIsIncreasing(keys);
    assert forall i :: 0 <= i < |Sorted(keys)| ==> Sorted(keys)[i] in Sorted(keys);
    seq(|Sorted(keys)|, i requires 0 <= i < |Sorted(keys)| => m[Sorted(keys)[i]])
  }

  lemma FrontIncreases(s: seq<string>, n: nat)
    requires Increasing(s) && n <= |s|
    ensures Increasing(s[..n])
  {
    hide Before;
  }

  lemma LastIsNew(s: seq<string>)
    requires Increasing(s) && s != []
    ensures s[|s| - 1] !in s[..|s| - 1]
  {}

  /** Values whose keys are in order already stay as they are. */
  lemma ArrangeInOrder<T>(keys: seq<string>, values: seq<T>)
    requires |keys| == |values| && Increasing(keys)
    ensures Arrange(ByKey(keys, values), keys) == values
  {
    IncreasingIsSorted(keys);
    var r := Arrange(ByKey(keys, values), keys);
    forall i | 0 <= i < |keys|
      ensures r[i] == values[i]
    {
      var a := ByKeyIsAValue(keys, values, keys[i]);
      IncreasingIsInjective(keys, a, i);
    }
  }

  lemma IncreasingIsInjective(s: seq<string>, i: nat, j: nat)
    requires Increasing(s) && i < |s| && j < |s| && s[i] == s[j]
    ensures i == j
  {}

  /** The arrangement depends on the keys as a set. */
  lemma ArrangeIsDetermined<T>(m: map<string, T>, a: seq<string>, b: seq<string>)
    requires (forall k :: k in a ==> k in m) && (forall k :: k in a <==> k in b)
    ensures Arrange(m, a) == Arrange(m, b)
  {
    SortedIsDetermined(a, b);
  }
}
